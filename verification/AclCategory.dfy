// What the walk over the commands of a category does to every command of the table.
module AclCategory {
  import opened AclTable
  import opened AclRules

  lemma {:induction false} OutsideCategory(t: Table, c: Commands, category: string, v: bool, id: nat)
    requires |c.bits| == COMMAND_BITS && forall i :: 0 <= i < |t| ==> t[i].id != id
    ensures var d := WithCategory(t, c, category, v);
            && |d.bits| == COMMAND_BITS && (id < COMMAND_BITS ==> d.bits[id] == c.bits[id])
            && (id in d.subs <==> id in c.subs) && (id in c.subs ==> d.subs[id] == c.subs[id])
    decreases |t|
  {
    hide InCategory;
    if t != [] {
      OutsideCategory(t[..|t| - 1], c, category, v, id);
    }
  }

  lemma {:induction false} InsideCategory(t: Table, c: Commands, category: string, v: bool, i: nat)
    requires |c.bits| == COMMAND_BITS && i < |t| && t[i].id < COMMAND_BITS
    requires forall i, j :: 0 <= i < j < |t| ==> t[i].id != t[j].id
    ensures var d, id := WithCategory(t, c, category, v), t[i].id;
            && |d.bits| == COMMAND_BITS
            && if InCategory(t[i], category) && !t[i].isModule then d.bits[id] == v && id !in d.subs
               else d.bits[id] == c.bits[id] && (id in d.subs <==> id in c.subs)
                    && (id in c.subs ==> d.subs[id] == c.subs[id])
    decreases |t|
  {
    hide InCategory;
    if i == |t| - 1 {
      OutsideCategory(t[..i], c, category, v, t[i].id);
    } else {
      InsideCategory(t[..|t| - 1], c, category, v, i);
      assert t[i].id != t[|t| - 1].id;
    }
  }

  lemma CategoryIs(name: string)
    ensures KnownCategory(name) <==> Lower(name) in CATEGORIES
  {
    forall i | 0 <= i < |CATEGORIES| ensures Lower(CATEGORIES[i]) == CATEGORIES[i] {
      CategoriesAreLetters(CATEGORIES[i]);
      hide CATEGORIES;
    }
    hide CATEGORIES;
    if KnownCategory(name) {
      var i :| 0 <= i < |CATEGORIES| && SameText(CATEGORIES[i], name);
    }
    if Lower(name) in CATEGORIES {
      var i :| 0 <= i < |CATEGORIES| && CATEGORIES[i] == Lower(name);
      assert SameText(CATEGORIES[i], name);
    }
  }

  lemma InCategoryIs(cmd: Command, name: string)
    ensures InCategory(cmd, name) <==> exists n :: n in cmd.categories && Lower(n) == Lower(name)
  {
    hide Lower;
    if InCategory(cmd, name) {
      var n :| n in cmd.categories && SameText(n, name);
    }
    if n :| n in cmd.categories && Lower(n) == Lower(name) {
      assert SameText(n, name);
    }
  }

  lemma CategoryCommands(t: Table, c: Commands, name: string, v: bool)
    requires ValidTable(t) && |c.bits| == COMMAND_BITS
    ensures var d := WithCategory(t, c, name, v);
            && |d.bits| == COMMAND_BITS
            && (forall i :: 0 <= i < |t| ==>
                  t[i].id < COMMAND_BITS
                  && if InCategory(t[i], name) && !t[i].isModule then d.bits[t[i].id] == v && t[i].id !in d.subs
                     else d.bits[t[i].id] == c.bits[t[i].id] && SubsOf(d, t[i].id) == SubsOf(c, t[i].id))
            && (forall id: nat :: id < COMMAND_BITS && (forall i :: 0 <= i < |t| ==> t[i].id != id) ==>
                  d.bits[id] == c.bits[id] && SubsOf(d, id) == SubsOf(c, id))
  {
    hide WithCategory, InCategory, ValidName;
    forall i | 0 <= i < |t|
      ensures t[i].id < COMMAND_BITS
      ensures var d := WithCategory(t, c, name, v);
              && |d.bits| == COMMAND_BITS
              && if InCategory(t[i], name) && !t[i].isModule then d.bits[t[i].id] == v && t[i].id !in d.subs
                 else d.bits[t[i].id] == c.bits[t[i].id] && SubsOf(d, t[i].id) == SubsOf(c, t[i].id)
    {
      assert ValidCommand(t[i]);
      InsideCategory(t, c, name, v, i);
    }
    forall id: nat | id < COMMAND_BITS && forall i :: 0 <= i < |t| ==> t[i].id != id
      ensures var d := WithCategory(t, c, name, v);
              |d.bits| == COMMAND_BITS && d.bits[id] == c.bits[id] && SubsOf(d, id) == SubsOf(c, id)
    {
      OutsideCategory(t, c, name, v, id);
    }
    assert |WithCategory(t, c, name, v).bits| == COMMAND_BITS by { CategoryEffect(t, c, name, v, 0); }
  }

  lemma TouchesIs(t: Table, name: string)
    requires ValidTable(t)
    ensures Touches(t, name) <==> exists i :: 0 <= i < |t| && InCategory(t[i], name) && !t[i].isModule
  {
    hide InCategory, ValidName;
    if i :| 0 <= i < |t| && InCategory(t[i], name) && !t[i].isModule {
      assert ValidCommand(t[i]);
    }
  }

  /** In the words of the table: a command of the category that is no module's has the bit and no subcommand, every
      other command what it had. */
  lemma CategoryWalk(t: Table, c: Commands, name: string, v: bool)
    requires ValidTable(t) && |c.bits| == COMMAND_BITS
    ensures var d := WithCategory(t, c, name, v);
            && |d.bits| == COMMAND_BITS
            && forall i :: 0 <= i < |t| ==>
                 t[i].id < COMMAND_BITS
                 && if !t[i].isModule && exists n :: n in t[i].categories && Lower(n) == Lower(name)
                    then d.bits[t[i].id] == v && t[i].id !in d.subs
                    else d.bits[t[i].id] == c.bits[t[i].id] && SubsOf(d, t[i].id) == SubsOf(c, t[i].id)
  {
    hide Lower, WithCategory, InCategory, ValidTable, SubsOf;
    CategoryCommands(t, c, name, v);
    forall i | 0 <= i < |t|
      ensures InCategory(t[i], name) <==> exists n :: n in t[i].categories && Lower(n) == Lower(name)
    {
      InCategoryIs(t[i], name);
    }
  }

  // ---------------------------------------------------------------- the walk itself

  /** Behind the first `i` commands of the table, with the commands and flags it began with. */
  predicate Walked(t: Table, i: nat, c0: Commands, f0: set<Flag>, c: Commands, f: set<Flag>, category: string,
                   v: bool) {
    && i <= |t|
    && c == WithCategory(t[..i], c0, category, v)
    && f == if !v && Touches(t[..i], category) then f0 - {AllCommands} else f0
  }

  lemma WalkedStart(t: Table, c: Commands, f: set<Flag>, category: string, v: bool)
    ensures Walked(t, 0, c, f, c, f, category, v)
  {
  }

  lemma WalkedStep(t: Table, i: nat, c0: Commands, f0: set<Flag>, c: Commands, f: set<Flag>, category: string, v: bool)
    requires i < |t| && Walked(t, i, c0, f0, c, f, category, v)
    ensures if t[i].isModule || !InCategory(t[i], category) then Walked(t, i + 1, c0, f0, c, f, category, v)
            else Walked(t, i + 1, c0, f0, WithoutSubs(WithBit(c, t[i].id, v), t[i].id),
                        if v || t[i].id >= COMMAND_BITS then f else f - {AllCommands}, category, v)
  {
    hide InCategory, WithBit, WithoutSubs;
    assert t[..i + 1][..i] == t[..i] && t[..i + 1] == t[..i] + [t[i]];
    TouchesSnoc(t[..i], t[i], category);
  }

  lemma WalkedEnd(t: Table, c0: Commands, f0: set<Flag>, c: Commands, f: set<Flag>, category: string, v: bool)
    requires Walked(t, |t|, c0, f0, c, f, category, v)
    ensures c == WithCategory(t, c0, category, v)
    ensures f == if !v && Touches(t, category) then f0 - {AllCommands} else f0
  {
    assert t[..|t|] == t;
  }

  lemma TouchesSnoc(t: Table, cmd: Command, category: string)
    ensures Touches(t + [cmd], category)
            <==> Touches(t, category) || (InCategory(cmd, category) && !cmd.isModule && cmd.id < COMMAND_BITS)
  {
    var all := t + [cmd];
    if Touches(t, category) {
      var i :| 0 <= i < |t| && InCategory(t[i], category) && !t[i].isModule && t[i].id < COMMAND_BITS;
      assert all[i] == t[i];
    }
    assert all[|t|] == cmd;
    assert forall i :: 0 <= i < |t| ==> all[i] == t[i];
  }
}
