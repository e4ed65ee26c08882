// Printing a user's command permissions as rules: a greedy search over categories, played on a
// fake user, then single commands; and why the rules rebuild the permissions.
module AclDescribe {
  import opened AclTable
  import opened AclRules
  import opened AclUser

  // ---------------------------------------------------------------- rules and what they mean

  datatype Rule =
    | All(add: bool)
    | Category(add: bool, name: string)
    | One(add: bool, name: string)
    | Sub(name: string, sub: string)

  function Sign(add: bool): string {
    if add then "+" else "-"
  }

  function Text(r: Rule): string {
    match r
    case All(add) => Sign(add) + "@all"
    case Category(add, name) => Sign(add) + "@" + name
    case One(add, name) => Sign(add) + name
    case Sub(name, sub) => "+" + name + "|" + sub
  }

  predicate ValidRule(t: Table, r: Rule) {
    match r
    case All(_) => true
    case Category(_, name) => name in CATEGORIES
    case One(_, name) => Lookup(t, name) >= 0 && ValidName(name)
    case Sub(name, sub) => Lookup(t, name) >= 0 && ValidName(name) && sub != "" && NoNul(sub)
  }

  function ApplyRule(t: Table, c: Commands, r: Rule): Commands {
    match r
    case All(add) => Commands(AllBits(add), map[])
    case Category(add, name) => WithCategory(t, c, name, add)
    case One(add, name) =>
      var i := Lookup(t, name);
      if i < 0 then c else WithoutSubs(WithBit(c, t[i].id, add), t[i].id)
    case Sub(name, sub) =>
      var i := Lookup(t, name);
      if i < 0 || (t[i].id < |c.bits| && c.bits[t[i].id]) then c else WithSub(c, t[i].id, sub)
  }

  function ApplyRules(t: Table, c: Commands, rs: seq<Rule>): Commands {
    if rs == [] then c else ApplyRule(t, ApplyRules(t, c, rs[..|rs| - 1]), rs[|rs| - 1])
  }

  function Texts(rs: seq<Rule>): seq<string> {
    seq(|rs|, i requires 0 <= i < |rs| => Text(rs[i]))
  }

  lemma NoCategoryIsAll(name: string)
    requires name in CATEGORIES
    ensures Lower(name) != "all" && |name| > 0 && KnownCategory(name)
  {
    var i :| 0 <= i < |CATEGORIES| && CATEGORIES[i] == name;
    assert SameText(CATEGORIES[i], name);
    assert |name| == 3 ==> name == "set" || name == "geo";
    assert |name| == 3 ==> Lower(name)[0] == LowerChar(name[0]) && name[0] in {'s', 'g'};
  }

  lemma PlusMinusKeywords(l: string)
    requires l != "" && (l[0] == '+' || l[0] == '-')
    ensures KeywordOf(l) == if l == "+@all" then Is(AnyCommand) else if l == "-@all" then Is(NoCommand) else NotKeyword
  {
  }

  lemma BarAfter(name: string, tail: string)
    requires forall i :: 0 <= i < |name| ==> name[i] != '|'
    requires tail == "" || tail[0] == '|'
    ensures Bar(name + tail) == |name|
  {
    var s := name + tail;
    assert forall i :: 0 <= i < |name| ==> s[i] == name[i];
    assert tail != "" ==> s[|name|] == '|';
  }

  lemma TextHasNoNul(r: Rule)
    requires r.Category? ==> r.name in CATEGORIES
    requires r.One? || r.Sub? ==> ValidName(r.name)
    requires r.Sub? ==> NoNul(r.sub)
    ensures NoNul(Text(r))
  {
    if r.Category? {
      CategoriesAreLetters(r.name);
    }
  }

  lemma AllMeaning(env: Env, u: UserState, add: bool)
    ensures Apply(env, u, Text(All(add))) == Done(ApplyKeyword(u, if add then AnyCommand else NoCommand))
  {
    var op := Text(All(add));
    TextHasNoNul(All(add));
    SeenAll(env, u, op);
    assert op == if add then "+@all" else "-@all";
    assert Lower(op) == op;
    PlusMinusKeywords(Lower(op));
  }

  lemma CategoryText(add: bool, name: string)
    requires Lower(name) != "all"
    ensures var op := Text(Category(add, name));
            && op != "" && op[0] == (if add then '+' else '-')
            && op[1..] != "" && op[1..][0] == '@' && op[1..][1..] == name
            && KeywordOf(Lower(op)).NotKeyword?
  {
    var op := Text(Category(add, name));
    assert Lower(op)[2..] == Lower(name);
    assert "+@all"[2..] == "all" && "-@all"[2..] == "all";
    PlusMinusKeywords(Lower(op));
  }

  lemma CategorySeen(env: Env, u: UserState, add: bool, name: string)
    requires name in CATEGORIES
    ensures ApplySeen(env, u, Text(Category(add, name))) == SetCategory(env.table, u, name, add)
    ensures KnownCategory(name)
  {
    hide KnownCategory, SetCategory, Text, KeywordOf, Lower;
    NoCategoryIsAll(name);
    CategoryText(add, name);
  }

  lemma CategoryMeaning(env: Env, u: UserState, add: bool, name: string)
    requires name in CATEGORIES
    ensures Apply(env, u, Text(Category(add, name))) == SetCategory(env.table, u, name, add)
    ensures KnownCategory(name)
  {
    hide ApplySeen, Apply, Text, KnownCategory, SetCategory;
    TextHasNoNul(Category(add, name));
    SeenAll(env, u, Text(Category(add, name)));
    CategorySeen(env, u, add, name);
  }

  lemma OneText(add: bool, name: string)
    requires ValidName(name)
    ensures var op := Text(One(add, name));
            && op != "" && op[0] == (if add then '+' else '-')
            && op[1..] == name && name[0] != '@' && Bar(name) == |name|
            && KeywordOf(Lower(op)).NotKeyword?
  {
    hide KeywordOf, Lower, Bar;
    PlusText(name);
    BarAfter(name, "");
    assert name + "" == name;
  }

  lemma OneSeen(env: Env, u: UserState, add: bool, name: string)
    requires ValidName(name)
    ensures ApplySeen(env, u, Text(One(add, name))) == SetOneCommand(env.table, u, name, add)
  {
    hide SetOneCommand, AddSubcommand, KeywordOf, Lower, Text, Bar, SetCategory, ValidName;
    OneText(add, name);
  }

  lemma OneMeaning(env: Env, u: UserState, add: bool, name: string)
    requires ValidName(name)
    ensures Apply(env, u, Text(One(add, name))) == SetOneCommand(env.table, u, name, add)
  {
    hide ApplySeen, Apply, Text, SetOneCommand;
    TextHasNoNul(One(add, name));
    SeenAll(env, u, Text(One(add, name)));
    OneSeen(env, u, add, name);
  }

  lemma SubText(name: string, sub: string)
    requires ValidName(name)
    ensures var op, rest := Text(Sub(name, sub)), name + ("|" + sub);
            && op == "+" + rest && op[1..] == rest && rest[0] != '@'
            && Bar(rest) == |name| && rest[..|name|] == name && rest[|name| + 1..] == sub
  {
    BarAfter(name, "|" + sub);
  }

  lemma PlusText(rest: string)
    requires rest != "" && rest[0] != '@'
    ensures KeywordOf(Lower("+" + rest)).NotKeyword? && KeywordOf(Lower("-" + rest)).NotKeyword?
  {
    var plus, minus := "+" + rest, "-" + rest;
    assert plus[1] == rest[0] && minus[1] == rest[0];
    assert Lower(plus)[1] == LowerChar(rest[0]) != '@' && Lower(minus)[1] == LowerChar(rest[0]);
    PlusMinusKeywords(Lower(plus));
    PlusMinusKeywords(Lower(minus));
  }

  lemma SubSeen(env: Env, u: UserState, name: string, sub: string)
    requires ValidName(name)
    ensures ApplySeen(env, u, Text(Sub(name, sub))) == AddSubcommand(env.table, u, name, sub)
  {
    hide SetOneCommand, AddSubcommand, KeywordOf, Lower, Text, Bar, SetCategory;
    SubText(name, sub);
    PlusText(name + ("|" + sub));
  }

  lemma SubMeaning(env: Env, u: UserState, name: string, sub: string)
    requires ValidName(name) && NoNul(sub)
    ensures Apply(env, u, Text(Sub(name, sub))) == AddSubcommand(env.table, u, name, sub)
  {
    hide ApplySeen, Apply, Text, AddSubcommand;
    TextHasNoNul(Sub(name, sub));
    SeenAll(env, u, Text(Sub(name, sub)));
    SubSeen(env, u, name, sub);
  }

  /** Read back as text, a rule does to any user's permissions what it means, and it never fails. */
  lemma RuleMeaning(env: Env, u: UserState, r: Rule)
    requires ValidRule(env.table, r)
    ensures Apply(env, u, Text(r)).Done?
    ensures Apply(env, u, Text(r)).user.commands == ApplyRule(env.table, u.commands, r)
  {
    hide Apply, Text, WithCategory, Touches, KnownCategory, NoNul;
    match r {
      case All(add) => AllMeaning(env, u, add);
      case Category(add, name) => CategoryMeaning(env, u, add, name);
      case One(add, name) => OneMeaning(env, u, add, name);
      case Sub(name, sub) => SubMeaning(env, u, name, sub);
    }
  }

  /** The same for a list of rules. */
  lemma {:induction false} RulesMeaning(env: Env, u: UserState, rs: seq<Rule>)
    requires forall r :: r in rs ==> ValidRule(env.table, r)
    ensures ApplyAll(env, u, Texts(rs)).Done?
    ensures ApplyAll(env, u, Texts(rs)).user.commands == ApplyRules(env.table, u.commands, rs)
    decreases |rs|
  {
    hide Apply, ApplyRule, ValidRule, Text;
    if rs != [] {
      var before := rs[..|rs| - 1];
      RulesMeaning(env, u, before);
      assert Texts(rs)[..|rs| - 1] == Texts(before);
      RuleMeaning(env, ApplyAll(env, u, Texts(before)).user, rs[|rs| - 1]);
    }
  }

  /** Rules that start with +@all or -@all forget what they are applied to. */
  lemma {:induction false} RulesForget(t: Table, c: Commands, d: Commands, rs: seq<Rule>)
    requires rs != [] && rs[0].All?
    ensures ApplyRules(t, c, rs) == ApplyRules(t, d, rs)
    decreases |rs|
  {
    hide WithCategory, WithSub, WithBit;
    if |rs| == 1 {
      assert rs[..0] == [];
    } else {
      RulesForget(t, c, d, rs[..|rs| - 1]);
    }
  }

  // ---------------------------------------------------------------- the greedy search

  const INT_MAX: nat := 0x7fff_ffff

  /** How many commands of the category have their bit set to `v`. */
  function Count(t: Table, bits: seq<bool>, category: string, v: bool): nat {
    if t == [] then 0
    else
      var cmd := t[|t| - 1];
      Count(t[..|t| - 1], bits, category, v)
      + if InCategory(cmd, category) && (cmd.id < |bits| && bits[cmd.id]) == v then 1 else 0
  }

  /** ACLCountCategoryBitsForUser, for a category that exists. */
  method CountCategoryBits(t: Table, u: User, category: string) returns (on: nat, off: nat)
    requires u.Valid()
    ensures on == Count(t, u.allowedCommands[..], category, true)
    ensures off == Count(t, u.allowedCommands[..], category, false)
  {
    on, off := 0, 0;
    for i := 0 to |t|
      invariant on == Count(t[..i], u.allowedCommands[..], category, true)
      invariant off == Count(t[..i], u.allowedCommands[..], category, false)
    {
      assert t[..i + 1][..i] == t[..i];
      if InCategory(t[i], category) {
        if u.CommandBit(t[i].id) { on := on + 1; } else { off := off + 1; }
      }
    }
    assert t[..|t|] == t;
  }

  /** A category worth a rule: more of its commands want the change than not. */
  predicate Worth(t: Table, bits: seq<bool>, additive: bool, category: string) {
    Count(t, bits, category, additive) > Count(t, bits, category, !additive)
    && Count(t, bits, category, !additive) <= INT_MAX
  }

  /** `a` is at least as good as `b`: fewer commands against the change, or as many and no fewer for it. */
  predicate AsGood(t: Table, bits: seq<bool>, additive: bool, a: string, b: string) {
    var diffA, diffB := Count(t, bits, a, !additive), Count(t, bits, b, !additive);
    diffA < diffB || (diffA == diffB && Count(t, bits, a, additive) >= Count(t, bits, b, additive))
  }

  /** One round of the search: the best category not applied yet, or -1 if none is worth a rule. */
  method BestCategory(t: Table, temp: User, cats: seq<string>, applied: seq<bool>, additive: bool) returns (best: int)
    requires temp.Valid() && |applied| == |cats|
    ensures -1 <= best < |cats|
    ensures best >= 0 ==> !applied[best] && Worth(t, temp.allowedCommands[..], additive, cats[best])
    ensures forall j :: 0 <= j < |cats| && !applied[j] && Worth(t, temp.allowedCommands[..], additive, cats[j]) ==>
              best >= 0 && AsGood(t, temp.allowedCommands[..], additive, cats[best], cats[j])
  {
    best := -1;
    var mindiff: nat, maxsame: nat := INT_MAX, 0;
    ghost var bits := temp.allowedCommands[..];
    for j := 0 to |cats|
      invariant -1 <= best < j
      invariant if best < 0 then mindiff == INT_MAX && maxsame == 0
                else !applied[best] && Worth(t, bits, additive, cats[best])
                     && mindiff == Count(t, bits, cats[best], !additive)
                     && maxsame == Count(t, bits, cats[best], additive)
      invariant forall i :: 0 <= i < j && !applied[i] && Worth(t, bits, additive, cats[i]) ==>
                  best >= 0 && AsGood(t, bits, additive, cats[best], cats[i])
    {
      if applied[j] { continue; }
      var on, off := CountCategoryBits(t, temp, cats[j]);
      var diff := if additive then off else on;
      var same := if additive then on else off;
      if same > diff && (diff < mindiff || (diff == mindiff && same > maxsame)) {
        best, mindiff, maxsame := j, diff, same;
      }
    }
  }

  // ---------------------------------------------------------------- describing a user

  const NoCommands := Commands(AllBits(false), map[])

  ghost predicate ValidRules(t: Table, rs: seq<Rule>) {
    forall r :: r in rs ==> ValidRule(t, r)
  }

  /** The rules so far, as text and as what they stand for, build the fake user. */
  ghost predicate Builds(t: Table, rules: seq<string>, rs: seq<Rule>, built: Commands) {
    && rules == Texts(rs) && rs != [] && rs[0].All? && ValidRules(t, rs)
    && ApplyRules(t, NoCommands, rs) == built
  }

  /** Outside the table, a bitmap is `v` all over. */
  ghost predicate OutsideIs(t: Table, bits: seq<bool>, v: bool) {
    |bits| == COMMAND_BITS && forall id: nat :: id < COMMAND_BITS && id !in Ids(t) ==> bits[id] == v
  }

  lemma BuildsSnoc(t: Table, rules: seq<string>, rs: seq<Rule>, built: Commands, r: Rule)
    requires Builds(t, rules, rs, built) && ValidRule(t, r)
    ensures Builds(t, rules + [Text(r)], rs + [r], ApplyRule(t, built, r))
  {
    hide ApplyRule, Text, ValidRule;
    assert (rs + [r])[..|rs|] == rs;
    assert Texts(rs + [r]) == Texts(rs) + [Text(r)];
    assert forall x :: x in rs + [r] ==> x in rs || x == r;
  }

  lemma CategoryStaysInside(t: Table, c: Commands, category: string, v: bool, w: bool)
    requires OutsideIs(t, c.bits, w) && c.subs == map[]
    ensures OutsideIs(t, WithCategory(t, c, category, v).bits, w) && WithCategory(t, c, category, v).subs == map[]
  {
    hide WithCategory, Touches;
    forall id: nat
      ensures id < COMMAND_BITS && id !in Ids(t) ==>
                |WithCategory(t, c, category, v).bits| == COMMAND_BITS && WithCategory(t, c, category, v).bits[id] == w
      ensures id !in WithCategory(t, c, category, v).subs
    {
      CategoryEffect(t, c, category, v, id);
    }
    CategoryEffect(t, c, category, v, 0);
  }

  /** One category goes into the rules, onto the fake user and off the temporary one. */
  method CategoryRound(env: Env, fake: User, temp: User, additive: bool, name: string, rules: seq<string>,
                       ghost rs: seq<Rule>, ghost outside: bool)
    returns (rules': seq<string>, ghost rs': seq<Rule>)
    requires fake.Valid() && temp.Valid() && fake != temp && fake.allowedCommands != temp.allowedCommands
    requires ValidTable(env.table) && name in CATEGORIES
    requires Builds(env.table, rules, rs, fake.Cmds()) && (forall r :: r in rs ==> !r.Sub?)
    requires OutsideIs(env.table, fake.allowedCommands[..], outside) && fake.allowedSubcommands == map[]
    modifies fake, temp, fake.allowedCommands, temp.allowedCommands
    ensures Builds(env.table, rules', rs', fake.Cmds()) && (forall r :: r in rs' ==> !r.Sub?)
    ensures OutsideIs(env.table, fake.allowedCommands[..], outside) && fake.allowedSubcommands == map[]
    ensures temp.Cmds() == WithCategory(env.table, old(temp.Cmds()), name, !additive)
  {
    hide ValidTable, Apply, WithCategory, ValidRule, Builds, OutsideIs, Text, KnownCategory, Touches;
    var rule := Category(additive, name);
    CategoryIsValid(env.table, rule);
    CategoryMeaning(env, fake.State(), additive, name);
    CategoryMeaning(env, temp.State(), !additive, name);
    CategoryStaysInside(env.table, fake.Cmds(), name, additive, outside);
    BuildsSnoc(env.table, rules, rs, fake.Cmds(), rule);
    var op := Text(rule);
    var failed := fake.SetUser(env, op);
    var invop := Text(Category(!additive, name));
    failed := temp.SetUser(env, invop);
    rules', rs' := rules + [op], rs + [rule];
    assert forall r :: r in rs' ==> r in rs || r == rule;
  }

  /** The search: +@all or -@all as the reserved bit says, then the best category each round. */
  method CategoryRules(env: Env, u: User, cats: seq<string>)
    returns (fake: User, rules: seq<string>, ghost rs: seq<Rule>)
    requires u.Valid() && ValidTable(env.table) && forall c :: c in cats ==> c in CATEGORIES
    ensures fake.Valid() && fresh(fake) && fresh(fake.allowedCommands)
    ensures Builds(env.table, rules, rs, fake.Cmds()) && (forall r :: r in rs ==> !r.Sub?)
    ensures OutsideIs(env.table, fake.allowedCommands[..], u.allowedCommands[FUTURE_COMMANDS])
    ensures fake.allowedSubcommands == map[]
  {
    hide ValidTable, Apply, WithCategory, Builds, Text;
    var t, future := env.table, u.CommandBit(FUTURE_COMMANDS);
    var additive := !future;
    fake := new User.Zeroed();
    rules, rs := [Text(All(future))], [All(future)];
    AllMeaning(env, fake.State(), future);
    BuildsFirst(t, future);
    var failed := fake.SetUser(env, rules[0]);

    var temp := new User.Zeroed();
    forall i | 0 <= i < COMMAND_BITS { temp.allowedCommands[i] := u.allowedCommands[i]; }
    var applied := seq(|cats|, _ => false);
    ghost var left := Unset(applied);
    while true
      invariant |applied| == |cats| && left == Unset(applied)
      invariant fake.Valid() && temp.Valid() && fresh(fake) && fresh(temp) && fake != temp
      invariant fresh(fake.allowedCommands) && fresh(temp.allowedCommands)
                && fake.allowedCommands != temp.allowedCommands
      invariant Builds(t, rules, rs, fake.Cmds()) && (forall r :: r in rs ==> !r.Sub?)
      invariant OutsideIs(t, fake.allowedCommands[..], future)
      invariant fake.allowedSubcommands == map[]
      decreases left
    {
      hide OutsideIs, Unset;
      var best := BestCategory(t, temp, cats, applied, additive);
      if best == -1 { break; }
      rules, rs := CategoryRound(env, fake, temp, additive, cats[best], rules, rs, future);
      UnsetLess(applied, best);
      applied := applied[best := true];
      left := left - 1;
    }
  }

  lemma BuildsFirst(t: Table, add: bool)
    ensures Builds(t, [Text(All(add))], [All(add)], Commands(AllBits(add), map[]))
  {
    hide Text;
    var rs := [All(add)];
    assert rs[..0] == [];
  }

  function Unset(applied: seq<bool>): nat {
    if applied == [] then 0 else Unset(applied[..|applied| - 1]) + if applied[|applied| - 1] then 0 else 1
  }

  lemma {:induction false} UnsetLess(applied: seq<bool>, i: nat)
    requires i < |applied| && !applied[i]
    ensures Unset(applied[i := true]) == Unset(applied) - 1
    decreases |applied|
  {
    var n := |applied| - 1;
    if i == n {
      assert applied[i := true][..n] == applied[..n];
    } else {
      assert applied[i := true][..n] == applied[..n][i := true];
      UnsetLess(applied[..n], i);
    }
  }

  lemma CategoryIsValid(t: Table, r: Rule)
    requires r.Category? && r.name in CATEGORIES
    ensures ValidRule(t, r)
  {
  }
}
