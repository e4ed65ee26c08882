// ACLDescribeUserCommandRules as a whole, and the round trip: its rules, applied to any user,
// rebuild the permissions they were printed from.
module AclRoundTrip {
  import opened AclTable
  import opened AclRules
  import opened AclUser
  import opened AclDescribe

  /** The subcommand lists of the commands of `t`. */
  ghost function SubsWithin(subs: map<nat, seq<string>>, t: Table): map<nat, seq<string>> {
    map id | id in subs && id in Ids(t) :: subs[id]
  }

  /** Every subcommand that a rule grants is in some list of `subs`. */
  ghost predicate SubsFrom(rs: seq<Rule>, subs: map<nat, seq<string>>) {
    forall r :: r in rs && r.Sub? ==> exists id :: id in subs && r.sub in subs[id]
  }

  lemma SubsFromSnoc(rs: seq<Rule>, r: Rule, subs: map<nat, seq<string>>, id: nat)
    requires SubsFrom(rs, subs) && (r.Sub? ==> id in subs && r.sub in subs[id])
    ensures SubsFrom(rs + [r], subs)
  {
    assert forall x :: x in rs + [r] ==> x in rs || x == r;
  }

  lemma IdsSnoc(t: Table, p: nat)
    requires ValidTable(t) && p < |t|
    ensures Ids(t[..p + 1]) == Ids(t[..p]) + {t[p].id}
    ensures t[p].id !in Ids(t[..p]) && t[p].id < FUTURE_COMMANDS
  {
    assert ValidCommand(t[p]);
    forall id | id in Ids(t[..p]) + {t[p].id} ensures id in Ids(t[..p + 1]) {
      if id == t[p].id {
        assert t[..p + 1][p].id == id;
      } else {
        var i :| 0 <= i < p && t[..p][i].id == id;
        assert t[..p + 1][i].id == id;
      }
    }
    forall id | id in Ids(t[..p + 1]) ensures id in Ids(t[..p]) + {t[p].id} {
      var i :| 0 <= i < p + 1 && t[..p + 1][i].id == id;
      if i < p { assert t[..p][i].id == id; }
    }
  }

  /** One subcommand more of a list without repetitions. */
  lemma SubRule(t: Table, p: nat, c: Commands, list: seq<string>, j: nat)
    requires ValidTable(t) && p < |t| && j < |list| && GoodSubs(list)
    requires |c.bits| == COMMAND_BITS && t[p].id < COMMAND_BITS && !c.bits[t[p].id]
    requires SubsOf(c, t[p].id) == list[..j]
    ensures ValidRule(t, Sub(t[p].name, list[j]))
    ensures ApplyRule(t, c, Sub(t[p].name, list[j])) == c.(subs := c.subs[t[p].id := list[..j + 1]])
  {
    LookupFinds(t, p);
    assert ValidCommand(t[p]);
    assert list[..j] + [list[j]] == list[..j + 1];
    assert forall i :: 0 <= i < j ==> list[..j][i] == list[i];
  }

  lemma OneRule(t: Table, p: nat, c: Commands, v: bool)
    requires ValidTable(t) && p < |t| && |c.bits| == COMMAND_BITS && t[p].id < COMMAND_BITS && t[p].id !in c.subs
    ensures ValidRule(t, One(v, t[p].name))
    ensures ApplyRule(t, c, One(v, t[p].name)) == c.(bits := c.bits[t[p].id := v])
  {
    LookupFinds(t, p);
    assert ValidCommand(t[p]);
    assert c.subs - {t[p].id} == c.subs;
  }

  /** The rules for one command's subcommands, behind those that built `c`. */
  method EmitSubcommands(t: Table, p: nat, subs: map<nat, seq<string>>, rules: seq<string>, ghost rs: seq<Rule>,
                         ghost c: Commands)
    returns (rules': seq<string>, ghost rs': seq<Rule>, ghost c': Commands)
    requires ValidTable(t) && p < |t| && t[p].id in subs && GoodSubs(subs[t[p].id])
    requires Builds(t, rules, rs, c) && SubsFrom(rs, subs)
    requires |c.bits| == COMMAND_BITS && t[p].id < COMMAND_BITS && !c.bits[t[p].id] && t[p].id !in c.subs
    ensures Builds(t, rules', rs', c') && SubsFrom(rs', subs)
    ensures c' == c.(subs := c.subs[t[p].id := subs[t[p].id]])
  {
    hide ValidTable, GoodSubs, Builds, ApplyRule, ValidRule, Text, SubsFrom;
    var id := t[p].id;
    var list := subs[id];
    rules', rs', c' := rules, rs, c;
    for j := 0 to |list|
      invariant Builds(t, rules', rs', c') && SubsFrom(rs', subs)
      invariant c' == if j == 0 then c else c.(subs := c.subs[id := list[..j]])
    {
      SubRule(t, p, c', list, j);
      BuildsSnoc(t, rules', rs', c', Sub(t[p].name, list[j]));
      SubsFromSnoc(rs', Sub(t[p].name, list[j]), subs, id);
      rules' := rules' + ["+" + t[p].name + "|" + list[j]];
      rs', c' := rs' + [Sub(t[p].name, list[j])], ApplyRule(t, c', Sub(t[p].name, list[j]));
      SubTextIs(t[p].name, list[j]);
    }
    assert list[..|list|] == list;
    GoodSubsNotEmpty(list);
  }

  lemma SubTextIs(name: string, sub: string)
    ensures Text(Sub(name, sub)) == "+" + name + "|" + sub
  {
  }

  lemma GoodSubsNotEmpty(list: seq<string>)
    requires GoodSubs(list)
    ensures list != []
  {
  }

  /** What the rules have rebuilt once the first `p` commands of the table are done. */
  ghost predicate Rebuilt(t: Table, u: Commands, p: nat, bits: seq<bool>, c: Commands)
    requires p <= |t| && |u.bits| == COMMAND_BITS
  {
    && c.bits == bits
    && OutsideIs(t, bits, u.bits[FUTURE_COMMANDS])
    && (forall id: nat :: id < COMMAND_BITS && id in Ids(t[..p]) ==> bits[id] == u.bits[id])
    && c.subs == SubsWithin(u.subs, t[..p])
  }

  /** The bit and then the subcommands of the `p`-th command. */
  lemma RebuiltNext(t: Table, u: Commands, p: nat, bits: seq<bool>, c: Commands, bits': seq<bool>, c': Commands)
    requires ValidTable(t) && p < |t| && |u.bits| == COMMAND_BITS && SubsFine(u) && t[p].id < COMMAND_BITS
    requires Rebuilt(t, u, p, bits, c)
    requires bits' == bits[t[p].id := u.bits[t[p].id]]
    requires c' == Commands(bits', if t[p].id in u.subs then c.subs[t[p].id := u.subs[t[p].id]] else c.subs)
    ensures Rebuilt(t, u, p + 1, bits', c')
  {
    hide ValidTable, GoodSubs;
    IdsSnoc(t, p);
    assert t[p].id in Ids(t);
  }

  /** One command of the final pass over the table. */
  method FixCommand(t: Table, u: User, fake: User, p: nat, rules: seq<string>, ghost rs: seq<Rule>, ghost c: Commands)
    returns (rules': seq<string>, ghost rs': seq<Rule>, ghost c': Commands)
    requires ValidTable(t) && p < |t| && u.Valid() && fake.Valid() && SubsFine(u.Cmds())
    requires u != fake && u.allowedCommands != fake.allowedCommands
    requires Builds(t, rules, rs, c) && Rebuilt(t, u.Cmds(), p, fake.allowedCommands[..], c)
    requires SubsFrom(rs, u.allowedSubcommands)
    modifies fake, fake.allowedCommands
    ensures Builds(t, rules', rs', c') && Rebuilt(t, u.Cmds(), p + 1, fake.allowedCommands[..], c')
    ensures SubsFrom(rs', u.allowedSubcommands)
  {
    hide ValidTable, GoodSubs, Builds, ApplyRule, ValidRule, Text, Rebuilt, SubsFrom;
    var cmd := t[p];
    RebuiltMeans(t, u.Cmds(), p, fake.allowedCommands[..], c);
    rules', rs', c' := rules, rs, c;
    var userBit, fakeBit := u.CommandBit(cmd.id), fake.CommandBit(cmd.id);
    if userBit != fakeBit {
      OneRule(t, p, c, userBit);
      OneTextIs(userBit, cmd.name);
      BuildsSnoc(t, rules, rs, c, One(userBit, cmd.name));
      SubsFromSnoc(rs, One(userBit, cmd.name), u.allowedSubcommands, 0);
      rules' := rules' + [(if userBit then "+" else "-") + cmd.name];
      rs', c' := rs' + [One(userBit, cmd.name)], ApplyRule(t, c, One(userBit, cmd.name));
      fake.SetCommandBit(cmd.id, userBit);
    }
    assert c'.bits == fake.allowedCommands[..] == old(fake.allowedCommands[..])[cmd.id := userBit];
    if !userBit && cmd.id in u.allowedSubcommands {
      rules', rs', c' := EmitSubcommands(t, p, u.allowedSubcommands, rules', rs', c');
    }
    RebuiltNext(t, u.Cmds(), p, old(fake.allowedCommands[..]), c, fake.allowedCommands[..], c');
  }

  lemma RebuiltMeans(t: Table, u: Commands, p: nat, bits: seq<bool>, c: Commands)
    requires ValidTable(t) && p < |t| && |u.bits| == COMMAND_BITS && Rebuilt(t, u, p, bits, c)
    ensures c.bits == bits && |bits| == COMMAND_BITS && t[p].id < COMMAND_BITS && t[p].id !in c.subs
  {
    IdsSnoc(t, p);
  }

  lemma OneTextIs(add: bool, name: string)
    ensures Text(One(add, name)) == (if add then "+" else "-") + name
  {
  }

  /** ACLDescribeUserCommandRules. It panics exactly when some bit that stands for no command of
      the table differs from the reserved one; otherwise its rules rebuild the bitmap, and the
      subcommands of the table's commands, whoever they are applied to. */
  method DescribeUserCommandRules(env: Env, u: User) returns (panicked: bool, rules: seq<string>, ghost rs: seq<Rule>)
    requires u.Valid() && ValidTable(env.table) && SubsFine(u.Cmds())
    ensures panicked <==> !Uniform(env.table, u.allowedCommands[..])
    ensures !panicked ==>
            Builds(env.table, rules, rs, Commands(u.allowedCommands[..], SubsWithin(u.allowedSubcommands, env.table)))
    ensures SubsFrom(rs, u.allowedSubcommands)
  {
    hide ValidTable, Builds, Rebuilt, SubsFine, OutsideIs;
    var t := env.table;
    var fake;
    fake, rules, rs := CategoryRules(env, u, CATEGORIES);
    ghost var c := fake.Cmds();
    RebuiltFirst(t, u.Cmds(), c);
    for p := 0 to |t|
      invariant fake.Valid() && fresh(fake) && fresh(fake.allowedCommands)
      invariant Builds(t, rules, rs, c) && Rebuilt(t, u.Cmds(), p, fake.allowedCommands[..], c)
      invariant SubsFrom(rs, u.allowedSubcommands)
    {
      rules, rs, c := FixCommand(t, u, fake, p, rules, rs, c);
    }
    RebuiltLast(t, u.Cmds(), fake.allowedCommands[..], c);
    panicked := exists i :: 0 <= i < COMMAND_BITS && fake.allowedCommands[i] != u.allowedCommands[i]; // memcmp
    if !panicked {
      assert fake.allowedCommands[..] == u.allowedCommands[..];
    } else {
      assert fake.allowedCommands[..] != u.allowedCommands[..];
    }
  }

  lemma RebuiltFirst(t: Table, u: Commands, c: Commands)
    requires |u.bits| == COMMAND_BITS && OutsideIs(t, c.bits, u.bits[FUTURE_COMMANDS]) && c.subs == map[]
    ensures Rebuilt(t, u, 0, c.bits, c)
  {
  }

  lemma RebuiltLast(t: Table, u: Commands, bits: seq<bool>, c: Commands)
    requires |u.bits| == COMMAND_BITS && Rebuilt(t, u, |t|, bits, c)
    ensures |bits| == COMMAND_BITS && c == Commands(bits, SubsWithin(u.subs, t))
    ensures bits == u.bits <==> Uniform(t, u.bits)
  {
    assert t[..|t|] == t;
  }

  // ---------------------------------------------------------------- main results

  /** Rules that build some permissions rebuild them on any user. */
  lemma RulesRebuild(env: Env, rules: seq<string>, rs: seq<Rule>, c: Commands, anyone: UserState)
    requires Builds(env.table, rules, rs, c)
    ensures ApplyAll(env, anyone, rules).Done? && ApplyAll(env, anyone, rules).user.commands == c
  {
    hide ValidRule, ApplyRules, ApplyAll;
    RulesMeaning(env, anyone, rs);
    RulesForget(env.table, anyone.commands, NoCommands, rs);
  }

  /** The round trip. For every user that rules can make over a fixed table, whatever was done to
      it, describing never panics, the printed rules never fail on any other user, and they give
      that user the same bitmap and subcommand lists. */
  method DescribeRoundTrip(env: Env, u: User, ghost history: seq<string>, ghost anyone: UserState)
    returns (panicked: bool, rules: seq<string>)
    requires u.Valid() && ValidTable(env.table)
    requires ApplyAll(env, NewUser(env), history) == Done(u.State())
    ensures !panicked
    ensures ApplyAll(env, anyone, rules).Done? && ApplyAll(env, anyone, rules).user.commands == u.Cmds()
  {
    hide ValidTable, ApplyAll, Builds, GoodSubs;
    ReachableSound(env, history);
    ghost var rs;
    panicked, rules, rs := DescribeUserCommandRules(env, u);
    assert SubsWithin(u.allowedSubcommands, env.table) == u.allowedSubcommands;
    RulesRebuild(env, rules, rs, u.Cmds(), anyone);
  }

  /** Users with equal bitmaps and subcommands may run the same commands, whatever their other
      flags say: the ALLCOMMANDS flag implies a full bitmap. */
  lemma SameCommandsSameVerdicts(t: Table, u: UserState, v: UserState, cmd: Command, argv: seq<string>)
    requires Sound(t, u) && Sound(t, v) && u.commands == v.commands && cmd.id < COMMAND_BITS
    ensures MayRun(u, cmd, argv) <==> MayRun(v, cmd, argv)
  {
  }

  /** So the user rebuilt from the printed rules gets the same verdict for every command. */
  lemma SameVerdictsAfterRoundTrip(env: Env, history: seq<string>, history': seq<string>, rules: seq<string>, i: nat,
                                   argv: seq<string>)
    requires ValidTable(env.table) && i < |env.table|
    requires ApplyAll(env, NewUser(env), history).Done? && ApplyAll(env, NewUser(env), history').Done?
    requires ApplyAll(env, ApplyAll(env, NewUser(env), history').user, rules).Done?
    requires ApplyAll(env, ApplyAll(env, NewUser(env), history').user, rules).user.commands
             == ApplyAll(env, NewUser(env), history).user.commands
    ensures MayRun(ApplyAll(env, NewUser(env), history).user, env.table[i], argv)
            <==> MayRun(ApplyAll(env, ApplyAll(env, NewUser(env), history').user, rules).user, env.table[i], argv)
  {
    hide Apply, ApplyAll, MayRun, WellFormed;
    ReachableSound(env, history);
    ReachableSound(env, history');
    AllKeepsSound(env, ApplyAll(env, NewUser(env), history').user, rules);
    assert ValidCommand(env.table[i]);
    SameCommandsSameVerdicts(env.table, ApplyAll(env, NewUser(env), history).user,
                             ApplyAll(env, ApplyAll(env, NewUser(env), history').user, rules).user, env.table[i], argv);
  }

  lemma {:induction false} AllKeepsSound(env: Env, u: UserState, ops: seq<string>)
    requires ValidTable(env.table) && Sound(env.table, u) && ApplyAll(env, u, ops).Done?
    ensures Sound(env.table, ApplyAll(env, u, ops).user)
    decreases |ops|
  {
    hide Apply, Sound;
    if ops != [] {
      AllKeepsSound(env, u, ops[..|ops| - 1]);
      ApplyKeepsSound(env, ApplyAll(env, u, ops[..|ops| - 1]).user, ops[|ops| - 1]);
    }
  }
}
