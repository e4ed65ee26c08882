// ACL LOAD: every line of the file is tried on a fake user before it is applied to a real one,
// and either the whole file is installed or nothing changes.
module AclLoad {
  import opened AclTable
  import opened AclRules
  import opened AclUser
  import opened AclText
  import opened AclRoundTrip

  // ---------------------------------------------------------------- lines

  datatype LineError = NotAUser | BadUsername | BadRule(errno: Errno)

  /** sdstrim: drops the characters of `cset` from both ends. */
  function Trim(s: string, cset: string): string
    decreases |s|
  {
    if s != "" && s[0] in cset then Trim(s[1..], cset)
    else if s != "" && s[|s| - 1] in cset then Trim(s[..|s| - 1], cset)
    else s
  }

  function TrimAll(words: seq<string>): seq<string> {
    seq(|words|, i requires 0 <= i < |words| => Trim(words[i], "\t\r\n"))
  }

  // A line, split into its words: to be skipped, wrong, or rules for a user.
  datatype Line = Blank | Wrong(error: LineError) | Rules(name: string, ops: seq<string>)

  function ParseLine(raw: string): Line {
    var line := Trim(raw, " \t\r\n");
    if line == "" then Blank
    else
      var argv := Split(line, ' ');
      if argv[0] != "user" || |argv| < 2 then Wrong(NotAUser)
      else if HasSpaces(argv[1]) then Wrong(BadUsername)
      else Rules(argv[1], TrimAll(argv[2..]))
  }

  /** The whole file, split at its newlines. */
  function FileLines(acls: string): seq<string> {
    if acls == "" then [] else Split(acls, '\n')
  }

  /** The errors of applying rules to a user, going on after each failure. */
  function RuleErrors(env: Env, u: UserState, ops: seq<string>): seq<LineError>
    decreases |ops|
  {
    if ops == [] then []
    else match Apply(env, u, ops[0])
         case Failed(e) => [BadRule(e)] + RuleErrors(env, u, ops[1..])
         case Done(v) => RuleErrors(env, v, ops[1..])
  }

  /** What is wrong with one line. */
  function LineErrors(env: Env, raw: string): seq<LineError> {
    match ParseLine(raw)
    case Blank => []
    case Wrong(e) => [e]
    case Rules(_, ops) => RuleErrors(env, AfterReset(env), ops)
  }

  function FileErrors(env: Env, lines: seq<string>): seq<LineError> {
    if lines == [] then [] else FileErrors(env, lines[..|lines| - 1]) + LineErrors(env, lines[|lines| - 1])
  }

  /** Whatever a user was, "reset" makes it this. */
  function AfterReset(env: Env): UserState {
    UserState({Disabled, SanitizePayload} + (if env.pubsubAllChannels then {AllChannels} else {}),
              Commands(AllBits(false), map[]), [], [], [])
  }

  lemma ResetIsAfterReset(env: Env, u: UserState)
    ensures Reset(env, u) == AfterReset(env)
  {
    var r := Reset(env, u);
    forall f: Flag ensures f in r.flags <==> f in AfterReset(env).flags {
      match f { case Enabled => case Disabled => case AllKeys => case AllCommands => case NoPass =>
                case AllChannels => case SanitizePayload => case SanitizePayloadSkip => }
    }
  }

  // ---------------------------------------------------------------- what a good file installs

  const DEFAULT := "default"

  function DefaultState(env: Env): UserState {
    var u := ApplyKeyword(ApplyKeyword(ApplyKeyword(NewUser(env), AnyCommand), AnyKey), AnyChannel);
    ApplyKeyword(ApplyKeyword(u, On), AnyPass)
  }

  /** The users after some lines: a line for a user not seen yet starts from a new user, one for
      a user seen before from a reset one. */
  function Installed(env: Env, lines: seq<string>): map<string, UserState> {
    if lines == [] then map[DEFAULT := DefaultState(env)]
    else WithLine(env, Installed(env, lines[..|lines| - 1]), lines[|lines| - 1])
  }

  function WithLine(env: Env, before: map<string, UserState>, raw: string): map<string, UserState> {
    match ParseLine(raw)
    case Rules(name, ops) =>
      (match ApplyAll(env, if name in before then Reset(env, before[name]) else NewUser(env), ops)
       case Done(u) => before[name := u]
       case Failed(_) => before)
    case _ => before
  }

  /** Every user that lines install has the invariants of users made by rules. */
  lemma {:induction false} InstalledSound(env: Env, lines: seq<string>, n: string)
    requires ValidTable(env.table) && n in Installed(env, lines)
    ensures Sound(env.table, Installed(env, lines)[n])
    decreases |lines|
  {
    hide ParseLine, Apply, ApplyAll, WellFormed, Reset, NewUser, DefaultState, ValidTable;
    if lines == [] {
      DefaultIsSound(env);
    } else {
      var before := Installed(env, lines[..|lines| - 1]);
      if n in before { InstalledSound(env, lines[..|lines| - 1], n); }
      var line := ParseLine(lines[|lines| - 1]);
      if line.Rules? && line.name == n {
        var start := if n in before then Reset(env, before[n]) else NewUser(env);
        if n in before { ResetIsSound(env, before[n]); } else { NewUserSound(env); }
        if ApplyAll(env, start, line.ops).Done? { AllKeepsSound(env, start, line.ops); }
      }
    }
  }

  // ---------------------------------------------------------------- the two runs agree

  /** All that decides whether a rule fails. */
  predicate Alike(u: UserState, v: UserState) {
    u.passwords == v.passwords && (AllKeys in u.flags <==> AllKeys in v.flags)
    && (AllChannels in u.flags <==> AllChannels in v.flags)
  }

  lemma KeywordAlike(u: UserState, v: UserState, k: Keyword)
    requires Alike(u, v)
    ensures Alike(ApplyKeyword(u, k), ApplyKeyword(v, k))
  {
  }

  /** Alike users fail on the same rules, with the same error, and stay alike on the others. */
  lemma ApplyAlike(env: Env, u: UserState, v: UserState, op: string)
    requires Alike(u, v)
    ensures Apply(env, u, op).Done? <==> Apply(env, v, op).Done?
    ensures Apply(env, u, op).Done? ==> Alike(Apply(env, u, op).user, Apply(env, v, op).user)
    ensures Apply(env, u, op).Failed? ==> Apply(env, v, op) == Apply(env, u, op)
  {
    hide ApplySeen, KeywordOf, Alike;
    SeenAlike(env, u, v, Seen(op));
  }

  lemma SeenAlike(env: Env, u: UserState, v: UserState, op: string)
    requires Alike(u, v)
    ensures ApplySeen(env, u, op).Done? <==> ApplySeen(env, v, op).Done?
    ensures ApplySeen(env, u, op).Done? ==> Alike(ApplySeen(env, u, op).user, ApplySeen(env, v, op).user)
    ensures ApplySeen(env, u, op).Failed? ==> ApplySeen(env, v, op) == ApplySeen(env, u, op)
  {
    hide KeywordOf, WithCategory, Touches, KnownCategory, HasSpaces, ValidHash, Bar, Removed, AddedSub;
    hide ApplyKeyword, Reset, Lower;
    if op != "" && KeywordOf(Lower(op)).Is? { KeywordAlike(u, v, KeywordOf(Lower(op)).keyword); }
    ResetIsAfterReset(env, u);
    ResetIsAfterReset(env, v);
  }

  /** Rules without errors on one user all succeed on any user like it. */
  lemma {:induction false} NoErrorsNoFailure(env: Env, u: UserState, v: UserState, ops: seq<string>)
    requires Alike(u, v) && RuleErrors(env, u, ops) == []
    ensures ApplyFrom(env, v, ops).Done?
    decreases |ops|
  {
    hide Apply;
    if ops != [] {
      ApplyAlike(env, u, v, ops[0]);
      NoErrorsNoFailure(env, Apply(env, u, ops[0]).user, Apply(env, v, ops[0]).user, ops[1..]);
    }
  }

  /** ApplyAll, first rule first. */
  function ApplyFrom(env: Env, u: UserState, ops: seq<string>): Outcome
    decreases |ops|
  {
    if ops == [] then Done(u)
    else match Apply(env, u, ops[0])
         case Failed(e) => Failed(e)
         case Done(v) => ApplyFrom(env, v, ops[1..])
  }

  lemma {:induction false} ApplyFromSnoc(env: Env, u: UserState, ops: seq<string>, op: string)
    ensures var r := ApplyFrom(env, u, ops);
            ApplyFrom(env, u, ops + [op]) == if r.Failed? then r else Apply(env, r.user, op)
    decreases |ops|
  {
    hide Apply;
    if ops == [] {
      assert ([] + [op])[1..] == [];
    } else {
      assert (ops + [op])[1..] == ops[1..] + [op];
      if Apply(env, u, ops[0]).Done? { ApplyFromSnoc(env, Apply(env, u, ops[0]).user, ops[1..], op); }
    }
  }

  lemma {:induction false} ApplyFromIsAll(env: Env, u: UserState, ops: seq<string>)
    ensures ApplyFrom(env, u, ops) == ApplyAll(env, u, ops)
    decreases |ops|
  {
    hide Apply;
    if ops != [] {
      var before := ops[..|ops| - 1];
      assert ops == before + [ops[|ops| - 1]];
      ApplyFromIsAll(env, u, before);
      ApplyFromSnoc(env, u, before, ops[|ops| - 1]);
    }
  }

  /** The server's assertion: rules that all succeed on the reset fake user all succeed on the
      real one, new or reset. */
  lemma FakeRunPredictsRealRun(env: Env, ops: seq<string>, existing: UserState)
    requires RuleErrors(env, AfterReset(env), ops) == []
    ensures ApplyAll(env, NewUser(env), ops).Done?
    ensures ApplyAll(env, Reset(env, existing), ops).Done?
  {
    hide Apply, Reset;
    ResetIsAfterReset(env, existing);
    NoErrorsNoFailure(env, AfterReset(env), NewUser(env), ops);
    NoErrorsNoFailure(env, AfterReset(env), AfterReset(env), ops);
    ApplyFromIsAll(env, NewUser(env), ops);
    ApplyFromIsAll(env, AfterReset(env), ops);
  }

  // ---------------------------------------------------------------- loading

  /** The rules of one line, on the fake user. */
  method TryLine(env: Env, fake: User, ops: seq<string>) returns (errors: seq<LineError>)
    requires fake.Valid() && ValidTable(env.table)
    modifies fake, fake.allowedCommands
    ensures errors == RuleErrors(env, AfterReset(env), ops)
  {
    hide Apply, Reset, KeywordOf, ValidTable, RuleErrors, AfterReset, WellFormed;
    ResetIsAfterReset(env, fake.State());
    ResetRule(env, fake.State());
    var failed := fake.SetUser(env, "reset");
    errors := [];
    for j := 0 to |ops|
      invariant errors + RuleErrors(env, fake.State(), ops[j..]) == RuleErrors(env, AfterReset(env), ops)
    {
      NextRuleErrors(env, fake.State(), ops, j, errors);
      failed := fake.SetUser(env, ops[j]);
      if failed.Error? { errors := errors + [BadRule(failed.errno)]; }
    }
    NoMoreRules(env, fake.State(), ops);
    assert errors + [] == errors;
  }

  lemma NextRuleErrors(env: Env, u: UserState, ops: seq<string>, j: nat, errors: seq<LineError>)
    requires j < |ops|
    ensures var r := Apply(env, u, ops[j]);
            errors + RuleErrors(env, u, ops[j..]) ==
            if r.Failed? then errors + [BadRule(r.errno)] + RuleErrors(env, u, ops[j + 1..])
            else errors + RuleErrors(env, r.user, ops[j + 1..])
  {
    hide Apply;
    assert ops[j..][0] == ops[j] && ops[j..][1..] == ops[j + 1..];
  }

  lemma NoMoreRules(env: Env, u: UserState, ops: seq<string>)
    ensures ops[0..] == ops && RuleErrors(env, u, ops[|ops|..]) == []
  {
    assert ops[|ops|..] == [];
  }

  lemma ResetRule(env: Env, u: UserState)
    ensures Apply(env, u, "reset") == Done(Reset(env, u))
  {
    hide ApplySeen, Reset;
    SeenAll(env, u, "reset");
    ResetSeen(env, u);
  }

  lemma ResetSeen(env: Env, u: UserState)
    ensures ApplySeen(env, u, "reset") == Done(Reset(env, u))
  {
    assert Lower("reset") == "reset";
  }

  /** The rules of one line, on the real user; none of them fails. */
  method ApplyLine(env: Env, u: User, ops: seq<string>)
    requires u.Valid() && ValidTable(env.table)
    requires ApplyAll(env, u.State(), ops).Done?
    modifies u, u.allowedCommands
    ensures u.State() == ApplyAll(env, old(u.State()), ops).user
  {
    hide Apply, ValidTable;
    for j := 0 to |ops|
      invariant ApplyAll(env, old(u.State()), ops[..j]) == Done(u.State())
    {
      assert ops[..j + 1][..j] == ops[..j];
      PrefixSucceeds(env, old(u.State()), ops, j + 1);
      var failed := u.SetUser(env, ops[j]);
      assert failed == NoError; // the serverAssert of ACLLoadFromFile
    }
    assert ops[..|ops|] == ops;
  }

  lemma {:induction false} PrefixSucceeds(env: Env, u: UserState, ops: seq<string>, j: nat)
    requires j <= |ops| && ApplyAll(env, u, ops).Done?
    ensures ApplyAll(env, u, ops[..j]).Done?
    decreases |ops|
  {
    hide Apply;
    if j == |ops| {
      assert ops[..j] == ops;
    } else {
      assert ops[..j] == ops[..|ops| - 1][..j];
      PrefixSucceeds(env, u, ops[..|ops| - 1], j);
    }
  }

  /** A table of users in memory holds these states. */
  ghost predicate Holds(users: map<string, User>, states: map<string, UserState>)
    reads users.Values, set n | n in users :: users[n].allowedCommands
  {
    && users.Keys == states.Keys
    && (forall n :: n in users ==> users[n].Valid() && users[n].State() == states[n])
    && (forall m, n :: m in users && n in users && m != n ==>
          users[m] != users[n] && users[m].allowedCommands != users[n].allowedCommands)
  }

  /** ACLCopyUser. */
  method CopyUser(dst: User, src: User)
    requires dst.Valid() && src.Valid() && dst != src && dst.allowedCommands != src.allowedCommands
    requires SubsFine(src.Cmds())
    modifies dst, dst.allowedCommands
    ensures dst.State() == src.State()
  {
    hide AllBits;
    dst.passwords, dst.patterns, dst.channels, dst.flags := src.passwords, src.patterns, src.channels, src.flags;
    forall i | 0 <= i < COMMAND_BITS { dst.allowedCommands[i] := src.allowedCommands[i]; }
    dst.allowedSubcommands := map[];
    for id := 0 to COMMAND_BITS
      modifies dst`allowedSubcommands
      invariant dst.allowedSubcommands == map i | i in src.allowedSubcommands && i < id :: src.allowedSubcommands[i]
    {
      if id in src.allowedSubcommands {
        CopySubcommands(dst, id, src.allowedSubcommands[id]);
      }
    }
    assert dst.allowedSubcommands == src.allowedSubcommands;
    assert dst.allowedCommands[..] == src.allowedCommands[..];
  }

  method CopySubcommands(dst: User, id: nat, list: seq<string>)
    requires GoodSubs(list) && id !in dst.allowedSubcommands
    modifies dst`allowedSubcommands
    ensures dst.allowedSubcommands == old(dst.allowedSubcommands)[id := list]
  {
    for i := 0 to |list|
      invariant dst.allowedSubcommands
                == if i == 0 then old(dst.allowedSubcommands) else old(dst.allowedSubcommands)[id := list[..i]]
    {
      assert list[..i] + [list[i]] == list[..i + 1];
      assert forall k :: 0 <= k < i ==> list[..i][k] == list[k];
      dst.AddAllowedSubcommand(id, list[i]);
    }
    assert list[..|list|] == list;
  }

  /** A keyword is read as one. */
  lemma WordApplies(env: Env, u: UserState, word: string, k: Keyword)
    requires word != "" && NoNul(word) && KeywordOf(Lower(word)) == Is(k)
    ensures Apply(env, u, word) == Done(ApplyKeyword(u, k))
  {
    hide KeywordOf, Lower, ApplyKeyword;
    SeenAll(env, u, word);
  }

  lemma Keywords()
    ensures KeywordOf(Lower("on")) == Is(On) && KeywordOf(Lower("off")) == Is(Off)
    ensures KeywordOf(Lower("nopass")) == Is(AnyPass) && KeywordOf(Lower("resetchannels")) == Is(NoChannels)
    ensures KeywordOf(Lower("~*")) == Is(AnyKey) && KeywordOf(Lower("&*")) == Is(AnyChannel)
    ensures KeywordOf(Lower("+@all")) == Is(AnyCommand)
  {
    assert Lower("on") == "on" && Lower("off") == "off" && Lower("nopass") == "nopass";
    assert Lower("resetchannels") == "resetchannels" && Lower("~*") == "~*" && Lower("&*") == "&*";
    assert Lower("+@all") == "+@all";
  }

  lemma DefaultRules(env: Env, u: UserState)
    ensures Apply(env, u, "+@all") == Done(ApplyKeyword(u, AnyCommand))
    ensures Apply(env, u, "~*") == Done(ApplyKeyword(u, AnyKey))
    ensures Apply(env, u, "&*") == Done(ApplyKeyword(u, AnyChannel))
    ensures Apply(env, u, "on") == Done(ApplyKeyword(u, On))
    ensures Apply(env, u, "nopass") == Done(ApplyKeyword(u, AnyPass))
  {
    hide Apply, KeywordOf, Lower, ApplyKeyword;
    Keywords();
    WordApplies(env, u, "+@all", AnyCommand);
    WordApplies(env, u, "~*", AnyKey);
    WordApplies(env, u, "&*", AnyChannel);
    WordApplies(env, u, "on", On);
    WordApplies(env, u, "nopass", AnyPass);
  }

  /** The default user may do everything, with any password. */
  lemma DefaultIs(env: Env)
    ensures DefaultState(env) == UserState({Enabled, AllCommands, AllKeys, AllChannels, NoPass},
                                           Commands(seq(1024, _ => true), map[]), [], [], [])
  {
    assert AllBits(true) == seq(1024, _ => true);
  }

  lemma DefaultIsSound(env: Env)
    ensures Sound(env.table, DefaultState(env))
  {
  }

  /** ACLInitDefaultUser. */
  method InitDefaultUser(env: Env) returns (u: User)
    requires ValidTable(env.table)
    ensures fresh(u) && fresh(u.allowedCommands) && u.Valid() && u.State() == DefaultState(env)
    ensures u.flags == {Enabled, AllCommands, AllKeys, AllChannels, NoPass}
    ensures (forall id :: 0 <= id < 1024 ==> u.allowedCommands[id]) && u.allowedSubcommands == map[]
    ensures u.passwords == [] && u.patterns == [] && u.channels == []
  {
    hide Apply, ApplyKeyword, ValidTable, NewUser;
    DefaultIs(env);
    u := new User(env);
    DefaultRules(env, u.State());
    var failed := u.SetUser(env, "+@all");
    DefaultRules(env, u.State());
    failed := u.SetUser(env, "~*");
    DefaultRules(env, u.State());
    failed := u.SetUser(env, "&*");
    DefaultRules(env, u.State());
    failed := u.SetUser(env, "on");
    DefaultRules(env, u.State());
    failed := u.SetUser(env, "nopass");
  }

  /** A good line on the users loaded so far. */
  method InstallLine(env: Env, loaded: map<string, User>, ghost before: map<string, UserState>, name: string,
                     ops: seq<string>)
    returns (loaded': map<string, User>)
    requires ValidTable(env.table) && Holds(loaded, before) && RuleErrors(env, AfterReset(env), ops) == []
    modifies loaded.Values, set n | n in loaded :: loaded[n].allowedCommands
    ensures var start := if name in before then Reset(env, before[name]) else NewUser(env);
            && ApplyAll(env, start, ops).Done?
            && Holds(loaded', before[name := ApplyAll(env, start, ops).user])
    ensures forall n :: n in loaded' ==>
              if n in loaded then loaded'[n] == loaded[n] else fresh(loaded'[n]) && fresh(loaded'[n].allowedCommands)
    ensures loaded.Keys <= loaded'.Keys
  {
    hide Apply, ApplyAll, Reset, ValidTable, RuleErrors, WellFormed, NewUser;
    var u: User;
    if name in loaded {
      u := loaded[name];
      ResetRule(env, u.State());
      FakeRunPredictsRealRun(env, ops, u.State());
      var failed := u.SetUser(env, "reset");
    } else {
      u := new User(env);
      FakeRunPredictsRealRun(env, ops, NewUser(env));
    }
    ApplyLine(env, u, ops);
    loaded' := loaded[name := u];
    HoldsWith(loaded, before, name, u, u.State());
  }

  lemma HoldsWith(loaded: map<string, User>, before: map<string, UserState>, name: string, u: User, state: UserState)
    requires loaded.Keys == before.Keys && u.Valid() && u.State() == state
    requires forall n :: n in loaded && n != name ==>
               loaded[n].Valid() && loaded[n].State() == before[n]
               && loaded[n] != u && loaded[n].allowedCommands != u.allowedCommands
    requires forall m, n :: m in loaded && n in loaded && m != n ==>
               loaded[m] != loaded[n] && loaded[m].allowedCommands != loaded[n].allowedCommands
    ensures Holds(loaded[name := u], before[name := state])
  {
  }

  /** One line: tried on the fake user, and installed while no line was wrong. */
  method LoadLine(env: Env, fake: User, loaded: map<string, User>, ghost states: map<string, UserState>, raw: string,
                  errors: seq<LineError>)
    returns (errors': seq<LineError>, loaded': map<string, User>)
    requires ValidTable(env.table) && fake.Valid()
    requires forall n :: n in loaded ==> loaded[n] != fake && loaded[n].allowedCommands != fake.allowedCommands
    requires errors == [] ==> Holds(loaded, states)
    modifies fake, fake.allowedCommands, loaded.Values, set n | n in loaded :: loaded[n].allowedCommands
    ensures errors' == errors + LineErrors(env, raw)
    ensures errors' == [] ==> Holds(loaded', WithLine(env, states, raw))
    ensures forall n :: n in loaded' ==>
              if n in loaded then loaded'[n] == loaded[n] else fresh(loaded'[n]) && fresh(loaded'[n].allowedCommands)
    ensures loaded.Keys <= loaded'.Keys
  {
    hide Apply, ValidTable, ApplyAll, RuleErrors, Reset, NewUser, ParseLine;
    errors', loaded' := errors, loaded;
    match ParseLine(raw) {
      case Blank =>
      case Wrong(e) => errors' := errors' + [e];
      case Rules(name, ops) =>
        var wrong := TryLine(env, fake, ops);
        errors' := errors' + wrong;
        if |errors'| == 0 {
          loaded' := InstallLine(env, loaded, states, name, ops);
        }
    }
  }

  /** The loop of ACLLoadFromFile, over a new table of users. */
  method LoadLines(env: Env, lines: seq<string>) returns (errors: seq<LineError>, loaded: map<string, User>)
    requires ValidTable(env.table)
    ensures errors == FileErrors(env, lines)
    ensures errors == [] ==> Holds(loaded, Installed(env, lines))
    ensures DEFAULT in loaded
    ensures forall n :: n in loaded ==> fresh(loaded[n]) && fresh(loaded[n].allowedCommands)
  {
    hide ValidTable, LineErrors, WithLine, DefaultState;
    var fake := new User(env);
    var firstUser := InitDefaultUser(env);
    loaded, errors := map[DEFAULT := firstUser], [];
    for i := 0 to |lines|
      invariant fresh(fake) && fresh(fake.allowedCommands) && fake.Valid() && DEFAULT in loaded
      invariant forall n :: n in loaded ==> fresh(loaded[n]) && fresh(loaded[n].allowedCommands)
      invariant forall n :: n in loaded ==> loaded[n] != fake && loaded[n].allowedCommands != fake.allowedCommands
      invariant errors == FileErrors(env, lines[..i])
      invariant errors == [] ==> Holds(loaded, Installed(env, lines[..i]))
    {
      hide Holds;
      assert lines[..i + 1][..i] == lines[..i];
      errors, loaded := LoadLine(env, fake, loaded, Installed(env, lines[..i]), lines[i], errors);
    }
    assert lines[..|lines|] == lines;
  }

  /** The users of the server, and the default user that other structures point to. */
  class Registry {
    var users: map<string, User>
    var defaultUser: User

    ghost predicate Valid()
      reads this, users.Values
    {
      && DEFAULT in users && users[DEFAULT] == defaultUser
      && forall n :: n in users ==> users[n].Valid()
    }

    constructor (env: Env)
      requires ValidTable(env.table)
      ensures Valid() && users.Keys == {DEFAULT} && defaultUser.State() == DefaultState(env)
    {
      var u := InitDefaultUser(env);
      users, defaultUser := map[DEFAULT := u], u;
    }

    /** ACLLoadFromFile, on the text of the file. */
    method LoadFromFile(env: Env, acls: string) returns (errors: seq<LineError>)
      requires Valid() && ValidTable(env.table)
      modifies this, defaultUser, defaultUser.allowedCommands
      ensures Valid() && errors == FileErrors(env, FileLines(acls))
      // The default user stays the same object.
      ensures defaultUser == old(defaultUser)
      // After any error nothing has changed: not the table, not one user in it.
      ensures errors != [] ==>
                users == old(users) && forall n :: n in users ==> users[n].State() == old(users[n].State())
      // Without errors the table is what the lines say.
      ensures errors == [] ==> Holds(users, Installed(env, FileLines(acls)))
    {
      hide ValidTable, FileErrors, Installed, WellFormed, DefaultState, SubsFine;
      var loaded;
      var lines := FileLines(acls);
      errors, loaded := LoadLines(env, lines);
      if |errors| == 0 {
        InstalledSound(env, lines, DEFAULT);
        SoundSubs(env.table, Installed(env, lines)[DEFAULT]);
        Install(loaded, Installed(env, lines));
      }
    }

    /** The new table replaces the old; the new default user is copied into the old one. */
    method Install(loaded: map<string, User>, ghost states: map<string, UserState>)
      requires Valid() && DEFAULT in loaded && Holds(loaded, states) && SubsFine(loaded[DEFAULT].Cmds())
      requires forall n :: n in loaded ==>
                 loaded[n] != defaultUser && loaded[n].allowedCommands != defaultUser.allowedCommands
      modifies this`users, defaultUser, defaultUser.allowedCommands
      ensures Valid() && Holds(users, states)
    {
      hide SubsFine;
      CopyUser(defaultUser, loaded[DEFAULT]);
      users := loaded[DEFAULT := defaultUser];
    }
  }

  lemma SoundSubs(t: Table, u: UserState)
    requires Sound(t, u)
    ensures |u.commands.bits| == COMMAND_BITS && SubsFine(u.commands)
  {
  }
}
