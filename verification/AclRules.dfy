// What one ACL rule does to a user, as a function from user state to user state.
module AclRules {
  import opened AclTable

  datatype Flag =
    | Enabled | Disabled | AllKeys | AllCommands | NoPass | AllChannels | SanitizePayload | SanitizePayloadSkip

  // The command permissions of a user: the bitmap, and for each id the allowed subcommands.
  datatype Commands = Commands(bits: seq<bool>, subs: map<nat, seq<string>>)

  datatype UserState = UserState(
    flags: set<Flag>,
    commands: Commands,
    passwords: seq<string>,
    patterns: seq<string>,
    channels: seq<string>)

  datatype Errno = ENOENT | EINVAL | EEXIST | EISDIR | ENODEV | EBADMSG
  datatype Outcome = Done(user: UserState) | Failed(errno: Errno)

  /** The server around the engine: its command table, whether new users may use all channels
      (acl_pubsub_default), and its password hash. */
  datatype Env = Env(table: Table, pubsubAllChannels: bool, hash: string -> string)

  // ---------------------------------------------------------------- lists

  /** listSearchKey, then listAddNodeTail if nothing was found. */
  function Added(list: seq<string>, s: string): seq<string> {
    if s in list then list else list + [s]
  }

  /** listDelNode of the first match. */
  function Removed(list: seq<string>, s: string): seq<string> {
    if list == [] then []
    else if list[0] == s then list[1..]
    else [list[0]] + Removed(list[1..], s)
  }

  predicate HasSpaces(s: string) {
    exists i :: 0 <= i < |s| && (s[i] == ' ' || '\t' <= s[i] <= '\r' || s[i] == '\0')
  }

  const HASH_PASSWORD_LEN := 64

  predicate ValidHash(s: string) {
    |s| == HASH_PASSWORD_LEN && forall i :: 0 <= i < |s| ==> 'a' <= s[i] <= 'f' || '0' <= s[i] <= '9'
  }

  // ---------------------------------------------------------------- commands and subcommands

  function AllBits(v: bool): (bits: seq<bool>)
    ensures |bits| == COMMAND_BITS && forall i :: 0 <= i < COMMAND_BITS ==> bits[i] == v
  {
    seq(COMMAND_BITS, _ => v)
  }

  function WithBit(c: Commands, id: nat, v: bool): Commands {
    if id >= |c.bits| then c else c.(bits := c.bits[id := v])
  }

  function WithoutSubs(c: Commands, id: nat): Commands {
    c.(subs := c.subs - {id})
  }

  /** ACLAddAllowedSubcommand: at the tail, unless it is there in some case already. */
  function AddedSub(list: seq<string>, sub: string): seq<string> {
    if exists i :: 0 <= i < |list| && SameText(list[i], sub) then list else list + [sub]
  }

  function SubsOf(c: Commands, id: nat): seq<string> {
    if id in c.subs then c.subs[id] else []
  }

  function WithSub(c: Commands, id: nat, sub: string): Commands {
    c.(subs := c.subs[id := AddedSub(SubsOf(c, id), sub)])
  }

  /** ACLSetUserCommandBitsForCategory: the commands of the category, modules' excepted. */
  function WithCategory(t: Table, c: Commands, category: string, v: bool): Commands {
    if t == [] then c
    else
      var rest, cmd := WithCategory(t[..|t| - 1], c, category, v), t[|t| - 1];
      if InCategory(cmd, category) && !cmd.isModule then WithoutSubs(WithBit(rest, cmd.id, v), cmd.id) else rest
  }

  predicate InCategory(cmd: Command, category: string) {
    exists n :: n in cmd.categories && SameText(n, category)
  }

  /** Some bit of the category is touched, which clears the ALLCOMMANDS flag when v is false. */
  predicate Touches(t: Table, category: string) {
    exists i :: 0 <= i < |t| && InCategory(t[i], category) && !t[i].isModule && t[i].id < COMMAND_BITS
  }

  // ---------------------------------------------------------------- keywords

  datatype Keyword =
    | On | Off | SkipSanitize | Sanitize | AnyKey | NoKeys | AnyChannel | NoChannels | AnyCommand | NoCommand
    | AnyPass | NoPasswords

  datatype MaybeKeyword = NotKeyword | Is(keyword: Keyword)

  /** The words that ACLSetUser compares the whole rule with, once in lower case. */
  function KeywordOf(l: string): MaybeKeyword {
    if l == "on" then Is(On)
    else if l == "off" then Is(Off)
    else if l == "skip-sanitize-payload" then Is(SkipSanitize)
    else if l == "sanitize-payload" then Is(Sanitize)
    else if l == "allkeys" || l == "~*" then Is(AnyKey)
    else if l == "resetkeys" then Is(NoKeys)
    else if l == "allchannels" || l == "&*" then Is(AnyChannel)
    else if l == "resetchannels" then Is(NoChannels)
    else if l == "allcommands" || l == "+@all" then Is(AnyCommand)
    else if l == "nocommands" || l == "-@all" then Is(NoCommand)
    else if l == "nopass" then Is(AnyPass)
    else if l == "resetpass" then Is(NoPasswords)
    else NotKeyword
  }

  function ApplyKeyword(u: UserState, k: Keyword): UserState {
    match k
    case On => u.(flags := u.flags + {Enabled} - {Disabled})
    case Off => u.(flags := u.flags + {Disabled} - {Enabled})
    case SkipSanitize => u.(flags := u.flags + {SanitizePayloadSkip} - {SanitizePayload})
    case Sanitize => u.(flags := u.flags - {SanitizePayloadSkip} + {SanitizePayload})
    case AnyKey => u.(flags := u.flags + {AllKeys}, patterns := [])
    case NoKeys => u.(flags := u.flags - {AllKeys}, patterns := [])
    case AnyChannel => u.(flags := u.flags + {AllChannels}, channels := [])
    case NoChannels => u.(flags := u.flags - {AllChannels}, channels := [])
    case AnyCommand => u.(flags := u.flags + {AllCommands}, commands := Commands(AllBits(true), map[]))
    case NoCommand => u.(flags := u.flags - {AllCommands}, commands := Commands(AllBits(false), map[]))
    case AnyPass => u.(flags := u.flags + {NoPass}, passwords := [])
    case NoPasswords => u.(flags := u.flags - {NoPass}, passwords := [])
  }

  // ---------------------------------------------------------------- one rule

  /** Where the first '|' is, or the length. */
  function Bar(s: string): (n: nat)
    ensures n <= |s| && (n < |s| ==> s[n] == '|') && forall i :: 0 <= i < n ==> s[i] != '|'
  {
    if s == [] || s[0] == '|' then 0 else 1 + Bar(s[1..])
  }

  function SetOneCommand(t: Table, u: UserState, name: string, v: bool): Outcome {
    var i := Lookup(t, name);
    if i < 0 then Failed(ENOENT)
    else
      Done(u.(commands := WithoutSubs(WithBit(u.commands, t[i].id, v), t[i].id),
              flags := if v || t[i].id >= COMMAND_BITS then u.flags else u.flags - {AllCommands}))
  }

  function AddSubcommand(t: Table, u: UserState, name: string, sub: string): Outcome {
    var i := Lookup(t, name);
    if i < 0 then Failed(ENOENT)
    else if sub == "" then Failed(EINVAL)
    else if t[i].id < |u.commands.bits| && u.commands.bits[t[i].id] then Done(u)
    else Done(u.(commands := WithSub(u.commands, t[i].id, sub)))
  }

  function SetCategory(t: Table, u: UserState, category: string, v: bool): Outcome {
    if !KnownCategory(category) then Failed(ENOENT)
    else
      Done(u.(commands := WithCategory(t, u.commands, category, v),
              flags := if !v && Touches(t, category) then u.flags - {AllCommands} else u.flags))
  }

  function AddPassword(u: UserState, hash: string): UserState {
    u.(passwords := Added(u.passwords, hash), flags := u.flags - {NoPass})
  }

  function RemovePassword(u: UserState, hash: string): Outcome {
    if hash in u.passwords then Done(u.(passwords := Removed(u.passwords, hash))) else Failed(ENODEV)
  }

  function Reset(env: Env, u: UserState): UserState {
    var u := ApplyKeyword(ApplyKeyword(ApplyKeyword(u, NoPasswords), NoKeys), NoChannels);
    var u := if env.pubsubAllChannels then ApplyKeyword(u, AnyChannel) else u;
    ApplyKeyword(ApplyKeyword(ApplyKeyword(u, Off), Sanitize), NoCommand)
  }

  predicate NoNul(s: string) {
    forall i :: 0 <= i < |s| ==> s[i] != '\0'
  }

  /** What a C function makes of a string: the part before the first NUL. */
  function CStr(s: string): (c: string)
    ensures c <= s && NoNul(c) && (NoNul(s) ==> c == s) && (|c| < |s| ==> s[|c|] == '\0')
  {
    if s == "" || s[0] == '\0' then "" else [s[0]] + CStr(s[1..])
  }

  /** Rules with these marks take the bytes behind them as they are. */
  predicate Binary(op: string) {
    op != "" && op[0] in {'>', '#', '<', '!', '~', '&'}
  }

  /** What ACLSetUser reads of a rule: all of it behind such a mark, unless the part before the first NUL is a keyword;
      otherwise just that part. */
  function Seen(op: string): string {
    if Binary(op) && KeywordOf(Lower(CStr(op))).NotKeyword? then op else CStr(op)
  }

  /** ACLSetUser. A rule that fails leaves the user as it was. */
  function Apply(env: Env, u: UserState, op: string): Outcome {
    if op != "" && op[0] == '\0' then Failed(EINVAL) else ApplySeen(env, u, Seen(op))
  }

  lemma SeenAll(env: Env, u: UserState, op: string)
    requires NoNul(op)
    ensures Seen(op) == op && Apply(env, u, op) == ApplySeen(env, u, op)
  {
  }

  lemma Differs(l: string, i: nat, word: string)
    requires i < |l| && l[i] == '\0' && NoNul(word)
    ensures l != word
  {
  }

  lemma NulIsNoKeyword(l: string, i: nat)
    requires i < |l| && l[i] == '\0'
    ensures KeywordOf(l).NotKeyword?
  {
    Differs(l, i, "on");
    Differs(l, i, "off");
    Differs(l, i, "skip-sanitize-payload");
    Differs(l, i, "sanitize-payload");
    Differs(l, i, "allkeys");
    Differs(l, i, "~*");
    Differs(l, i, "resetkeys");
    Differs(l, i, "allchannels");
    Differs(l, i, "&*");
    Differs(l, i, "resetchannels");
    Differs(l, i, "allcommands");
    Differs(l, i, "+@all");
    Differs(l, i, "nocommands");
    Differs(l, i, "-@all");
    Differs(l, i, "nopass");
    Differs(l, i, "resetpass");
  }

  lemma NothingIsNoKeyword()
    ensures KeywordOf(Lower("")).NotKeyword?
  {
    assert Lower("") == "";
  }

  /** Bytes behind a NUL do not make a keyword, so what is seen is one only if the part before the NUL is. */
  lemma SeenKeyword(op: string)
    ensures KeywordOf(Lower(Seen(op))) == KeywordOf(Lower(CStr(op)))
    ensures KeywordOf(Lower(CStr(op))).Is? ==> op != "" && op[0] != '\0'
  {
    NothingIsNoKeyword();
    hide KeywordOf;
    if !NoNul(op) {
      NulIsNoKeyword(Lower(op), |CStr(op)|);
    }
  }

  function ApplySeen(env: Env, u: UserState, op: string): Outcome {
    if op == "" then Done(u)
    else
      match KeywordOf(Lower(op))
      case Is(k) => Done(ApplyKeyword(u, k))
      case NotKeyword =>
        var rest := op[1..];
        if op[0] == '>' then Done(AddPassword(u, env.hash(rest)))
        else if op[0] == '#' then (if ValidHash(rest) then Done(AddPassword(u, rest)) else Failed(EBADMSG))
        else if op[0] == '<' then RemovePassword(u, env.hash(rest))
        else if op[0] == '!' then (if ValidHash(rest) then RemovePassword(u, rest) else Failed(EBADMSG))
        else if op[0] == '~' then
          if AllKeys in u.flags then Failed(EEXIST)
          else if HasSpaces(rest) then Failed(EINVAL)
          else Done(u.(patterns := Added(u.patterns, rest)))
        else if op[0] == '&' then
          if AllChannels in u.flags then Failed(EISDIR)
          else if HasSpaces(rest) then Failed(EINVAL)
          else Done(u.(channels := Added(u.channels, rest)))
        else if (op[0] == '+' || op[0] == '-') && rest != "" && rest[0] == '@' then
          SetCategory(env.table, u, rest[1..], op[0] == '+')
        else if op[0] == '+' then
          var n := Bar(rest);
          if n == |rest| then SetOneCommand(env.table, u, rest, true)
          else AddSubcommand(env.table, u, rest[..n], rest[n + 1..])
        else if op[0] == '-' then SetOneCommand(env.table, u, rest, false)
        else if SameText(op, "reset") then Done(Reset(env, u))
        else Failed(EINVAL)
  }

  function ApplyAll(env: Env, u: UserState, ops: seq<string>): Outcome {
    if ops == [] then Done(u)
    else match ApplyAll(env, u, ops[..|ops| - 1])
         case Failed(e) => Failed(e)
         case Done(v) => Apply(env, v, ops[|ops| - 1])
  }

  /** ACLCreateUser. */
  function NewUser(env: Env): UserState {
    UserState({Disabled} + (if env.pubsubAllChannels then {AllChannels} else {}),
              Commands(AllBits(false), map[]), [], [], [])
  }

  // ---------------------------------------------------------------- permission

  /** ACLCheckCommandPerm up to the verdict on the command (the key patterns come after it). */
  predicate MayRun(u: UserState, cmd: Command, argv: seq<string>) {
    || AllCommands in u.flags
    || cmd.noAuth
    || (cmd.id < |u.commands.bits| && u.commands.bits[cmd.id])
    || (|argv| >= 2 && exists i :: 0 <= i < |SubsOf(u.commands, cmd.id)| &&
                                   SameText(CStr(argv[1]), SubsOf(u.commands, cmd.id)[i]))
  }

  // ---------------------------------------------------------------- invariants

  /** What every user keeps over a fixed table: bits that stand for no command equal the
      reserved one, a set bit has no subcommands, and subcommand lists are non-empty, without
      repetitions, and belong to commands of the table. */
  ghost predicate WellFormed(t: Table, c: Commands) {
    && |c.bits| == COMMAND_BITS
    && Uniform(t, c.bits)
    && SubsFine(c)
    && c.subs.Keys <= Ids(t)
  }

  ghost predicate SubsFine(c: Commands)
    requires |c.bits| == COMMAND_BITS
  {
    forall id :: id in c.subs ==> id < COMMAND_BITS && !c.bits[id] && GoodSubs(c.subs[id])
  }

  predicate Uniform(t: Table, bits: seq<bool>)
    requires |bits| == COMMAND_BITS
  {
    forall id: nat :: id < COMMAND_BITS && id !in Ids(t) ==> bits[id] == bits[FUTURE_COMMANDS]
  }

  predicate GoodSubs(list: seq<string>) {
    && list != []
    && (forall i :: 0 <= i < |list| ==> list[i] != "" && NoNul(list[i]))
    && (forall i, j :: 0 <= i < j < |list| ==> !SameText(list[i], list[j]))
  }

  ghost predicate Sound(t: Table, u: UserState) {
    && WellFormed(t, u.commands)
    && (AllCommands in u.flags ==> forall i :: 0 <= i < COMMAND_BITS ==> u.commands.bits[i])
  }

  lemma NewUserSound(env: Env)
    ensures Sound(env.table, NewUser(env))
  {
  }

  /** A category rule leaves the bitmap's size, never adds subcommands, and where it changes a
      bit it sets it to `v` and leaves no subcommands. */
  lemma {:induction false} CategoryEffect(t: Table, c: Commands, category: string, v: bool, id: nat)
    requires |c.bits| == COMMAND_BITS
    ensures var c' := WithCategory(t, c, category, v);
            && |c'.bits| == COMMAND_BITS
            && (id in c'.subs ==> id in c.subs && c'.subs[id] == c.subs[id])
            && (id < COMMAND_BITS && id in c'.subs ==> c'.bits[id] == c.bits[id])
            && (id < COMMAND_BITS && c'.bits[id] != c.bits[id] ==>
                  id in Ids(t) && c'.bits[id] == v && Touches(t, category))
    decreases |t|
  {
    if t != [] {
      var last := t[|t| - 1];
      CategoryEffect(t[..|t| - 1], c, category, v, id);
      assert last.id in Ids(t);
      assert forall i :: i in Ids(t[..|t| - 1]) ==> i in Ids(t);
      assert Touches(t[..|t| - 1], category) ==> Touches(t, category);
    }
  }

  lemma CategoryKeepsSound(t: Table, u: UserState, category: string, v: bool)
    requires ValidTable(t) && Sound(t, u) && SetCategory(t, u, category, v).Done?
    ensures Sound(t, SetCategory(t, u, category, v).user)
  {
    hide WithCategory, InCategory, KnownCategory, Touches;
    forall id: nat
      ensures var c' := WithCategory(t, u.commands, category, v);
              && |c'.bits| == COMMAND_BITS
              && (id in c'.subs ==> id in u.commands.subs && c'.subs[id] == u.commands.subs[id])
              && (id < COMMAND_BITS && id in c'.subs ==> c'.bits[id] == u.commands.bits[id])
              && (id < COMMAND_BITS && c'.bits[id] != u.commands.bits[id] ==>
                    id in Ids(t) && c'.bits[id] == v && Touches(t, category))
    {
      CategoryEffect(t, u.commands, category, v, id);
    }
    assert FUTURE_COMMANDS !in Ids(t) by {
      forall i | 0 <= i < |t| ensures t[i].id != FUTURE_COMMANDS { assert ValidCommand(t[i]); }
    }
  }

  lemma OneCommandKeepsSound(t: Table, u: UserState, name: string, v: bool)
    requires ValidTable(t) && Sound(t, u) && SetOneCommand(t, u, name, v).Done?
    ensures Sound(t, SetOneCommand(t, u, name, v).user)
  {
    var id := t[Lookup(t, name)].id;
    assert id in Ids(t) && ValidCommand(t[Lookup(t, name)]);
  }

  lemma SubcommandKeepsSound(t: Table, u: UserState, name: string, sub: string)
    requires ValidTable(t) && Sound(t, u) && AddSubcommand(t, u, name, sub).Done? && NoNul(sub)
    ensures Sound(t, AddSubcommand(t, u, name, sub).user)
  {
    hide ValidCommand, Lookup, WithSub, WellFormed, NoNul;
    var id := t[Lookup(t, name)].id;
    assert ValidCommand(t[Lookup(t, name)]);
    WellFormedBits(t, u.commands);
    IdIsKnown(t, Lookup(t, name));
    if !u.commands.bits[id] {
      WithSubWellFormed(t, u.commands, id, sub);
    }
  }

  lemma WellFormedBits(t: Table, c: Commands)
    requires WellFormed(t, c)
    ensures |c.bits| == COMMAND_BITS
  {
  }

  lemma IdIsKnown(t: Table, i: nat)
    requires i < |t| && ValidCommand(t[i])
    ensures t[i].id in Ids(t) && t[i].id < COMMAND_BITS
  {
  }

  lemma WithSubWellFormed(t: Table, c: Commands, id: nat, sub: string)
    requires WellFormed(t, c) && id in Ids(t) && id < COMMAND_BITS && !c.bits[id] && sub != "" && NoNul(sub)
    ensures WellFormed(t, WithSub(c, id, sub)) && WithSub(c, id, sub).bits == c.bits
  {
    hide AddedSub, GoodSubs, Uniform, NoNul;
    AddedSubGood(SubsOf(c, id), sub);
  }

  lemma AddedSubGood(list: seq<string>, sub: string)
    requires list == [] || GoodSubs(list)
    requires sub != "" && NoNul(sub)
    ensures GoodSubs(AddedSub(list, sub))
  {
  }

  lemma KeywordKeepsSound(t: Table, u: UserState, k: Keyword)
    requires Sound(t, u)
    ensures Sound(t, ApplyKeyword(u, k))
  {
    hide GoodSubs;
  }

  lemma ResetIsSound(env: Env, u: UserState)
    ensures Sound(env.table, Reset(env, u))
  {
    hide GoodSubs;
  }

  /** Every rule keeps the invariants. */
  lemma ApplyKeepsSound(env: Env, u: UserState, op: string)
    requires ValidTable(env.table) && Sound(env.table, u) && Apply(env, u, op).Done?
    ensures Sound(env.table, Apply(env, u, op).user)
  {
    hide ApplySeen, Sound, ValidTable, KeywordOf;
    SeenKeepsSound(env, u, Seen(op));
  }

  lemma SeenKeepsSound(env: Env, u: UserState, op: string)
    requires Binary(op) || NoNul(op)
    requires ValidTable(env.table) && Sound(env.table, u) && ApplySeen(env, u, op).Done?
    ensures Sound(env.table, ApplySeen(env, u, op).user)
  {
    var t := env.table;
    if op != "" && KeywordOf(Lower(op)).Is? {
      KeywordKeepsSound(t, u, KeywordOf(Lower(op)).keyword);
    } else if op != "" {
      hide Sound, SetOneCommand, AddSubcommand, SetCategory, KeywordOf, ApplyKeyword, Reset, HasSpaces, ValidHash;
      ResetIsSound(env, u);
      SoundIgnoresLists(t, u);
      var rest := op[1..];
      if op[0] == '+' || op[0] == '-' {
        if rest != "" && rest[0] == '@' {
          if SetCategory(t, u, rest[1..], op[0] == '+').Done? { CategoryKeepsSound(t, u, rest[1..], op[0] == '+'); }
        } else if op[0] == '+' && Bar(rest) < |rest| {
          var n := Bar(rest);
          if AddSubcommand(t, u, rest[..n], rest[n + 1..]).Done? {
            SubcommandKeepsSound(t, u, rest[..n], rest[n + 1..]);
          }
        } else if SetOneCommand(t, u, rest, op[0] == '+').Done? {
          OneCommandKeepsSound(t, u, rest, op[0] == '+');
        }
      }
    }
  }

  lemma SoundIgnoresLists(t: Table, u: UserState)
    requires Sound(t, u)
    ensures forall pass, pat, chan ::
              Sound(t, u.(passwords := pass)) && Sound(t, u.(patterns := pat)) && Sound(t, u.(channels := chan))
              && Sound(t, u.(passwords := pass, flags := u.flags - {NoPass}))
  {
    hide WellFormed;
  }

  /** So every user made by rules, from a new user on, has them. */
  lemma {:induction false} ReachableSound(env: Env, ops: seq<string>)
    requires ValidTable(env.table) && ApplyAll(env, NewUser(env), ops).Done?
    ensures Sound(env.table, ApplyAll(env, NewUser(env), ops).user)
    decreases |ops|
  {
    if ops == [] {
      NewUserSound(env);
    } else {
      ReachableSound(env, ops[..|ops| - 1]);
      ApplyKeepsSound(env, ApplyAll(env, NewUser(env), ops[..|ops| - 1]).user, ops[|ops| - 1]);
    }
  }
}
