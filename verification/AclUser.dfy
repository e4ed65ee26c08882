// The user structure that ACLSetUser updates in place.
module AclUser {
  import opened AclTable
  import opened AclRules
  import opened AclCategory

  datatype MaybeError = NoError | Error(errno: Errno)

  class User {
    const allowedCommands: array<bool>
    var flags: set<Flag>
    var allowedSubcommands: map<nat, seq<string>>
    var passwords: seq<string>
    var patterns: seq<string>
    var channels: seq<string>

    ghost predicate Valid()
      reads this
    {
      allowedCommands.Length == COMMAND_BITS
    }

    ghost function State(): UserState
      reads this, allowedCommands
    {
      UserState(flags, Cmds(), passwords, patterns, channels)
    }

    ghost function Cmds(): Commands
      reads this, allowedCommands
    {
      Commands(allowedCommands[..], allowedSubcommands)
    }

    /** ACLCreateUser, apart from linking the user to the table of users. */
    constructor (env: Env)
      ensures Valid() && fresh(allowedCommands)
      ensures State() == NewUser(env)
    {
      flags := {Disabled} + if env.pubsubAllChannels then {AllChannels} else {};
      allowedCommands := new bool[COMMAND_BITS](_ => false);
      allowedSubcommands, passwords, patterns, channels := map[], [], [], [];
      new;
      assert allowedCommands[..] == AllBits(false);
    }

    /** A structure of zeros, as ACLDescribeUserCommandRules makes two of. */
    constructor Zeroed()
      ensures Valid() && fresh(allowedCommands)
      ensures State() == UserState({}, Commands(AllBits(false), map[]), [], [], [])
    {
      flags := {};
      allowedCommands := new bool[COMMAND_BITS](_ => false);
      allowedSubcommands, passwords, patterns, channels := map[], [], [], [];
      new;
      assert allowedCommands[..] == AllBits(false);
    }

    /** ACLGetUserCommandBit. */
    function CommandBit(id: nat): bool
      requires Valid()
      reads this, allowedCommands
    {
      if id >= COMMAND_BITS then false else allowedCommands[id]
    }

    method SetCommandBit(id: nat, v: bool)
      requires Valid()
      modifies this`flags, allowedCommands
      ensures Cmds() == WithBit(old(Cmds()), id, v)
      ensures flags == if v || id >= COMMAND_BITS then old(flags) else old(flags) - {AllCommands}
    {
      if id >= COMMAND_BITS { return; }
      if v {
        allowedCommands[id] := true;
      } else {
        allowedCommands[id] := false;
        flags := flags - {AllCommands};
      }
    }

    method ResetSubcommandsForCommand(id: nat)
      modifies this`allowedSubcommands
      ensures Cmds() == WithoutSubs(old(Cmds()), id)
    {
      allowedSubcommands := allowedSubcommands - {id};
    }

    method SetCommandBitsForCategory(table: Table, category: string, v: bool) returns (known: bool)
      requires Valid()
      modifies this`flags, this`allowedSubcommands, allowedCommands
      ensures known <==> Lower(category) in CATEGORIES
      ensures known && ValidTable(table) ==>
                forall i :: 0 <= i < |table| ==>
                  table[i].id < COMMAND_BITS
                  && if !table[i].isModule && exists n :: n in table[i].categories && Lower(n) == Lower(category)
                     then allowedCommands[table[i].id] == v && table[i].id !in allowedSubcommands
                     else allowedCommands[table[i].id] == old(allowedCommands[..])[table[i].id]
                          && SubsOf(Cmds(), table[i].id) == SubsOf(old(Cmds()), table[i].id)
      ensures known == KnownCategory(category)
      ensures Cmds() == if known then WithCategory(table, old(Cmds()), category, v) else old(Cmds())
      ensures flags == if known && !v && Touches(table, category) then old(flags) - {AllCommands} else old(flags)
    {
      hide Lower, ValidTable, SubsOf, CATEGORIES, KnownCategory, InCategory, Walked;
      CategoryIs(category);
      known := KnownCategory(category);
      if !known { return; }
      if ValidTable(table) { CategoryWalk(table, Cmds(), category, v); }
      WalkedStart(table, old(Cmds()), old(flags), category, v);
      for i := 0 to |table|
        invariant Walked(table, i, old(Cmds()), old(flags), Cmds(), flags, category, v)
      {
        var cmd := table[i];
        WalkedStep(table, i, old(Cmds()), old(flags), Cmds(), flags, category, v);
        if cmd.isModule { continue; }
        if InCategory(cmd, category) {
          SetCommandBit(cmd.id, v);
          ResetSubcommandsForCommand(cmd.id);
        }
      }
      WalkedEnd(table, old(Cmds()), old(flags), Cmds(), flags, category, v);
    }

    method AddAllowedSubcommand(id: nat, sub: string)
      modifies this`allowedSubcommands
      ensures Cmds() == WithSub(old(Cmds()), id, sub)
    {
      var list := if id in allowedSubcommands then allowedSubcommands[id] else [];
      var items := 0;
      while items < |list|
        invariant 0 <= items <= |list| && forall i :: 0 <= i < items ==> !SameText(list[i], sub)
      {
        if SameText(list[items], sub) { break; }
        items := items + 1;
      }
      if items == |list| { list := list + [sub]; }
      allowedSubcommands := allowedSubcommands[id := list];
    }

    method SetEveryCommand(v: bool)
      requires Valid()
      modifies this`flags, this`allowedSubcommands, allowedCommands
      ensures State() == ApplyKeyword(old(State()), if v then AnyCommand else NoCommand)
    {
      forall i | 0 <= i < allowedCommands.Length { allowedCommands[i] := v; }
      flags := if v then flags + {AllCommands} else flags - {AllCommands};
      allowedSubcommands := map[];
      assert allowedCommands[..] == AllBits(v);
    }

    method SetKeyword(k: Keyword)
      requires Valid()
      modifies this, allowedCommands
      ensures State() == ApplyKeyword(old(State()), k)
    {
      match k {
        case On => flags := flags + {Enabled} - {Disabled};
        case Off => flags := flags + {Disabled} - {Enabled};
        case SkipSanitize => flags := flags + {SanitizePayloadSkip} - {SanitizePayload};
        case Sanitize => flags := flags - {SanitizePayloadSkip} + {SanitizePayload};
        case AnyKey => flags, patterns := flags + {AllKeys}, [];
        case NoKeys => flags, patterns := flags - {AllKeys}, [];
        case AnyChannel => flags, channels := flags + {AllChannels}, [];
        case NoChannels => flags, channels := flags - {AllChannels}, [];
        case AnyCommand => SetEveryCommand(true);
        case NoCommand => SetEveryCommand(false);
        case AnyPass => flags, passwords := flags + {NoPass}, [];
        case NoPasswords => flags, passwords := flags - {NoPass}, [];
      }
    }

    /** The '+' and '-' rules of ACLSetUser. */
    method SetCommandRule(env: Env, op: string) returns (r: MaybeError)
      requires Valid() && ValidTable(env.table)
      requires op != "" && (op[0] == '+' || op[0] == '-') && KeywordOf(Lower(op)).NotKeyword?
      modifies this, allowedCommands
      ensures var o := ApplySeen(env, old(State()), op);
              && (o.Done? ==> r == NoError && State() == o.user)
              && (o.Failed? ==> r == Error(o.errno) && State() == old(State()))
    {
      hide KeywordOf, WithCategory, KnownCategory, Touches, AddedSub, Bar, Lower, Lookup, HasSpaces, ValidHash, Reset;
      hide AddPassword, RemovePassword, CATEGORIES, SubsOf;
      var rest := op[1..];
      if rest != "" && rest[0] == '@' {
        var known := SetCommandBitsForCategory(env.table, rest[1..], op[0] == '+');
        return if known then NoError else Error(ENOENT);
      }
      var bar := Bar(rest);
      if op[0] == '+' && bar < |rest| {
        var i := Lookup(env.table, rest[..bar]);
        if i < 0 { return Error(ENOENT); }
        var sub := rest[bar + 1..];
        if |sub| == 0 { return Error(EINVAL); }
        if !CommandBit(env.table[i].id) {
          AddAllowedSubcommand(env.table[i].id, sub);
        }
      } else {
        var i := Lookup(env.table, rest);
        if i < 0 { return Error(ENOENT); }
        SetCommandBit(env.table[i].id, op[0] == '+');
        ResetSubcommandsForCommand(env.table[i].id);
      }
      return NoError;
    }

    /** The rule "reset". */
    method ResetUser(env: Env)
      requires Valid()
      modifies this, allowedCommands
      ensures State() == Reset(env, old(State()))
    {
      hide ApplyKeyword;
      SetKeyword(NoPasswords);
      SetKeyword(NoKeys);
      SetKeyword(NoChannels);
      if env.pubsubAllChannels { SetKeyword(AnyChannel); }
      SetKeyword(Off);
      SetKeyword(Sanitize);
      SetKeyword(NoCommand);
    }

    /** ACLSetUser. Its string functions stop at the first NUL of a rule; passwords and patterns are taken by length. */
    method SetUser(env: Env, op: string) returns (r: MaybeError)
      requires Valid() && ValidTable(env.table)
      modifies this, allowedCommands
      ensures var o := Apply(env, old(State()), op);
              && (o.Done? ==> r == NoError && State() == o.user)
              && (o.Failed? ==> r == Error(o.errno) && State() == old(State()))
    {
      hide KeywordOf, ApplyKeyword, SetCategory, SetOneCommand, AddSubcommand, HasSpaces, ValidHash, ValidTable, Reset;
      if |op| == 0 { return NoError; }
      var cstr := CStr(op);
      var keyword := KeywordOf(Lower(cstr));
      SeenKeyword(op);
      if keyword.Is? {
        SetKeyword(keyword.keyword);
        return NoError;
      }
      var rest := op[1..];
      if op[0] == '>' || op[0] == '#' {
        if op[0] == '#' && !ValidHash(rest) { return Error(EBADMSG); }
        var newPass := if op[0] == '>' then env.hash(rest) else rest;
        if newPass !in passwords { passwords := passwords + [newPass]; }
        flags := flags - {NoPass};
      } else if op[0] == '<' || op[0] == '!' {
        if op[0] == '!' && !ValidHash(rest) { return Error(EBADMSG); }
        var delPass := if op[0] == '<' then env.hash(rest) else rest;
        if delPass !in passwords { return Error(ENODEV); }
        passwords := Removed(passwords, delPass);
      } else if op[0] == '~' {
        if AllKeys in flags { return Error(EEXIST); }
        if HasSpaces(rest) { return Error(EINVAL); }
        if rest !in patterns { patterns := patterns + [rest]; }
      } else if op[0] == '&' {
        if AllChannels in flags { return Error(EISDIR); }
        if HasSpaces(rest) { return Error(EINVAL); }
        if rest !in channels { channels := channels + [rest]; }
      } else if op[0] == '+' || op[0] == '-' {
        r := SetCommandRule(env, cstr);
        return;
      } else if SameText(cstr, "reset") {
        ResetUser(env);
      } else {
        return Error(EINVAL);
      }
      return NoError;
    }
  }
}
