// What each kind of rule does to a user, field by field, and what that lets the user run.
module AclEffect {
  import opened AclTable
  import opened AclRules
  import opened AclCategory
  import opened AclDescribe
  import AclLoad

  // ---------------------------------------------------------------- the words

  const UPPER := "ABCDEFGHIJKLMNOPQRSTUVWXYZ"
  const LOWER := "abcdefghijklmnopqrstuvwxyz"

  lemma Letter(i: nat)
    requires i < 26
    ensures UPPER[i] == 'A' + i as char && LOWER[i] == 'a' + i as char
  {
  }

  /** Lower case changes the 26 letters and nothing else. */
  lemma LowerIs(s: string, i: nat)
    requires i < |s|
    ensures |Lower(s)| == |s|
    ensures forall k :: 0 <= k < 26 && s[i] == UPPER[k] ==> Lower(s)[i] == LOWER[k]
    ensures s[i] !in UPPER ==> Lower(s)[i] == s[i]
  {
    forall k | 0 <= k < 26 ensures UPPER[k] == 'A' + k as char && LOWER[k] == 'a' + k as char { Letter(k); }
    if 'A' <= s[i] <= 'Z' {
      var k := (s[i] - 'A') as int;
      assert UPPER[k] == s[i];
    }
  }

  lemma KeywordSeen(env: Env, u: UserState, op: string)
    requires KeywordOf(Lower(CStr(op))).Is?
    ensures Apply(env, u, op) == Done(ApplyKeyword(u, KeywordOf(Lower(CStr(op))).keyword))
  {
    SeenKeyword(op);
    hide KeywordOf, ApplyKeyword;
  }

  /** The words for flags, in any case, with what they change. */
  lemma FlagWords(env: Env, u: UserState, op: string)
    ensures Lower(CStr(op)) == "on" ==> Apply(env, u, op) == Done(u.(flags := u.flags + {Enabled} - {Disabled}))
    ensures Lower(CStr(op)) == "off" ==> Apply(env, u, op) == Done(u.(flags := u.flags + {Disabled} - {Enabled}))
    ensures Lower(CStr(op)) == "skip-sanitize-payload" ==>
              Apply(env, u, op) == Done(u.(flags := u.flags + {SanitizePayloadSkip} - {SanitizePayload}))
    ensures Lower(CStr(op)) == "sanitize-payload" ==>
              Apply(env, u, op) == Done(u.(flags := u.flags + {SanitizePayload} - {SanitizePayloadSkip}))
  {
    var l := Lower(CStr(op));
    hide Apply, CStr, Lower;
    if l == "on" || l == "off" || l == "skip-sanitize-payload" || l == "sanitize-payload" {
      KeywordSeen(env, u, op);
      assert u.flags - {SanitizePayloadSkip} + {SanitizePayload} == u.flags + {SanitizePayload} - {SanitizePayloadSkip};
    }
  }

  /** The words for keys, channels and passwords: each empties its list. */
  lemma ListWords(env: Env, u: UserState, op: string)
    ensures Lower(CStr(op)) in ["allkeys", "~*"] ==>
              Apply(env, u, op) == Done(u.(flags := u.flags + {AllKeys}, patterns := []))
    ensures Lower(CStr(op)) == "resetkeys" ==>
              Apply(env, u, op) == Done(u.(flags := u.flags - {AllKeys}, patterns := []))
    ensures Lower(CStr(op)) in ["allchannels", "&*"] ==>
              Apply(env, u, op) == Done(u.(flags := u.flags + {AllChannels}, channels := []))
    ensures Lower(CStr(op)) == "resetchannels" ==>
              Apply(env, u, op) == Done(u.(flags := u.flags - {AllChannels}, channels := []))
    ensures Lower(CStr(op)) == "nopass" ==>
              Apply(env, u, op) == Done(u.(flags := u.flags + {NoPass}, passwords := []))
    ensures Lower(CStr(op)) == "resetpass" ==>
              Apply(env, u, op) == Done(u.(flags := u.flags - {NoPass}, passwords := []))
  {
    hide Apply, CStr, Lower;
    if KeywordOf(Lower(CStr(op))).Is? {
      KeywordSeen(env, u, op);
    }
  }

  /** The words for all commands: every one of the 1024 bits is set or cleared and no subcommand is left. */
  lemma CommandWords(env: Env, u: UserState, op: string)
    ensures Lower(CStr(op)) in ["allcommands", "+@all"] ==>
              Apply(env, u, op) == Done(u.(flags := u.flags + {AllCommands},
                                           commands := Commands(seq(1024, _ => true), map[])))
    ensures Lower(CStr(op)) in ["nocommands", "-@all"] ==>
              Apply(env, u, op) == Done(u.(flags := u.flags - {AllCommands},
                                           commands := Commands(seq(1024, _ => false), map[])))
  {
    hide Apply, CStr, Lower;
    assert AllBits(true) == seq(1024, _ => true) && AllBits(false) == seq(1024, _ => false);
    if KeywordOf(Lower(CStr(op))).Is? {
      KeywordSeen(env, u, op);
    }
  }

  // ---------------------------------------------------------------- passwords and patterns

  lemma HexDigit(c: char)
    ensures c in "0123456789abcdef" <==> 'a' <= c <= 'f' || '0' <= c <= '9'
  {
  }

  lemma HashIs(s: string)
    ensures ValidHash(s) <==> |s| == 64 && forall i :: 0 <= i < |s| ==> s[i] in "0123456789abcdef"
  {
    forall c: char ensures c in "0123456789abcdef" <==> 'a' <= c <= 'f' || '0' <= c <= '9' { HexDigit(c); }
  }

  /** isspace() in the C locale, or a NUL. */
  predicate IsSpace(c: char) {
    c in " \t\n\U{0B}\U{0C}\r\0"
  }

  lemma SpaceIs(c: char)
    ensures IsSpace(c) <==> c == ' ' || '\t' <= c <= '\r' || c == '\0'
  {
  }

  lemma SpacesBehind(op: string)
    requires op != ""
    ensures HasSpaces(op[1..]) <==> exists i :: 1 <= i < |op| && IsSpace(op[i])
  {
    hide IsSpace;
    forall i | 1 <= i < |op|
      ensures op[1..][i - 1] == op[i]
      ensures IsSpace(op[i]) <==> op[i] == ' ' || '\t' <= op[i] <= '\r' || op[i] == '\0'
    {
      SpaceIs(op[i]);
    }
  }

  lemma {:induction false} FirstRemoved(list: seq<string>, s: string, i: nat)
    requires i < |list| && list[i] == s && s !in list[..i]
    ensures Removed(list, s) == list[..i] + list[i + 1..]
    decreases |list|
  {
    if i == 0 {
      assert list[..i] + list[i + 1..] == list[1..];
    } else {
      assert list[0] in list[..i] && list[1..][..i - 1] == list[..i][1..];
      FirstRemoved(list[1..], s, i - 1);
      assert list[..i] + list[i + 1..] == [list[0]] + (list[1..][..i - 1] + list[1..][i..]);
    }
  }

  lemma NoWord(l: string)
    requires l != "" && l[0] in {'>', '#', '<', '!'}
    ensures KeywordOf(l).NotKeyword?
  {
  }

  lemma NoStarWord(l: string)
    requires l != "" && l[0] in {'~', '&'} && l != "~*" && l != "&*"
    ensures KeywordOf(l).NotKeyword?
  {
  }

  /** Rules with a mark are read to their end, unless they say that all keys or channels are open. */
  lemma MarkedSeen(env: Env, u: UserState, op: string)
    requires op != "" && op[0] in {'>', '#', '<', '!', '~', '&'} && Lower(CStr(op)) !in ["~*", "&*"]
    ensures KeywordOf(Lower(op)).NotKeyword? && Seen(op) == op && Apply(env, u, op) == ApplySeen(env, u, op)
  {
    assert Lower(CStr(op))[0] == op[0];
    if op[0] in {'~', '&'} {
      NoStarWord(Lower(CStr(op)));
    } else {
      NoWord(Lower(CStr(op)));
    }
    SeenKeyword(op);
    hide KeywordOf;
  }

  /** '>' and '#' add a password, once, and end "nopass"; a '#' without 64 hexadecimal digits behind it is refused. */
  lemma PasswordAdded(env: Env, u: UserState, op: string)
    requires op != "" && op[0] in {'>', '#'}
    ensures op[0] == '#' && !(|op| == 65 && forall i :: 1 <= i < |op| ==> op[i] in "0123456789abcdef") ==>
              Apply(env, u, op) == Failed(EBADMSG)
    ensures op[0] == '>' || (|op| == 65 && forall i :: 1 <= i < |op| ==> op[i] in "0123456789abcdef") ==>
              var hash := if op[0] == '>' then env.hash(op[1..]) else op[1..];
              Apply(env, u, op) == Done(u.(flags := u.flags - {NoPass},
                                           passwords := if hash in u.passwords then u.passwords
                                                        else u.passwords + [hash]))
  {
    assert Lower(CStr(op))[0] == op[0];
    MarkedSeen(env, u, op);
    HashIs(op[1..]);
    assert forall i :: 0 <= i < |op[1..]| ==> op[1..][i] == op[i + 1];
    assert ValidHash(op[1..]) <==> |op| == 65 && forall i :: 1 <= i < |op| ==> op[i] in "0123456789abcdef";
    hide KeywordOf, ValidHash, Apply, Seen;
  }

  /** '<' and '!' take away the first entry of that hash and nothing else, or complain that there is none. */
  lemma PasswordRemoved(env: Env, u: UserState, op: string)
    requires op != "" && op[0] in {'<', '!'}
    ensures op[0] == '!' && !(|op| == 65 && forall i :: 1 <= i < |op| ==> op[i] in "0123456789abcdef") ==>
              Apply(env, u, op) == Failed(EBADMSG)
    ensures op[0] == '<' || (|op| == 65 && forall i :: 1 <= i < |op| ==> op[i] in "0123456789abcdef") ==>
              var hash := if op[0] == '<' then env.hash(op[1..]) else op[1..];
              && (hash !in u.passwords ==> Apply(env, u, op) == Failed(ENODEV))
              && forall i :: 0 <= i < |u.passwords| && u.passwords[i] == hash && hash !in u.passwords[..i] ==>
                   Apply(env, u, op) == Done(u.(passwords := u.passwords[..i] + u.passwords[i + 1..]))
  {
    assert Lower(CStr(op))[0] == op[0];
    MarkedSeen(env, u, op);
    HashIs(op[1..]);
    assert forall i :: 0 <= i < |op[1..]| ==> op[1..][i] == op[i + 1];
    assert ValidHash(op[1..]) <==> |op| == 65 && forall i :: 1 <= i < |op| ==> op[i] in "0123456789abcdef";
    hide KeywordOf, ValidHash, Apply, Seen;
    var hash := if op[0] == '<' then env.hash(op[1..]) else op[1..];
    forall i | 0 <= i < |u.passwords| && u.passwords[i] == hash && hash !in u.passwords[..i]
      ensures Removed(u.passwords, hash) == u.passwords[..i] + u.passwords[i + 1..]
    {
      FirstRemoved(u.passwords, hash, i);
    }
  }

  lemma PatternSeen(env: Env, u: UserState, op: string)
    requires op != "" && op[0] in {'~', '&'} && Lower(CStr(op)) !in ["~*", "&*"]
    ensures op[0] == '~' ==>
              Apply(env, u, op) == if AllKeys in u.flags then Failed(EEXIST)
                                   else if HasSpaces(op[1..]) then Failed(EINVAL)
                                   else Done(u.(patterns := if op[1..] in u.patterns then u.patterns
                                                            else u.patterns + [op[1..]]))
    ensures op[0] == '&' ==>
              Apply(env, u, op) == if AllChannels in u.flags then Failed(EISDIR)
                                   else if HasSpaces(op[1..]) then Failed(EINVAL)
                                   else Done(u.(channels := if op[1..] in u.channels then u.channels
                                                            else u.channels + [op[1..]]))
  {
    MarkedSeen(env, u, op);
    hide KeywordOf, HasSpaces, Apply, Seen;
  }

  /** '~' adds a pattern for keys, once; not while all keys are open, and not with a space in it. */
  lemma KeyPatternAdded(env: Env, u: UserState, op: string)
    requires op != "" && op[0] == '~' && Lower(CStr(op)) != "~*"
    ensures AllKeys in u.flags ==> Apply(env, u, op) == Failed(EEXIST)
    ensures AllKeys !in u.flags && (exists i :: 1 <= i < |op| && IsSpace(op[i])) ==>
              Apply(env, u, op) == Failed(EINVAL)
    ensures AllKeys !in u.flags && (forall i :: 1 <= i < |op| ==> !IsSpace(op[i])) ==>
              Apply(env, u, op) == Done(u.(patterns := if op[1..] in u.patterns then u.patterns
                                                       else u.patterns + [op[1..]]))
  {
    hide Apply, HasSpaces, IsSpace, CStr, KeywordOf, ApplySeen, Seen;
    assert Lower(CStr(op))[0] == op[0];
    PatternSeen(env, u, op);
    SpacesBehind(op);
  }

  /** '&' does so for channels. */
  lemma ChannelPatternAdded(env: Env, u: UserState, op: string)
    requires op != "" && op[0] == '&' && Lower(CStr(op)) != "&*"
    ensures AllChannels in u.flags ==> Apply(env, u, op) == Failed(EISDIR)
    ensures AllChannels !in u.flags && (exists i :: 1 <= i < |op| && IsSpace(op[i])) ==>
              Apply(env, u, op) == Failed(EINVAL)
    ensures AllChannels !in u.flags && (forall i :: 1 <= i < |op| ==> !IsSpace(op[i])) ==>
              Apply(env, u, op) == Done(u.(channels := if op[1..] in u.channels then u.channels
                                                       else u.channels + [op[1..]]))
  {
    hide Apply, HasSpaces, IsSpace, CStr, KeywordOf, ApplySeen, Seen;
    assert Lower(CStr(op))[0] == op[0];
    PatternSeen(env, u, op);
    SpacesBehind(op);
  }

  // ---------------------------------------------------------------- commands and categories

  lemma SignedWord(c: string, rest: string)
    requires c == "+" + rest || c == "-" + rest
    requires Lower(rest) != "@all"
    ensures c[1..] == rest && KeywordOf(Lower(c)).NotKeyword?
  {
    hide KeywordOf, Lower;
    assert Lower(c)[0] == c[0] && Lower(c)[1..] == Lower(rest) && c[1..] == rest;
    PlusMinusKeywords(Lower(c));
    assert "+@all"[1..] == "@all" && "-@all"[1..] == "@all";
  }

  lemma SignedSeen(env: Env, u: UserState, op: string, rest: string)
    requires CStr(op) == "+" + rest || CStr(op) == "-" + rest
    requires Lower(rest) != "@all"
    ensures op != "" && op[0] == CStr(op)[0] && op[0] in {'+', '-'} && CStr(op)[1..] == rest
    ensures KeywordOf(Lower(CStr(op))).NotKeyword? && Apply(env, u, op) == ApplySeen(env, u, CStr(op))
  {
    hide CStr, ApplySeen, KeywordOf, Lower;
    SignedWord(CStr(op), rest);
  }

  lemma CategorySeen(env: Env, u: UserState, op: string, name: string)
    requires CStr(op) == "+@" + name || CStr(op) == "-@" + name
    requires Lower(name) != "all"
    ensures op != "" && Apply(env, u, op) == SetCategory(env.table, u, name, op[0] == '+')
  {
    var rest := "@" + name;
    hide CStr, KeywordOf, Apply, SetCategory, ApplySeen, Lower;
    assert CStr(op) == "+" + rest || CStr(op) == "-" + rest;
    assert Lower(rest)[1..] == Lower(name);
    assert "@all"[1..] == "all";
    SignedSeen(env, u, op, rest);
    SeenCategory(env, u, CStr(op), name);
  }

  lemma SeenCategory(env: Env, u: UserState, c: string, name: string)
    requires |c| >= 2 && c[0] in {'+', '-'} && c[1..] == "@" + name && KeywordOf(Lower(c)).NotKeyword?
    ensures ApplySeen(env, u, c) == SetCategory(env.table, u, name, c[0] == '+')
  {
    hide KeywordOf, SetCategory, Lower;
    assert c[1..][1..] == name;
  }

  /** "+@name" and "-@name", in any case: for every command of the table that is no module's and has that category the
      bit is set or cleared and no subcommand is left; no other bit and no other subcommand changes. Clearing a bit
      ends ALLCOMMANDS. */
  lemma CategoryRule(env: Env, u: UserState, op: string, name: string)
    requires ValidTable(env.table) && |u.commands.bits| == COMMAND_BITS
    requires CStr(op) == "+@" + name || CStr(op) == "-@" + name
    requires Lower(name) in CATEGORIES
    ensures Apply(env, u, op).Done?
    ensures var t, c, d := env.table, u.commands, Apply(env, u, op).user.commands;
            && |d.bits| == COMMAND_BITS
            && (forall i :: 0 <= i < |t| ==>
                  t[i].id < COMMAND_BITS
                  && if !t[i].isModule && exists n :: n in t[i].categories && Lower(n) == Lower(name)
                     then d.bits[t[i].id] == (op[0] == '+') && t[i].id !in d.subs
                     else d.bits[t[i].id] == c.bits[t[i].id] && SubsOf(d, t[i].id) == SubsOf(c, t[i].id))
            && (forall id: nat :: id < COMMAND_BITS && (forall i :: 0 <= i < |t| ==> t[i].id != id) ==>
                  d.bits[id] == c.bits[id] && SubsOf(d, id) == SubsOf(c, id))
    ensures var v := Apply(env, u, op).user;
            && v.passwords == u.passwords && v.patterns == u.patterns && v.channels == u.channels
            && v.flags == if op[0] == '-' && exists i, n :: 0 <= i < |env.table| && !env.table[i].isModule &&
                                                            n in env.table[i].categories && Lower(n) == Lower(name)
                          then u.flags - {AllCommands} else u.flags
  {
    AllIsNoCategory(name);
    CategoryIs(name);
    CategorySeen(env, u, op, name);
    CategoryCommands(env.table, u.commands, name, op[0] == '+');
    TouchesIs(env.table, name);
    hide Apply, CStr, Lower, ValidTable, WithCategory, InCategory, Touches, KnownCategory, SubsOf, CATEGORIES;
    forall i | 0 <= i < |env.table|
      ensures InCategory(env.table[i], name) <==> exists n :: n in env.table[i].categories && Lower(n) == Lower(name)
    {
      InCategoryIs(env.table[i], name);
    }
  }

  lemma AllIsNoCategory(name: string)
    requires Lower(name) in CATEGORIES
    ensures Lower(name) != "all"
  {
    NoCategoryIsAll(Lower(name));
  }

  /** A name of no category is refused. */
  lemma UnknownCategory(env: Env, u: UserState, op: string, name: string)
    requires CStr(op) == "+@" + name || CStr(op) == "-@" + name
    requires Lower(name) !in CATEGORIES && Lower(name) != "all"
    ensures Apply(env, u, op) == Failed(ENOENT)
  {
    CategoryIs(name);
    CategorySeen(env, u, op, name);
    hide Apply, CStr, KnownCategory, CATEGORIES;
  }

  lemma NotAll(rest: string)
    requires rest == "" || rest[0] != '@'
    ensures Lower(rest) != "@all"
  {
    assert rest != "" ==> Lower(rest)[0] == LowerChar(rest[0]);
  }

  lemma SeenCommand(env: Env, u: UserState, c: string, rest: string)
    requires |c| >= 1 && c[0] in {'+', '-'} && c[1..] == rest && KeywordOf(Lower(c)).NotKeyword?
    requires rest == "" || rest[0] != '@'
    ensures c[0] == '-' || Bar(rest) == |rest| ==>
              ApplySeen(env, u, c) == SetOneCommand(env.table, u, rest, c[0] == '+')
    ensures c[0] == '+' && Bar(rest) < |rest| ==>
              ApplySeen(env, u, c) == AddSubcommand(env.table, u, rest[..Bar(rest)], rest[Bar(rest) + 1..])
  {
    hide KeywordOf, SetOneCommand, AddSubcommand, SetCategory, Bar, Lower, HasSpaces, ValidHash, Reset, RemovePassword;
    hide AddPassword, Added, SameText;
  }

  lemma Found(t: Table, name: string, i: nat)
    requires ValidTable(t) && i < |t| && t[i].name == Lower(name)
    ensures Lookup(t, name) == i && t[i].id < FUTURE_COMMANDS
  {
    hide Lookup, ValidName;
    assert ValidCommand(t[i]);
  }

  /** "+name" and "-name", in any case: the bit of that command is set or cleared and its subcommands go; clearing it
      ends ALLCOMMANDS. A name of no command is refused. */
  lemma CommandRule(env: Env, u: UserState, op: string, name: string)
    requires ValidTable(env.table) && |u.commands.bits| == COMMAND_BITS
    requires (CStr(op) == "+" + name && '|' !in name) || CStr(op) == "-" + name
    requires name == "" || name[0] != '@'
    ensures (forall i :: 0 <= i < |env.table| ==> env.table[i].name != Lower(name)) ==>
              Apply(env, u, op) == Failed(ENOENT)
    ensures forall i :: 0 <= i < |env.table| && env.table[i].name == Lower(name) ==>
              && env.table[i].id < COMMAND_BITS
              && var id, c, v := env.table[i].id, u.commands, op[0] == '+';
                 Apply(env, u, op) == Done(u.(commands := Commands(c.bits[id := v], c.subs - {id}),
                                              flags := if v then u.flags else u.flags - {AllCommands}))
  {
    NotAll(name);
    SignedSeen(env, u, op, name);
    SeenCommand(env, u, CStr(op), name);
    hide Apply, ApplySeen, CStr, KeywordOf, Lower, ValidTable;
    forall i | 0 <= i < |env.table| && env.table[i].name == Lower(name)
      ensures Lookup(env.table, name) == i && env.table[i].id < FUTURE_COMMANDS
    {
      Found(env.table, name, i);
    }
  }

  lemma AddedIs(c: Commands, id: nat, sub: string)
    ensures WithSub(c, id, sub)
            == if exists k :: 0 <= k < |SubsOf(c, id)| && Lower(SubsOf(c, id)[k]) == Lower(sub) then c
               else Commands(c.bits, c.subs[id := SubsOf(c, id) + [sub]])
  {
    hide Lower;
    var list := SubsOf(c, id);
    if k :| 0 <= k < |list| && Lower(list[k]) == Lower(sub) {
      assert SameText(list[k], sub);
      assert c.subs[id := list] == c.subs;
    } else {
      assert forall k :: 0 <= k < |list| ==> !SameText(list[k], sub);
    }
  }

  lemma BarIs(name: string, sub: string)
    requires '|' !in name
    ensures var rest := name + "|" + sub;
            && Bar(rest) == |name| && rest[..|name|] == name && rest[|name| + 1..] == sub
  {
    assert name + "|" + sub == name + ("|" + sub);
    BarAfter(name, "|" + sub);
  }

  /** "+name|sub": an empty subcommand is refused; a command whose bit is set stays as it is; otherwise the subcommand
      is put behind the others unless it is there in some case. */
  lemma SubcommandRule(env: Env, u: UserState, op: string, name: string, sub: string)
    requires ValidTable(env.table) && |u.commands.bits| == COMMAND_BITS
    requires CStr(op) == "+" + (name + "|" + sub) && '|' !in name && (name == "" || name[0] != '@')
    ensures (forall i :: 0 <= i < |env.table| ==> env.table[i].name != Lower(name)) ==>
              Apply(env, u, op) == Failed(ENOENT)
    ensures forall i :: 0 <= i < |env.table| && env.table[i].name == Lower(name) ==>
              && env.table[i].id < COMMAND_BITS
              && var id, c := env.table[i].id, u.commands;
                 Apply(env, u, op)
                 == if sub == "" then Failed(EINVAL)
                    else if c.bits[id] || exists k :: 0 <= k < |SubsOf(c, id)| && Lower(SubsOf(c, id)[k]) == Lower(sub)
                    then Done(u)
                    else Done(u.(commands := Commands(c.bits, c.subs[id := SubsOf(c, id) + [sub]])))
  {
    var rest := name + "|" + sub;
    NotAll(rest);
    SignedSeen(env, u, op, rest);
    BarIs(name, sub);
    SeenCommand(env, u, CStr(op), rest);
    hide Apply, ApplySeen, CStr, KeywordOf, Lower, ValidTable, Bar;
    forall i | 0 <= i < |env.table| && env.table[i].name == Lower(name)
      ensures env.table[i].id < FUTURE_COMMANDS && Lookup(env.table, name) == i
      ensures WithSub(u.commands, env.table[i].id, sub)
              == var id, c := env.table[i].id, u.commands;
                 if exists k :: 0 <= k < |SubsOf(c, id)| && Lower(SubsOf(c, id)[k]) == Lower(sub) then c
                 else Commands(c.bits, c.subs[id := SubsOf(c, id) + [sub]])
    {
      Found(env.table, name, i);
      AddedIs(u.commands, env.table[i].id, sub);
    }
  }

  // ---------------------------------------------------------------- the remaining rules

  lemma ResetSeen(env: Env, u: UserState, op: string)
    requires Lower(CStr(op)) == "reset"
    ensures Apply(env, u, op) == Done(Reset(env, u))
  {
    hide KeywordOf, CStr, Reset, Lower, ApplySeen;
    NoOther("reset");
    ResetHead(CStr(op));
    assert op[0] == CStr(op)[0];
    SeenOther(env, u, CStr(op));
  }

  lemma ResetHead(c: string)
    requires Lower(c) == "reset"
    ensures c != "" && c[0] in {'r', 'R'}
  {
    assert Lower(c)[0] == LowerChar(c[0]);
  }

  /** "reset", in any case, leaves nothing of what the user was. */
  lemma ResetRule(env: Env, u: UserState, op: string)
    requires Lower(CStr(op)) == "reset"
    ensures Apply(env, u, op)
            == Done(UserState({Disabled, SanitizePayload} + if env.pubsubAllChannels then {AllChannels} else {},
                              Commands(seq(1024, _ => false), map[]), [], [], []))
  {
    ResetSeen(env, u, op);
    AclLoad.ResetIsAfterReset(env, u);
    hide Apply, CStr, Lower, Reset;
    assert AllBits(false) == seq(1024, _ => false);
  }

  const WORDS := ["on", "off", "skip-sanitize-payload", "sanitize-payload", "allkeys", "resetkeys", "allchannels",
                  "resetchannels", "allcommands", "nocommands", "nopass", "resetpass"]

  lemma NoOther(l: string)
    requires l !in WORDS && (l == "" || l[0] !in {'~', '&', '+', '-'})
    ensures KeywordOf(l).NotKeyword?
  {
  }

  lemma SeenOther(env: Env, u: UserState, c: string)
    requires c != "" && c[0] !in {'>', '#', '<', '!', '~', '&', '+', '-'} && KeywordOf(Lower(c)).NotKeyword?
    ensures ApplySeen(env, u, c) == if Lower(c) == "reset" then Done(Reset(env, u)) else Failed(EINVAL)
  {
    hide KeywordOf, SetOneCommand, AddSubcommand, SetCategory, Bar, HasSpaces, ValidHash, Reset, RemovePassword;
    hide AddPassword, Added;
    assert Lower("reset") == "reset";
  }

  /** Whatever is no word and has no mark is refused, also a NUL in front; the empty rule does nothing. */
  lemma OtherRules(env: Env, u: UserState, op: string)
    ensures op == "" ==> Apply(env, u, op) == Done(u)
    ensures op != "" && op[0] !in {'>', '#', '<', '!', '~', '&', '+', '-'} &&
            Lower(CStr(op)) !in WORDS && Lower(CStr(op)) != "reset" ==>
              Apply(env, u, op) == Failed(EINVAL)
  {
    if op == "" {
      NothingIsNoKeyword();
    } else if op[0] != '\0' && op[0] !in {'>', '#', '<', '!', '~', '&', '+', '-'} && Lower(CStr(op)) !in WORDS {
      var c := CStr(op);
      assert c != "" && c[0] == op[0] && Lower(c)[0] == LowerChar(c[0]);
      hide KeywordOf, CStr, Reset, Lower, ApplySeen, WORDS;
      NoOther(Lower(c));
      assert Seen(op) == c;
      SeenOther(env, u, c);
    }
  }

  // ---------------------------------------------------------------- what the user may run

  /** With equal bit and subcommands, and unless only one of them may run everything, the verdicts are equal. */
  lemma SameVerdict(t: Table, u: UserState, v: UserState, cmd: Command, argv: seq<string>)
    requires Sound(t, u) && Sound(t, v) && cmd.id < COMMAND_BITS
    requires u.commands.bits[cmd.id] == v.commands.bits[cmd.id]
             && SubsOf(u.commands, cmd.id) == SubsOf(v.commands, cmd.id)
    ensures MayRun(u, cmd, argv) <==> MayRun(v, cmd, argv)
  {
    hide SubsOf, Uniform, SubsFine, Ids, Lower, CStr;
  }

  lemma BitDecides(t: Table, v: UserState, cmd: Command, argv: seq<string>)
    requires Sound(t, v) && cmd.id < COMMAND_BITS && cmd.id !in v.commands.subs
    ensures MayRun(v, cmd, argv) <==> v.commands.bits[cmd.id] || cmd.noAuth
  {
    hide Uniform, SubsFine, Ids, Lower, CStr;
  }

  /** After "+name" the user may run the command with any arguments, after "-name" not at all unless it needs no
      authentication; for every other command of the table nothing changes. */
  lemma CommandRuleVerdicts(env: Env, u: UserState, op: string, name: string, i: nat, j: nat, argv: seq<string>)
    requires ValidTable(env.table) && Sound(env.table, u) && i < |env.table| && j < |env.table|
    requires (CStr(op) == "+" + name && '|' !in name) || CStr(op) == "-" + name
    requires (name == "" || name[0] != '@') && env.table[i].name == Lower(name)
    ensures op != "" && Apply(env, u, op).Done?
    ensures MayRun(Apply(env, u, op).user, env.table[j], argv)
            <==> if j == i then op[0] == '+' || env.table[i].noAuth else MayRun(u, env.table[j], argv)
  {
    hide Apply, CStr, Lower, Sound, MayRun, ValidTable, WellFormed, Lookup;
    SoundSize(env.table, u);
    CommandRule(env, u, op, name);
    ApplyKeepsSound(env, u, op);
    CommandVerdict(env.table, u, Apply(env, u, op).user, op[0] == '+', i, j, argv);
  }

  lemma CommandVerdict(t: Table, u: UserState, v: UserState, bit: bool, i: nat, j: nat, argv: seq<string>)
    requires ValidTable(t) && Sound(t, u) && Sound(t, v) && i < |t| && j < |t| && t[i].id < |u.commands.bits|
    requires v.commands == Commands(u.commands.bits[t[i].id := bit], u.commands.subs - {t[i].id})
    ensures MayRun(v, t[j], argv) <==> if j == i then bit || t[i].noAuth else MayRun(u, t[j], argv)
  {
    hide Sound, MayRun, ValidTable;
    SoundSize(t, u);
    if i == j {
      BitDecides(t, v, t[i], argv);
    } else {
      Apart(t, i, j);
      SameVerdict(t, u, v, t[j], argv);
    }
  }

  lemma SoundSize(t: Table, u: UserState)
    requires Sound(t, u)
    ensures |u.commands.bits| == COMMAND_BITS
  {
  }

  lemma Apart(t: Table, i: nat, j: nat)
    requires ValidTable(t) && i < |t| && j < |t| && i != j
    ensures t[i].id != t[j].id && t[i].id < COMMAND_BITS && t[j].id < COMMAND_BITS
  {
    hide ValidName;
    assert ValidCommand(t[i]) && ValidCommand(t[j]);
  }

  /** After "+@name" the user may run every command of the category that is no module's, after "-@name" only those of
      them that need no authentication; for all others nothing changes. */
  lemma CategoryRuleVerdicts(env: Env, u: UserState, op: string, name: string, j: nat, argv: seq<string>)
    requires ValidTable(env.table) && Sound(env.table, u) && j < |env.table|
    requires CStr(op) == "+@" + name || CStr(op) == "-@" + name
    requires Lower(name) in CATEGORIES
    ensures op != "" && Apply(env, u, op).Done?
    ensures MayRun(Apply(env, u, op).user, env.table[j], argv)
            <==> if !env.table[j].isModule && exists n :: n in env.table[j].categories && Lower(n) == Lower(name)
                 then op[0] == '+' || env.table[j].noAuth else MayRun(u, env.table[j], argv)
  {
    SoundSize(env.table, u);
    CategoryRule(env, u, op, name);
    ApplyKeepsSound(env, u, op);
    hide Apply, CStr, Lower, Sound, MayRun, ValidTable, WellFormed, SubsOf, CATEGORIES;
    var v := Apply(env, u, op).user;
    if !env.table[j].isModule && exists n :: n in env.table[j].categories && Lower(n) == Lower(name) {
      BitDecides(env.table, v, env.table[j], argv);
    } else {
      SameVerdict(env.table, u, v, env.table[j], argv);
    }
  }

  /** After "+name|sub" the user may run what it could run before, and the command with that first argument in any
      case. */
  lemma SubcommandRuleVerdicts(env: Env, u: UserState, op: string, name: string, sub: string, i: nat, j: nat,
                               argv: seq<string>)
    requires ValidTable(env.table) && Sound(env.table, u) && i < |env.table| && j < |env.table|
    requires CStr(op) == "+" + (name + "|" + sub) && '|' !in name && (name == "" || name[0] != '@') && sub != ""
    requires env.table[i].name == Lower(name)
    ensures Apply(env, u, op).Done?
    ensures MayRun(Apply(env, u, op).user, env.table[j], argv)
            <==> MayRun(u, env.table[j], argv) || (j == i && |argv| >= 2 && Lower(CStr(argv[1])) == Lower(sub))
  {
    SoundSize(env.table, u);
    SubcommandRule(env, u, op, name, sub);
    hide Apply, CStr, Lower, Sound, MayRun, ValidTable, WellFormed;
    if i != j { Apart(env.table, i, j); }
    SubcommandVerdict(u, Apply(env, u, op).user, env.table[i], env.table[j], sub, argv);
  }

  lemma SubcommandVerdict(u: UserState, v: UserState, cmd: Command, other: Command, sub: string, argv: seq<string>)
    requires |u.commands.bits| == COMMAND_BITS && cmd.id < COMMAND_BITS && (other == cmd || other.id != cmd.id)
    requires var c, id := u.commands, cmd.id;
             v == if c.bits[id] || exists k :: 0 <= k < |SubsOf(c, id)| && Lower(SubsOf(c, id)[k]) == Lower(sub) then u
                  else u.(commands := Commands(c.bits, c.subs[id := SubsOf(c, id) + [sub]]))
    ensures MayRun(v, other, argv)
            <==> MayRun(u, other, argv) || (other == cmd && |argv| >= 2 && Lower(CStr(argv[1])) == Lower(sub))
  {
    hide Lower, CStr;
    var list := SubsOf(u.commands, cmd.id);
    assert |list + [sub]| > |list|;
    if other == cmd && v != u {
      var more := SubsOf(v.commands, cmd.id);
      assert more == list + [sub];
      if |argv| >= 2 {
        if k :| 0 <= k < |list| && SameText(CStr(argv[1]), list[k]) {
          assert SameText(CStr(argv[1]), more[k]);
        }
        if Lower(CStr(argv[1])) == Lower(sub) {
          assert SameText(CStr(argv[1]), more[|list|]);
        }
      }
    } else if other == cmd && !u.commands.bits[cmd.id] && |argv| >= 2 && Lower(CStr(argv[1])) == Lower(sub) {
      var k :| 0 <= k < |list| && Lower(list[k]) == Lower(sub);
      assert SameText(CStr(argv[1]), list[k]);
    } else if other != cmd {
      assert SubsOf(v.commands, other.id) == SubsOf(u.commands, other.id);
    }
  }

  /** "+@all" lets the user run everything, whatever will be loaded later; "-@all" leaves what needs no
      authentication. */
  lemma AllRuleVerdicts(env: Env, u: UserState, op: string, cmd: Command, argv: seq<string>)
    ensures Lower(CStr(op)) in ["allcommands", "+@all"] ==>
              Apply(env, u, op).Done? && MayRun(Apply(env, u, op).user, cmd, argv)
    ensures Lower(CStr(op)) in ["nocommands", "-@all"] ==>
              Apply(env, u, op).Done? && (MayRun(Apply(env, u, op).user, cmd, argv) <==> cmd.noAuth)
  {
    CommandWords(env, u, op);
    hide Apply, CStr, Lower;
  }
}
