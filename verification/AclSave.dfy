// ACLDescribeUser and ACL SAVE: a whole user as one line of text, and what loading that line makes of it.
module AclSave {
  import opened AclTable
  import opened AclRules
  import opened AclUser
  import opened AclDescribe
  import opened AclRoundTrip
  import opened AclText
  import opened AclLoad

  // ---------------------------------------------------------------- what rules keep besides the commands

  predicate NoDup(list: seq<string>) {
    forall i, j :: 0 <= i < j < |list| ==> list[i] != list[j]
  }

  predicate GoodPatterns(list: seq<string>) {
    NoDup(list) && forall i :: 0 <= i < |list| ==> !HasSpaces(list[i]) && list[i] != "*"
  }

  predicate GoodHashes(list: seq<string>) {
    NoDup(list) && forall i :: 0 <= i < |list| ==> ValidHash(list[i])
  }

  /** The flags do not contradict each other or the lists, and the lists hold what the rules let in. */
  predicate Tidy(u: UserState) {
    && (Enabled in u.flags <==> Disabled !in u.flags)
    && !(SanitizePayload in u.flags && SanitizePayloadSkip in u.flags)
    && (NoPass in u.flags ==> u.passwords == [])
    && (AllKeys in u.flags ==> u.patterns == [])
    && (AllChannels in u.flags ==> u.channels == [])
    && GoodHashes(u.passwords) && GoodPatterns(u.patterns) && GoodPatterns(u.channels)
  }

  /** The password hash is a hash. */
  ghost predicate Hashes(env: Env) {
    forall s :: ValidHash(env.hash(s))
  }

  lemma KeywordKeepsTidy(u: UserState, k: Keyword)
    requires Tidy(u)
    ensures Tidy(ApplyKeyword(u, k))
  {
    hide ValidHash, HasSpaces;
  }

  lemma AddedHash(list: seq<string>, s: string)
    requires GoodHashes(list) && ValidHash(s)
    ensures GoodHashes(Added(list, s))
  {
    hide ValidHash;
  }

  lemma AddedPattern(list: seq<string>, s: string)
    requires GoodPatterns(list) && !HasSpaces(s) && s != "*"
    ensures GoodPatterns(Added(list, s))
  {
    hide HasSpaces;
  }

  lemma {:induction false} RemovedHash(list: seq<string>, s: string)
    requires GoodHashes(list)
    ensures GoodHashes(Removed(list, s)) && forall x :: x in Removed(list, s) ==> x in list
  {
    hide ValidHash;
    if list != [] {
      var rest := list[1..];
      assert forall i :: 0 <= i < |rest| ==> rest[i] == list[i + 1];
      if list[0] != s {
        RemovedHash(rest, s);
        assert list[0] !in rest;
        assert forall i :: 1 <= i < |Removed(list, s)| ==> Removed(list, s)[i] == Removed(rest, s)[i - 1];
      }
    }
  }

  lemma StarIsKeyword(op: string)
    requires |op| == 2 && op[1..] == "*" && (op[0] == '~' || op[0] == '&')
    ensures KeywordOf(Lower(op)).Is?
  {
    assert op == "~*" || op == "&*";
    assert Lower(op) == op;
  }

  lemma ApplyKeepsTidy(env: Env, u: UserState, op: string)
    requires Tidy(u) && Hashes(env) && Apply(env, u, op).Done?
    ensures Tidy(Apply(env, u, op).user)
  {
    hide Tidy, ApplySeen, Seen, Hashes;
    SeenKeepsTidy(env, u, Seen(op));
  }

  lemma SeenKeepsTidy(env: Env, u: UserState, op: string)
    requires Tidy(u) && Hashes(env) && ApplySeen(env, u, op).Done?
    ensures Tidy(ApplySeen(env, u, op).user)
  {
    hide Tidy, KeywordOf, ApplyKeyword, SetOneCommand, AddSubcommand, SetCategory, HasSpaces, ValidHash, Lower, Bar,
         Removed;
    if op == "" {
    } else if KeywordOf(Lower(op)).Is? {
      KeywordKeepsTidy(u, KeywordOf(Lower(op)).keyword);
    } else {
      var rest := op[1..];
      TidyWith(u);
      if op[0] in {'>', '#', '<', '!'} {
        var hash := if op[0] in {'>', '<'} then env.hash(rest) else rest;
        HashRules(u, hash);
      } else if op[0] in {'~', '&'} {
        if rest == "*" {
          StarIsKeyword(op);
        } else {
          PatternRules(u, rest);
        }
      } else {
        CommandRulesKeepTidy(env, u, op);
      }
    }
  }

  lemma TidyWith(u: UserState)
    requires Tidy(u)
    ensures GoodHashes(u.passwords) && GoodPatterns(u.patterns) && GoodPatterns(u.channels)
  {
    hide GoodHashes, GoodPatterns;
  }

  lemma HashRules(u: UserState, hash: string)
    requires Tidy(u)
    ensures ValidHash(hash) ==> Tidy(AddPassword(u, hash))
    ensures RemovePassword(u, hash).Done? ==> Tidy(RemovePassword(u, hash).user)
  {
    hide ValidHash, GoodHashes, GoodPatterns;
    if ValidHash(hash) {
      AddedHash(u.passwords, hash);
    }
    RemovedHash(u.passwords, hash);
  }

  lemma PatternRules(u: UserState, pattern: string)
    requires Tidy(u) && pattern != "*"
    ensures !HasSpaces(pattern) && AllKeys !in u.flags ==> Tidy(u.(patterns := Added(u.patterns, pattern)))
    ensures !HasSpaces(pattern) && AllChannels !in u.flags ==> Tidy(u.(channels := Added(u.channels, pattern)))
  {
    hide HasSpaces, GoodHashes, GoodPatterns;
    if !HasSpaces(pattern) {
      AddedPattern(u.patterns, pattern);
      AddedPattern(u.channels, pattern);
    }
  }

  /** All but the commands and the flag for all of them. */
  function Rest(u: UserState): UserState {
    UserState(u.flags - {AllCommands}, Commands([], map[]), u.passwords, u.patterns, u.channels)
  }

  lemma TidyIsRest(u: UserState, v: UserState)
    requires Tidy(u) && Rest(v) == Rest(u)
    ensures Tidy(v)
  {
    hide GoodHashes, GoodPatterns;
    forall f: Flag | f != AllCommands ensures f in v.flags <==> f in u.flags {
      assert f in Rest(v).flags <==> f in Rest(u).flags;
    }
  }

  lemma CommandOutcomesLeaveTheRest(t: Table, u: UserState, name: string, sub: string, v: bool)
    ensures SetCategory(t, u, name, v).Done? ==> Rest(SetCategory(t, u, name, v).user) == Rest(u)
    ensures SetOneCommand(t, u, name, v).Done? ==> Rest(SetOneCommand(t, u, name, v).user) == Rest(u)
    ensures AddSubcommand(t, u, name, sub).Done? ==> Rest(AddSubcommand(t, u, name, sub).user) == Rest(u)
  {
    hide WithCategory, Touches, KnownCategory, Lookup, WithSub;
  }

  /** Rules for commands leave everything but the commands and their flag; "reset" starts anew. */
  lemma CommandRulesKeepTidy(env: Env, u: UserState, op: string)
    requires Tidy(u) && op != "" && KeywordOf(Lower(op)).NotKeyword? && op[0] !in {'>', '#', '<', '!', '~', '&'}
    requires ApplySeen(env, u, op).Done?
    ensures Tidy(ApplySeen(env, u, op).user)
  {
    hide KeywordOf, ApplyKeyword, Lower, Bar, Reset, Tidy, Rest, SetCategory, SetOneCommand, AddSubcommand, HasSpaces;
    hide ValidHash, RemovePassword, AddPassword;
    var v := ApplySeen(env, u, op).user;
    if op[0] == '+' || op[0] == '-' {
      var rest := op[1..];
      var n := Bar(rest);
      CommandOutcomesLeaveTheRest(env.table, u, rest, "", op[0] == '+');
      if rest != "" {
        CommandOutcomesLeaveTheRest(env.table, u, rest[1..], "", op[0] == '+');
      }
      if n < |rest| {
        CommandOutcomesLeaveTheRest(env.table, u, rest[..n], rest[n + 1..], true);
      }
      TidyIsRest(u, v);
    } else {
      ResetIsAfterReset(env, u);
      AfterResetTidy(env);
    }
  }

  lemma AfterResetTidy(env: Env)
    ensures Tidy(AfterReset(env))
  {
  }

  lemma {:induction false} ReachableTidy(env: Env, ops: seq<string>)
    requires Hashes(env) && ApplyAll(env, NewUser(env), ops).Done?
    ensures Tidy(ApplyAll(env, NewUser(env), ops).user)
    decreases |ops|
  {
    hide Tidy, Apply, Hashes;
    if ops == [] {
      NewUserTidy(env);
    } else {
      ReachableTidy(env, ops[..|ops| - 1]);
      ApplyKeepsTidy(env, ApplyAll(env, NewUser(env), ops[..|ops| - 1]).user, ops[|ops| - 1]);
    }
  }

  lemma NewUserTidy(env: Env)
    ensures Tidy(NewUser(env))
  {
  }

  // ---------------------------------------------------------------- the description

  function Prefixed(mark: string, items: seq<string>): seq<string> {
    seq(|items|, i requires 0 <= i < |items| => mark + items[i])
  }

  function If(c: bool, word: string): seq<string> {
    if c then [word] else []
  }

  function FlagWords(u: UserState): seq<string> {
    If(Enabled in u.flags, "on") + If(Disabled in u.flags, "off") + If(NoPass in u.flags, "nopass")
    + If(SanitizePayloadSkip in u.flags, "skip-sanitize-payload") + If(SanitizePayload in u.flags, "sanitize-payload")
  }

  function KeyWords(u: UserState): seq<string> {
    if AllKeys in u.flags then ["~*"] else Prefixed("~", u.patterns)
  }

  function ChannelWords(u: UserState): seq<string> {
    if AllChannels in u.flags then ["&*"] else ["resetchannels"] + Prefixed("&", u.channels)
  }

  /** The words of ACLDescribeUser before the command rules. */
  function HeadWords(u: UserState): seq<string> {
    FlagWords(u) + Prefixed("#", u.passwords) + KeyWords(u) + ChannelWords(u)
  }

  // ---------------------------------------------------------------- reading the words back

  lemma {:induction false} ApplyAppend(env: Env, u: UserState, xs: seq<string>, ys: seq<string>)
    requires ApplyAll(env, u, xs).Done?
    ensures ApplyAll(env, u, xs + ys) == ApplyAll(env, ApplyAll(env, u, xs).user, ys)
    decreases |ys|
  {
    hide Apply;
    if ys == [] {
      assert xs + ys == xs;
    } else {
      var zs := xs + ys;
      assert zs[..|zs| - 1] == xs + ys[..|ys| - 1] && zs[|zs| - 1] == ys[|ys| - 1];
      ApplyAppend(env, u, xs, ys[..|ys| - 1]);
    }
  }

  lemma ApplyOne(env: Env, u: UserState, word: string, k: Keyword)
    requires word != "" && NoNul(word) && KeywordOf(Lower(word)) == Is(k)
    ensures ApplyAll(env, u, [word]) == Done(ApplyKeyword(u, k))
  {
    hide Apply, KeywordOf, Lower, ApplyKeyword;
    WordApplies(env, u, word, k);
    assert [word][..0] == [];
  }

  lemma ApplyIf(env: Env, u: UserState, c: bool, word: string, k: Keyword)
    requires word != "" && NoNul(word) && KeywordOf(Lower(word)) == Is(k)
    ensures ApplyAll(env, u, If(c, word)) == Done(if c then ApplyKeyword(u, k) else u)
  {
    hide KeywordOf, Lower, ApplyKeyword;
    if c {
      ApplyOne(env, u, word, k);
    }
  }

  lemma SanitizeKeywords()
    ensures KeywordOf(Lower("skip-sanitize-payload")) == Is(SkipSanitize)
    ensures KeywordOf(Lower("sanitize-payload")) == Is(Sanitize)
  {
    assert Lower("skip-sanitize-payload") == "skip-sanitize-payload";
    assert Lower("sanitize-payload") == "sanitize-payload";
  }

  function Chosen(u: UserState, c: bool, k: Keyword): UserState {
    if c then ApplyKeyword(u, k) else u
  }

  function WithFlags(s: UserState, u: UserState): UserState {
    var a := Chosen(Chosen(s, Enabled in u.flags, On), Disabled in u.flags, Off);
    Chosen(Chosen(Chosen(a, NoPass in u.flags, AnyPass), SanitizePayloadSkip in u.flags, SkipSanitize),
           SanitizePayload in u.flags, Sanitize)
  }

  lemma FlagsReadBack(env: Env, s: UserState, u: UserState)
    ensures ApplyAll(env, s, FlagWords(u)) == Done(WithFlags(s, u))
  {
    hide ApplyAll, ApplyKeyword, KeywordOf, Lower, If;
    Keywords();
    SanitizeKeywords();
    var a := Chosen(s, Enabled in u.flags, On);
    var b := Chosen(a, Disabled in u.flags, Off);
    var c := Chosen(b, NoPass in u.flags, AnyPass);
    var d := Chosen(c, SanitizePayloadSkip in u.flags, SkipSanitize);
    var on, off := If(Enabled in u.flags, "on"), If(Disabled in u.flags, "off");
    var nopass := If(NoPass in u.flags, "nopass");
    var skip := If(SanitizePayloadSkip in u.flags, "skip-sanitize-payload");
    var sanitize := If(SanitizePayload in u.flags, "sanitize-payload");
    ApplyIf(env, s, Enabled in u.flags, "on", On);
    ApplyIf(env, a, Disabled in u.flags, "off", Off);
    ApplyIf(env, b, NoPass in u.flags, "nopass", AnyPass);
    ApplyIf(env, c, SanitizePayloadSkip in u.flags, "skip-sanitize-payload", SkipSanitize);
    ApplyIf(env, d, SanitizePayload in u.flags, "sanitize-payload", Sanitize);
    ApplyAppend(env, s, on, off);
    ApplyAppend(env, s, on + off, nopass);
    ApplyAppend(env, s, on + off + nopass, skip);
    ApplyAppend(env, s, on + off + nopass + skip, sanitize);
  }

  lemma HashWord(env: Env, s: UserState, hash: string)
    requires ValidHash(hash)
    ensures Apply(env, s, "#" + hash) == Done(AddPassword(s, hash))
  {
    hide ApplySeen, AddPassword, KeywordOf;
    SeenAll(env, s, "#" + hash);
    HashSeen(env, s, hash);
  }

  lemma HashSeen(env: Env, s: UserState, hash: string)
    requires ValidHash(hash)
    ensures ApplySeen(env, s, "#" + hash) == Done(AddPassword(s, hash))
  {
    hide ValidHash, AddPassword;
    var op := "#" + hash;
    assert op[0] == '#' && Lower(op)[0] == '#' && op[1..] == hash;
  }

  lemma {:induction false} HashesReadBack(env: Env, s: UserState, hashes: seq<string>)
    requires GoodHashes(hashes) && s.passwords == []
    ensures ApplyAll(env, s, Prefixed("#", hashes)) ==
            Done(s.(passwords := hashes, flags := if hashes == [] then s.flags else s.flags - {NoPass}))
    decreases |hashes|
  {
    hide Apply, ValidHash;
    if hashes != [] {
      var n := |hashes| - 1;
      assert Prefixed("#", hashes)[..n] == Prefixed("#", hashes[..n]);
      assert GoodHashes(hashes[..n]) && hashes[n] !in hashes[..n];
      HashesReadBack(env, s, hashes[..n]);
      HashWord(env, ApplyAll(env, s, Prefixed("#", hashes[..n])).user, hashes[n]);
      assert hashes[..n] + [hashes[n]] == hashes;
    }
  }

  lemma NoPatternKeyword(mark: char, pattern: string)
    requires (mark == '~' || mark == '&') && pattern != "*"
    ensures KeywordOf(Lower([mark] + pattern)).NotKeyword?
  {
    var l := Lower([mark] + pattern);
    assert l[0] == mark && (|pattern| >= 1 ==> l[1] == LowerChar(pattern[0]));
    assert |pattern| == 1 ==> pattern == [pattern[0]];
  }

  lemma PlainText(s: string)
    requires !HasSpaces(s)
    ensures NoNul(s)
  {
  }

  lemma KeyWord(env: Env, s: UserState, pattern: string)
    requires !HasSpaces(pattern) && pattern != "*" && AllKeys !in s.flags
    ensures Apply(env, s, "~" + pattern) == Done(s.(patterns := Added(s.patterns, pattern)))
  {
    hide HasSpaces, KeywordOf, Lower, Added;
    PlainText(pattern);
    SeenAll(env, s, "~" + pattern);
    NoPatternKeyword('~', pattern);
    assert ("~" + pattern)[1..] == pattern && ['~'] + pattern == "~" + pattern;
  }

  lemma ChannelWord(env: Env, s: UserState, pattern: string)
    requires !HasSpaces(pattern) && pattern != "*" && AllChannels !in s.flags
    ensures Apply(env, s, "&" + pattern) == Done(s.(channels := Added(s.channels, pattern)))
  {
    hide HasSpaces, KeywordOf, Lower, Added;
    PlainText(pattern);
    SeenAll(env, s, "&" + pattern);
    NoPatternKeyword('&', pattern);
    assert ("&" + pattern)[1..] == pattern && ['&'] + pattern == "&" + pattern;
  }

  lemma {:induction false} KeysReadBack(env: Env, s: UserState, patterns: seq<string>)
    requires GoodPatterns(patterns) && s.patterns == [] && AllKeys !in s.flags
    ensures ApplyAll(env, s, Prefixed("~", patterns)) == Done(s.(patterns := patterns))
    decreases |patterns|
  {
    hide Apply, HasSpaces;
    if patterns != [] {
      var n := |patterns| - 1;
      assert Prefixed("~", patterns)[..n] == Prefixed("~", patterns[..n]);
      assert GoodPatterns(patterns[..n]) && patterns[n] !in patterns[..n];
      KeysReadBack(env, s, patterns[..n]);
      KeyWord(env, s.(patterns := patterns[..n]), patterns[n]);
      assert patterns[..n] + [patterns[n]] == patterns;
    }
  }

  lemma {:induction false} ChannelsReadBack(env: Env, s: UserState, patterns: seq<string>)
    requires GoodPatterns(patterns) && s.channels == [] && AllChannels !in s.flags
    ensures ApplyAll(env, s, Prefixed("&", patterns)) == Done(s.(channels := patterns))
    decreases |patterns|
  {
    hide Apply, HasSpaces;
    if patterns != [] {
      var n := |patterns| - 1;
      assert Prefixed("&", patterns)[..n] == Prefixed("&", patterns[..n]);
      assert GoodPatterns(patterns[..n]) && patterns[n] !in patterns[..n];
      ChannelsReadBack(env, s, patterns[..n]);
      ChannelWord(env, s.(channels := patterns[..n]), patterns[n]);
      assert patterns[..n] + [patterns[n]] == patterns;
    }
  }

  /** A user without permissions, as a new or a reset one. */
  predicate Blank(s: UserState) {
    && Disabled in s.flags && Enabled !in s.flags && s.flags !! {AllKeys, NoPass, SanitizePayloadSkip}
    && s.passwords == s.patterns == s.channels == []
  }

  lemma StartsAreBlank(env: Env, u: UserState)
    ensures Blank(NewUser(env)) && Blank(Reset(env, u)) && Blank(AfterReset(env))
  {
    ResetIsAfterReset(env, u);
  }

  /** `v` is `u` again. A user that says nothing of sanitizing keeps what the start says, and the flag
      for all commands may differ between two ways to say the same. */
  ghost predicate Same(u: UserState, s: UserState, v: UserState) {
    && v.passwords == u.passwords && v.patterns == u.patterns && v.channels == u.channels
    && forall f: Flag :: f != AllCommands ==>
         (f in v.flags <==> f in u.flags || (f == SanitizePayload && f in s.flags && SanitizePayloadSkip !in u.flags))
  }

  lemma FlagsAre(s: UserState, u: UserState)
    requires Tidy(u) && Blank(s)
    ensures var a := WithFlags(s, u);
            && a.passwords == a.patterns == a.channels == [] && AllKeys !in a.flags
            && (AllChannels in a.flags <==> AllChannels in s.flags)
            && (Enabled in a.flags <==> Enabled in u.flags) && (Disabled in a.flags <==> Disabled in u.flags)
            && (NoPass in a.flags <==> NoPass in u.flags)
            && (SanitizePayloadSkip in a.flags <==> SanitizePayloadSkip in u.flags)
            && (SanitizePayload in a.flags <==>
                  SanitizePayload in u.flags || (SanitizePayload in s.flags && SanitizePayloadSkip !in u.flags))
  {
    hide GoodHashes, GoodPatterns;
  }

  lemma KeysAndChannelsReadBack(env: Env, b: UserState, u: UserState)
    requires Tidy(u) && b.patterns == b.channels == [] && AllKeys !in b.flags
    ensures ApplyAll(env, b, KeyWords(u) + ChannelWords(u)) ==
            Done(b.(patterns := u.patterns, channels := u.channels,
                    flags := b.flags + (if AllKeys in u.flags then {AllKeys} else {})
                      + (if AllChannels in u.flags then {AllChannels} else {})
                      - (if AllChannels in u.flags then {} else {AllChannels})))
  {
    hide ApplyAll, GoodHashes, GoodPatterns, KeywordOf, Lower, Prefixed;
    var kw, cw := KeyWords(u), ChannelWords(u);
    Keywords();
    if AllKeys in u.flags {
      ApplyOne(env, b, "~*", AnyKey);
    } else {
      KeysReadBack(env, b, u.patterns);
    }
    ApplyAppend(env, b, kw, cw);
    var c := ApplyAll(env, b, kw).user;
    if AllChannels in u.flags {
      ApplyOne(env, c, "&*", AnyChannel);
    } else {
      ApplyOne(env, c, "resetchannels", NoChannels);
      ApplyAppend(env, c, ["resetchannels"], Prefixed("&", u.channels));
      ChannelsReadBack(env, ApplyKeyword(c, NoChannels), u.channels);
    }
  }

  lemma HeadReadsBack(env: Env, s: UserState, u: UserState)
    requires Tidy(u) && Blank(s)
    ensures ApplyAll(env, s, HeadWords(u)).Done? && Same(u, s, ApplyAll(env, s, HeadWords(u)).user)
  {
    hide ApplyAll, WithFlags, GoodHashes, GoodPatterns, FlagWords, KeyWords, ChannelWords, Prefixed;
    var fw, pw, kw, cw := FlagWords(u), Prefixed("#", u.passwords), KeyWords(u), ChannelWords(u);
    FlagsReadBack(env, s, u);
    FlagsAre(s, u);
    var a := WithFlags(s, u);
    HashesReadBack(env, a, u.passwords);
    ApplyAppend(env, s, fw, pw);
    KeysAndChannelsReadBack(env, ApplyAll(env, a, pw).user, u);
    ApplyAppend(env, s, fw + pw, kw + cw);
    assert fw + pw + (kw + cw) == HeadWords(u);
  }

  /** A printed rule changes nothing but the commands and the flag for all of them. */
  lemma RuleLeavesTheRest(env: Env, u: UserState, r: Rule)
    requires ValidRule(env.table, r) && Apply(env, u, Text(r)).Done?
    ensures Rest(Apply(env, u, Text(r)).user) == Rest(u)
  {
    hide Apply, Text, WithCategory, Touches, KnownCategory, Lookup, ValidName;
    match r {
      case All(add) => AllMeaning(env, u, add);
      case Category(add, name) => CategoryMeaning(env, u, add, name);
      case One(add, name) => OneMeaning(env, u, add, name);
      case Sub(name, sub) => SubMeaning(env, u, name, sub);
    }
  }

  lemma {:induction false} RulesLeaveTheRest(env: Env, u: UserState, rs: seq<Rule>)
    requires ValidRules(env.table, rs) && ApplyAll(env, u, Texts(rs)).Done?
    ensures Rest(ApplyAll(env, u, Texts(rs)).user) == Rest(u)
    decreases |rs|
  {
    hide Apply, ValidRule, Text, Rest;
    if rs != [] {
      var before := rs[..|rs| - 1];
      assert Texts(rs)[..|rs| - 1] == Texts(before);
      RulesLeaveTheRest(env, u, before);
      RuleLeavesTheRest(env, ApplyAll(env, u, Texts(before)).user, rs[|rs| - 1]);
    }
  }

  lemma SameRest(u: UserState, s: UserState, v: UserState, w: UserState)
    requires Same(u, s, v) && Rest(w) == Rest(v)
    ensures Same(u, s, w)
  {
    forall f: Flag | f != AllCommands ensures f in w.flags <==> f in v.flags {
      assert f in Rest(w).flags <==> f in Rest(v).flags;
    }
  }

  /** The words of a description, applied to a new or a reset user, make it the described one. */
  lemma DescriptionReadsBack(env: Env, s: UserState, u: UserState, rules: seq<string>, rs: seq<Rule>)
    requires Tidy(u) && Blank(s) && Builds(env.table, rules, rs, u.commands)
    ensures var r := ApplyAll(env, s, HeadWords(u) + rules);
            r.Done? && r.user.commands == u.commands && Same(u, s, r.user)
  {
    hide ApplyAll, HeadWords, Tidy, Blank, Same, ApplyRules, ValidRule, Rest, Texts;
    HeadReadsBack(env, s, u);
    var v := ApplyAll(env, s, HeadWords(u)).user;
    ApplyAppend(env, s, HeadWords(u), rules);
    RulesRebuild(env, rules, rs, u.commands, v);
    RulesLeaveTheRest(env, v, rs);
    SameRest(u, s, v, ApplyAll(env, v, rules).user);
  }

  // ---------------------------------------------------------------- the text

  /** The words of a list of strings, each behind its mark. */
  method Append(res: string, ghost words: seq<string>, mark: string, items: seq<string>) returns (res': string)
    requires res == Ended(words, ' ')
    ensures res' == Ended(words + Prefixed(mark, items), ' ')
  {
    res' := res;
    assert words + Prefixed(mark, items[..0]) == words;
    for i := 0 to |items|
      invariant res' == Ended(words + Prefixed(mark, items[..i]), ' ')
    {
      EndedSnoc(words + Prefixed(mark, items[..i]), mark + items[i], ' ');
      assert words + Prefixed(mark, items[..i]) + [mark + items[i]] == words + Prefixed(mark, items[..i + 1]);
      res' := res' + mark + items[i] + " ";
    }
    assert items[..|items|] == items;
  }

  method AppendFlag(res: string, ghost words: seq<string>, c: bool, name: string) returns (res': string)
    requires res == Ended(words, ' ')
    ensures res' == Ended(words + If(c, name), ' ')
  {
    res' := res;
    if c {
      EndedSnoc(words, name, ' ');
      res' := res' + name + " ";
    } else {
      assert words + [] == words;
    }
  }

  method DescribeFlags(u: User) returns (res: string)
    ensures res == Ended(FlagWords(u.State()), ' ')
  {
    hide Ended, If;
    res := "";
    NoWords();
    ghost var w: seq<string> := [];
    res := AppendFlag(res, w, Enabled in u.flags, "on");
    w := w + If(Enabled in u.flags, "on");
    res := AppendFlag(res, w, Disabled in u.flags, "off");
    w := w + If(Disabled in u.flags, "off");
    res := AppendFlag(res, w, NoPass in u.flags, "nopass");
    w := w + If(NoPass in u.flags, "nopass");
    res := AppendFlag(res, w, SanitizePayloadSkip in u.flags, "skip-sanitize-payload");
    w := w + If(SanitizePayloadSkip in u.flags, "skip-sanitize-payload");
    res := AppendFlag(res, w, SanitizePayload in u.flags, "sanitize-payload");
    assert w + If(SanitizePayload in u.flags, "sanitize-payload") == FlagWords(u.State());
  }

  lemma NoWords()
    ensures Ended([], ' ') == ""
  {
  }

  /** ACLDescribeUser, for a user that rules have made: a line whose words give the user back. */
  method DescribeUser(env: Env, u: User, ghost history: seq<string>)
    returns (panicked: bool, res: string, ghost rules: seq<string>, ghost rs: seq<Rule>)
    requires u.Valid() && ValidTable(env.table) && Hashes(env)
    requires ApplyAll(env, NewUser(env), history) == Done(u.State())
    ensures !panicked && res == Join(HeadWords(u.State()) + rules, ' ')
    ensures Tidy(u.State()) && Sound(env.table, u.State())
    ensures Builds(env.table, rules, rs, u.Cmds()) && SubsFrom(rs, u.allowedSubcommands)
  {
    hide ValidTable, ApplyAll, Builds, GoodSubs, Hashes, Ended, Join, Prefixed;
    ghost var state := u.State();
    ReachableTidy(env, history);
    ReachableSound(env, history);
    ghost var w := FlagWords(state);
    res := DescribeFlags(u);
    res := Append(res, w, "#", u.passwords);
    w := w + Prefixed("#", u.passwords);
    if AllKeys in u.flags {
      EndedSnoc(w, "~*", ' ');
      res := res + "~*" + " ";
    } else {
      res := Append(res, w, "~", u.patterns);
    }
    w := w + KeyWords(state);
    if AllChannels in u.flags {
      EndedSnoc(w, "&*", ' ');
      res := res + "&*" + " ";
    } else {
      EndedSnoc(w, "resetchannels", ' ');
      res := res + "resetchannels" + " ";
      res := Append(res, w + ["resetchannels"], "&", u.channels);
      assert w + ["resetchannels"] + Prefixed("&", u.channels) == w + ChannelWords(state);
    }
    w := w + ChannelWords(state);
    var printed;
    panicked, printed, rs := DescribeUserCommandRules(env, u);
    rules := printed;
    assert SubsWithin(u.allowedSubcommands, env.table) == u.allowedSubcommands;
    BuildsSomething(env.table, rules, rs, u.Cmds());
    EndedThenJoined(w, rules, ' ');
    res := res + Join(printed, ' ');
  }

  lemma BuildsSomething(t: Table, rules: seq<string>, rs: seq<Rule>, c: Commands)
    requires Builds(t, rules, rs, c)
    ensures rules != []
  {
  }

}
