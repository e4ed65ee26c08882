// ACL SAVE, then ACL LOAD: the file as one text, what is read back from it, and for which users that is what was saved.
module AclFile {
  import opened AclTable
  import opened AclRules
  import opened AclUser
  import opened AclDescribe
  import opened AclRoundTrip
  import opened AclText
  import opened AclLoad
  import opened AclSave

  // ---------------------------------------------------------------- one saved line

  const BLANKS: string := "\t\r\n"

  /** A word that splitting and trimming give back. */
  predicate Clean(w: string) {
    ' ' !in w && '\n' !in w && Trim(w, BLANKS) == w
  }

  lemma {:induction false} Trimmed(s: string, cset: string)
    ensures |Trim(s, cset)| <= |s| && (forall c :: c in Trim(s, cset) ==> c in s)
    ensures Trim(s, cset) != "" ==> Trim(s, cset)[0] !in cset && Trim(s, cset)[|Trim(s, cset)| - 1] !in cset
    ensures Trim(s, cset) == s <==> s == "" || (s[0] !in cset && s[|s| - 1] !in cset)
    decreases |s|
  {
    if s != "" && s[0] in cset {
      Trimmed(s[1..], cset);
    } else if s != "" && s[|s| - 1] in cset {
      Trimmed(s[..|s| - 1], cset);
    }
  }

  function SavedLine(name: string, words: seq<string>): string {
    "user " + name + " " + Join(words, ' ')
  }

  lemma SavedLineIsJoined(name: string, words: seq<string>)
    requires words != []
    ensures SavedLine(name, words) == Join(["user", name] + words, ' ')
  {
    var all := ["user", name] + words;
    assert all[1..] == [name] + words && all[1..][1..] == words;
  }

  lemma {:induction false} JoinEnds(words: seq<string>)
    requires words != [] && words[|words| - 1] != ""
    ensures Join(words, ' ') != ""
            && Join(words, ' ')[|Join(words, ' ')| - 1] == words[|words| - 1][|words[|words| - 1]| - 1]
    decreases |words|
  {
    if |words| > 1 {
      JoinEnds(words[1..]);
    }
  }

  /** The line, saved alone, is read back: as one line, and as the user and the words it was made of. */
  predicate ReadBack(name: string, words: seq<string>) {
    var raw := SavedLine(name, words);
    FileLines(raw + "\n") == [raw, ""] && ParseLine(raw) == Rules(name, words)
  }

  /** It is exactly when every word is clean. */
  lemma LineParsesBack(name: string, words: seq<string>)
    requires !HasSpaces(name) && words != [] && forall i :: 0 <= i < |words| ==> words[i] != ""
    ensures ReadBack(name, words) <==> forall i :: 0 <= i < |words| ==> Clean(words[i])
  {
    hide Split, Join, Trim, HasSpaces, ParseLine, FileLines;
    var raw := SavedLine(name, words);
    if forall i :: 0 <= i < |words| ==> Clean(words[i]) {
      CleanLineParses(name, words);
      CleanLineIsOne(name, words);
      OneLineFile(raw);
    }
    if ReadBack(name, words) {
      LineOfFile(raw + "\n", 0);
      forall i | 0 <= i < |words| ensures Clean(words[i]) {
        ParsedOpIsClean(raw, i);
      }
    }
  }

  /** The lines of a file have no newline. */
  lemma LineOfFile(acls: string, i: nat)
    requires i < |FileLines(acls)|
    ensures '\n' !in FileLines(acls)[i] && forall c :: c in FileLines(acls)[i] ==> c in acls
  {
    hide Split;
    if acls != "" {
      PartsHaveNoSep(acls, '\n', i);
    }
  }

  lemma OneLineFile(raw: string)
    requires '\n' !in raw
    ensures FileLines(raw + "\n") == [raw, ""]
  {
    hide Split;
    var parts := [raw, ""];
    assert parts[1..] == [""];
    assert Join(parts, '\n') == raw + "\n";
    SplitOfJoin(parts, '\n');
  }

  /** The rules of a line are clean words, whatever the line. */
  lemma ParsedOpIsClean(raw: string, i: nat)
    requires '\n' !in raw && ParseLine(raw).Rules? && i < |ParseLine(raw).ops|
    ensures Clean(ParseLine(raw).ops[i]) && forall c :: c in ParseLine(raw).ops[i] ==> c in raw
  {
    hide Split, Trim, HasSpaces;
    var line := Trim(raw, " \t\r\n");
    var argv := Split(line, ' ');
    Trimmed(raw, " \t\r\n");
    PartsHaveNoSep(line, ' ', i + 2);
    Trimmed(argv[i + 2], BLANKS);
    Trimmed(Trim(argv[i + 2], BLANKS), BLANKS);
  }

  lemma CleanLineParses(name: string, words: seq<string>)
    requires !HasSpaces(name) && words != []
    requires forall i :: 0 <= i < |words| ==> words[i] != "" && Clean(words[i])
    ensures ParseLine(SavedLine(name, words)) == Rules(name, words)
  {
    hide Split, Join, Trim;
    var raw, all := SavedLine(name, words), ["user", name] + words;
    var last := words[|words| - 1];
    SavedLineIsJoined(name, words);
    JoinEnds(all);
    Trimmed(last, BLANKS);
    Trimmed(raw, " \t\r\n");
    assert raw[0] == 'u' && raw[|raw| - 1] == last[|last| - 1] && last[|last| - 1] != ' ';
    assert Trim(raw, " \t\r\n") == raw;
    assert ' ' !in name;
    SplitOfJoin(all, ' ');
    assert all[2..] == words && TrimAll(all[2..]) == words;
  }

  lemma CleanLineIsOne(name: string, words: seq<string>)
    requires !HasSpaces(name) && words != [] && forall i :: 0 <= i < |words| ==> Clean(words[i])
    ensures '\n' !in SavedLine(name, words)
  {
    hide Trim, Join;
    SavedLineIsJoined(name, words);
    JoinedHas(["user", name] + words, ' ', '\n');
  }

  /** What is in the joined text is in a part, or the separator. */
  lemma {:induction false} JoinedHas(parts: seq<string>, sep: char, c: char)
    requires c != sep && forall i :: 0 <= i < |parts| ==> c !in parts[i]
    ensures c !in Join(parts, sep)
    decreases |parts|
  {
    if |parts| > 1 {
      JoinedHas(parts[1..], sep, c);
    }
  }

  // ---------------------------------------------------------------- which users save to clean words

  /** No command's name contains white space. */
  predicate PlainNames(t: Table) {
    forall i :: 0 <= i < |t| ==> !HasSpaces(t[i].name)
  }

  /** A subcommand may not contain a space or a newline, nor end with another blank. */
  predicate CleanSub(sub: string) {
    sub != "" && ' ' !in sub && '\n' !in sub && sub[|sub| - 1] !in BLANKS
  }

  lemma CleanIs(w: string)
    requires w != "" && w[0] !in BLANKS
    ensures Clean(w) <==> ' ' !in w && '\n' !in w && w[|w| - 1] !in BLANKS
  {
    hide Trim;
    Trimmed(w, BLANKS);
  }

  lemma NoSpacesIsClean(mark: string, s: string)
    requires |mark| == 1 && mark[0] != ' ' && mark[0] !in BLANKS && !HasSpaces(s)
    ensures Clean(mark + s)
  {
    hide Trim, Clean;
    var w := mark + s;
    forall i | 0 <= i < |w| ensures w[i] != ' ' && w[i] !in BLANKS {
      assert i > 0 ==> w[i] == s[i - 1];
    }
    CleanIs(w);
  }

  lemma SubIsClean(name: string, sub: string)
    requires !HasSpaces(name) && sub != ""
    ensures Text(Sub(name, sub)) != "" && (Clean(Text(Sub(name, sub))) <==> CleanSub(sub))
  {
    hide Clean, HasSpaces;
    var w := Text(Sub(name, sub));
    CleanIs(w);
    NoSpacesIn(name);
    forall i | 0 <= i < |sub| ensures w[|name| + 2 + i] == sub[i] {
    }
    assert ' ' in sub ==> ' ' in w;
    assert ' ' in w ==> ' ' in sub;
    assert '\n' in sub ==> '\n' in w;
    assert '\n' in w ==> '\n' in sub;
  }

  lemma CategoryIsClean(add: bool, name: string)
    requires name in CATEGORIES
    ensures Text(Category(add, name)) != "" && Clean(Text(Category(add, name)))
  {
    hide Clean, CATEGORIES;
    CategoriesAreLetters(name);
    var w := Text(Category(add, name));
    forall i | 0 <= i < |w| ensures w[i] != ' ' && w[i] != '\n' {
      assert i >= 2 ==> w[i] == name[i - 2];
    }
    assert w[|w| - 1] == name[|name| - 1];
    CleanIs(w);
  }

  lemma AllIsClean(add: bool)
    ensures Text(All(add)) != "" && Clean(Text(All(add)))
  {
    hide Clean;
    CleanIs(Text(All(add)));
  }

  lemma RuleIsClean(t: Table, r: Rule)
    requires ValidRule(t, r) && PlainNames(t)
    ensures Text(r) != "" && (Clean(Text(r)) <==> !r.Sub? || CleanSub(r.sub))
  {
    hide Clean, CleanSub, HasSpaces, Lookup;
    match r {
      case All(add) =>
        AllIsClean(add);
      case Category(add, name) =>
        CategoryIsClean(add, name);
      case One(add, name) =>
        assert name == t[Lookup(t, name)].name;
        NoSpacesIsClean(Sign(add), name);
      case Sub(name, sub) =>
        assert name == t[Lookup(t, name)].name;
        SubIsClean(name, sub);
    }
  }

  lemma NoSpacesIn(s: string)
    requires !HasSpaces(s)
    ensures ' ' !in s && '\n' !in s
  {
  }

  lemma HashIsPlain(hash: string)
    requires ValidHash(hash)
    ensures !HasSpaces(hash)
  {
  }

  ghost predicate AllClean(words: seq<string>) {
    forall i :: 0 <= i < |words| ==> words[i] != "" && Clean(words[i])
  }

  lemma PrefixedIsClean(mark: string, items: seq<string>)
    requires |mark| == 1 && mark[0] != ' ' && mark[0] !in BLANKS
    requires forall i :: 0 <= i < |items| ==> !HasSpaces(items[i])
    ensures AllClean(Prefixed(mark, items))
  {
    hide Clean, HasSpaces;
    forall i | 0 <= i < |items| ensures Clean(mark + items[i]) {
      NoSpacesIsClean(mark, items[i]);
    }
  }

  lemma OneClean(w: string)
    requires w != "" && ' ' !in w && '\n' !in w && w[0] !in BLANKS && w[|w| - 1] !in BLANKS
    ensures AllClean([w])
  {
    CleanIs(w);
  }

  lemma BothClean(xs: seq<string>, ys: seq<string>)
    requires AllClean(xs) && AllClean(ys)
    ensures AllClean(xs + ys)
  {
    hide Clean;
  }

  lemma FlagsAreClean(u: UserState)
    ensures AllClean(FlagWords(u))
  {
    hide AllClean;
    var a, b := If(Enabled in u.flags, "on"), If(Disabled in u.flags, "off");
    var c, d := If(NoPass in u.flags, "nopass"), If(SanitizePayloadSkip in u.flags, "skip-sanitize-payload");
    var e := If(SanitizePayload in u.flags, "sanitize-payload");
    NoneClean();
    OneClean("on");
    OneClean("off");
    OneClean("nopass");
    OneClean("skip-sanitize-payload");
    OneClean("sanitize-payload");
    BothClean(a, b);
    BothClean(a + b, c);
    BothClean(a + b + c, d);
    BothClean(a + b + c + d, e);
  }

  lemma NoneClean()
    ensures AllClean([])
  {
  }

  lemma HeadIsClean(u: UserState)
    requires Tidy(u)
    ensures AllClean(HeadWords(u))
  {
    hide AllClean, HasSpaces, ValidHash, FlagWords, Prefixed;
    var fw, pw := FlagWords(u), Prefixed("#", u.passwords);
    FlagsAreClean(u);
    forall i | 0 <= i < |u.passwords| ensures !HasSpaces(u.passwords[i]) {
      HashIsPlain(u.passwords[i]);
    }
    PrefixedIsClean("#", u.passwords);
    BothClean(fw, pw);
    OneClean("~*");
    OneClean("&*");
    OneClean("resetchannels");
    PrefixedIsClean("~", u.patterns);
    PrefixedIsClean("&", u.channels);
    BothClean(["resetchannels"], Prefixed("&", u.channels));
    BothClean(fw + pw, KeyWords(u));
    BothClean(fw + pw + KeyWords(u), ChannelWords(u));
  }

  ghost predicate CleanSubs(c: Commands) {
    forall id, i :: id in c.subs && 0 <= i < |c.subs[id]| ==> CleanSub(c.subs[id][i])
  }

  /** A user saved alone is read back as what was written exactly when its subcommands are clean. (ACLSetUser accepts
      others.) */
  lemma SavedUserParsesBack(t: Table, name: string, u: UserState, rules: seq<string>, rs: seq<Rule>)
    requires Tidy(u) && PlainNames(t) && Builds(t, rules, rs, u.commands) && SubsFrom(rs, u.commands.subs)
    requires !HasSpaces(name)
    ensures ReadBack(name, HeadWords(u) + rules) <==> CleanSubs(u.commands)
  {
    hide HasSpaces, ReadBack, HeadWords, Tidy, Clean, CleanSub, ValidRule, Text, ApplyRules, PlainNames;
    var words := HeadWords(u) + rules;
    HeadIsClean(u);
    forall i | 0 <= i < |words| ensures words[i] != "" && (i < |HeadWords(u)| ==> Clean(words[i])) {
      if i >= |HeadWords(u)| {
        assert rs[i - |HeadWords(u)|] in rs;
        RuleIsClean(t, rs[i - |HeadWords(u)|]);
      }
    }
    LineParsesBack(name, words);
    if CleanSubs(u.commands) {
      forall i | |HeadWords(u)| <= i < |words| ensures Clean(words[i]) {
        assert rs[i - |HeadWords(u)|] in rs;
        RuleIsClean(t, rs[i - |HeadWords(u)|]);
      }
    }
    if forall i :: 0 <= i < |words| ==> Clean(words[i]) {
      RulesKeepSize(t, rs);
      forall id, i | id in u.commands.subs && 0 <= i < |u.commands.subs[id]| ensures CleanSub(u.commands.subs[id][i]) {
        SubsComeFromRules(t, rs, id, u.commands.subs[id][i]);
        var r :| r in rs && r.Sub? && r.sub == u.commands.subs[id][i];
        var n :| 0 <= n < |rs| && rs[n] == r;
        RuleIsClean(t, r);
        assert words[|HeadWords(u)| + n] == Text(rs[n]);
      }
    }
  }

  // ---------------------------------------------------------------- what a file can install

  /** Whatever a clean rule does, the subcommands stay clean. */
  lemma CleanRuleKeepsCleanSubs(env: Env, u: UserState, op: string)
    requires Clean(op) && NoNul(op) && CleanSubs(u.commands) && Apply(env, u, op).Done?
    ensures CleanSubs(Apply(env, u, op).user.commands)
  {
    hide KeywordOf, ApplyKeyword, SetCategory, SetOneCommand, Clean, CleanSub, Lower, HasSpaces, ValidHash, Reset, Bar,
         WithSub;
    SeenAll(env, u, op);
    if op != "" && KeywordOf(Lower(op)).Is? {
      KeywordKeepsCleanSubs(u, KeywordOf(Lower(op)).keyword);
    } else if op != "" && (op[0] == '+' || op[0] == '-') {
      var rest := op[1..];
      var n := Bar(rest);
      CategoryKeepsCleanSubs(env.table, u, if rest == "" then "" else rest[1..], op[0] == '+');
      OneKeepsCleanSubs(env.table, u, rest, op[0] == '+');
      if n < |rest| && rest[n + 1..] != "" {
        CleanEnd(op, n + 2);
        assert rest[n + 1..] == op[n + 2..];
        AddedSubIsClean(env.table, u, rest[..n], rest[n + 1..]);
      }
    } else {
      ResetIsAfterReset(env, u);
    }
  }

  lemma KeywordKeepsCleanSubs(u: UserState, k: Keyword)
    requires CleanSubs(u.commands)
    ensures CleanSubs(ApplyKeyword(u, k).commands)
  {
    hide CleanSub;
  }

  lemma {:induction false} CategorySubs(t: Table, c: Commands, category: string, v: bool)
    ensures forall id :: id in WithCategory(t, c, category, v).subs ==>
              id in c.subs && WithCategory(t, c, category, v).subs[id] == c.subs[id]
    decreases |t|
  {
    hide InCategory;
    if t != [] {
      CategorySubs(t[..|t| - 1], c, category, v);
    }
  }

  lemma CategoryKeepsCleanSubs(t: Table, u: UserState, category: string, v: bool)
    requires CleanSubs(u.commands)
    ensures SetCategory(t, u, category, v).Done? ==> CleanSubs(SetCategory(t, u, category, v).user.commands)
  {
    hide CleanSub, WithCategory, Touches, KnownCategory;
    CategorySubs(t, u.commands, category, v);
  }

  lemma OneKeepsCleanSubs(t: Table, u: UserState, name: string, v: bool)
    requires CleanSubs(u.commands)
    ensures SetOneCommand(t, u, name, v).Done? ==> CleanSubs(SetOneCommand(t, u, name, v).user.commands)
  {
    hide CleanSub, Lookup;
  }

  lemma AddedSubIsClean(t: Table, u: UserState, name: string, sub: string)
    requires CleanSubs(u.commands) && CleanSub(sub)
    ensures AddSubcommand(t, u, name, sub).Done? ==> CleanSubs(AddSubcommand(t, u, name, sub).user.commands)
  {
    hide CleanSub, Lookup;
  }

  /** The end of a clean word is one. */
  lemma CleanEnd(w: string, k: nat)
    requires Clean(w) && k < |w|
    ensures CleanSub(w[k..])
  {
    hide Trim;
    Trimmed(w, BLANKS);
    assert forall c :: c in w[k..] ==> c in w;
    assert w[k..][|w[k..]| - 1] == w[|w| - 1];
  }

  lemma {:induction false} CleanRulesKeepCleanSubs(env: Env, u: UserState, ops: seq<string>)
    requires CleanSubs(u.commands) && ApplyAll(env, u, ops).Done?
    requires forall i :: 0 <= i < |ops| ==> Clean(ops[i]) && NoNul(ops[i])
    ensures CleanSubs(ApplyAll(env, u, ops).user.commands)
    decreases |ops|
  {
    hide Apply, CleanSubs, Clean, NoNul;
    if ops != [] {
      CleanRulesKeepCleanSubs(env, u, ops[..|ops| - 1]);
      CleanRuleKeepsCleanSubs(env, ApplyAll(env, u, ops[..|ops| - 1]).user, ops[|ops| - 1]);
    }
  }

  /** No line of a file makes a subcommand that is not clean. */
  lemma {:induction false} InstalledSubsAreClean(env: Env, lines: seq<string>, name: string)
    requires name in Installed(env, lines)
    requires forall i :: 0 <= i < |lines| ==> '\n' !in lines[i] && NoNul(lines[i])
    ensures CleanSubs(Installed(env, lines)[name].commands)
    decreases |lines|
  {
    hide ParseLine, ApplyAll, CleanSubs, Reset, NewUser, DefaultState, Clean;
    if lines == [] {
      DefaultSubs(env);
    } else {
      var before := Installed(env, lines[..|lines| - 1]);
      if name in before { InstalledSubsAreClean(env, lines[..|lines| - 1], name); }
      var raw := lines[|lines| - 1];
      var line := ParseLine(raw);
      if line.Rules? && line.name == name {
        var start := if name in before then Reset(env, before[name]) else NewUser(env);
        StartSubs(env, if name in before then before[name] else start);
        forall i | 0 <= i < |line.ops| ensures Clean(line.ops[i]) && NoNul(line.ops[i]) {
          ParsedOpIsClean(raw, i);
          PartHasNoNul(line.ops[i], raw);
        }
        if ApplyAll(env, start, line.ops).Done? { CleanRulesKeepCleanSubs(env, start, line.ops); }
      }
    }
  }

  lemma PartHasNoNul(part: string, whole: string)
    requires NoNul(whole) && forall c :: c in part ==> c in whole
    ensures NoNul(part)
  {
    forall i | 0 <= i < |part| ensures part[i] != '\0' {
      assert part[i] in whole;
    }
  }

  lemma DefaultSubs(env: Env)
    ensures CleanSubs(DefaultState(env).commands)
  {
  }

  lemma StartSubs(env: Env, u: UserState)
    ensures CleanSubs(NewUser(env).commands) && CleanSubs(Reset(env, u).commands)
  {
    ResetIsAfterReset(env, u);
  }

  // ---------------------------------------------------------------- ACL SAVE, then ACL LOAD

  // A user in the table, and the command rules that ACLDescribeUser prints for it.
  datatype Saved = Saved(name: string, state: UserState, rules: seq<string>, rs: seq<Rule>)

  ghost predicate Described(env: Env, d: Saved) {
    && Tidy(d.state) && Sound(env.table, d.state) && !HasSpaces(d.name)
    && Builds(env.table, d.rules, d.rs, d.state.commands) && SubsFrom(d.rs, d.state.commands.subs)
  }

  ghost predicate AllDescribed(env: Env, ds: seq<Saved>) {
    && (forall i :: 0 <= i < |ds| ==> Described(env, ds[i]))
    && (forall i, j :: 0 <= i < j < |ds| ==> ds[i].name != ds[j].name)
  }

  function LineOf(d: Saved): string {
    SavedLine(d.name, HeadWords(d.state) + d.rules)
  }

  function Lines(ds: seq<Saved>): seq<string> {
    seq(|ds|, i requires 0 <= i < |ds| => LineOf(ds[i]))
  }

  /** The text that ACLSaveToFile writes. */
  function FileOf(ds: seq<Saved>): string {
    Ended(Lines(ds), '\n')
  }

  /** The loop of ACLSaveToFile over the users, in the order of their names. */
  method SaveToFile(env: Env, names: seq<string>, users: map<string, User>, ghost histories: map<string, seq<string>>)
    returns (acl: string, ghost ds: seq<Saved>)
    requires ValidTable(env.table) && Hashes(env)
    requires forall i :: 0 <= i < |names| ==> names[i] in users && names[i] in histories && !HasSpaces(names[i])
    requires forall i, j :: 0 <= i < j < |names| ==> names[i] != names[j]
    requires forall n :: n in users && n in histories ==>
               users[n].Valid() && ApplyAll(env, NewUser(env), histories[n]) == Done(users[n].State())
    ensures acl == FileOf(ds) && AllDescribed(env, ds) && |ds| == |names|
    ensures forall i :: 0 <= i < |names| ==> ds[i].name == names[i] && ds[i].state == users[names[i]].State()
  {
    hide ValidTable, Hashes, ApplyAll, Described, HasSpaces, LineOf, Ended;
    acl, ds := "", [];
    EndedNothing('\n');
    assert Lines(ds) == [];
    for i := 0 to |names|
      invariant acl == FileOf(ds) && |ds| == i
      invariant forall j :: 0 <= j < i ==> Described(env, ds[j])
      invariant forall j :: 0 <= j < i ==> ds[j].name == names[j] && ds[j].state == users[names[j]].State()
    {
      var u := users[names[i]];
      var panicked, descr, rules, rs := DescribeUser(env, u, histories[names[i]]);
      ghost var d := Saved(names[i], u.State(), rules, rs);
      DescribedIs(env, d);
      acl := acl + ("user " + names[i] + " " + descr) + "\n";
      assert Lines(ds + [d]) == Lines(ds) + [LineOf(d)];
      EndedSnoc(Lines(ds), LineOf(d), '\n');
      LineOfIs(d);
      ds := ds + [d];
    }
  }

  lemma EndedNothing(sep: char)
    ensures Ended([], sep) == ""
  {
  }

  lemma DescribedIs(env: Env, d: Saved)
    requires Tidy(d.state) && Sound(env.table, d.state) && !HasSpaces(d.name)
    requires Builds(env.table, d.rules, d.rs, d.state.commands) && SubsFrom(d.rs, d.state.commands.subs)
    ensures Described(env, d)
  {
  }

  lemma LineOfIs(d: Saved)
    ensures LineOf(d) == "user " + d.name + " " + Join(HeadWords(d.state) + d.rules, ' ')
  {
  }

  /** Where loading starts from: the default user is there already, and is reset. */
  function StartOf(env: Env, name: string): UserState {
    if name == DEFAULT then AfterReset(env) else NewUser(env)
  }

  ghost predicate Restored(env: Env, d: Saved, v: UserState) {
    v.commands == d.state.commands && Same(d.state, StartOf(env, d.name), v)
  }

  lemma {:induction false} DoneWithoutErrors(env: Env, u: UserState, ops: seq<string>)
    requires ApplyFrom(env, u, ops).Done?
    ensures RuleErrors(env, u, ops) == []
    decreases |ops|
  {
    hide Apply;
    if ops != [] {
      DoneWithoutErrors(env, Apply(env, u, ops[0]).user, ops[1..]);
    }
  }

  /** The line of a user with clean subcommands loads without error, and makes that user and no other. */
  lemma LineLoads(env: Env, before: map<string, UserState>, d: Saved)
    requires PlainNames(env.table) && Described(env, d) && CleanSubs(d.state.commands)
    requires d.name in before <==> d.name == DEFAULT
    ensures LineErrors(env, LineOf(d)) == [] && '\n' !in LineOf(d)
    ensures var after := WithLine(env, before, LineOf(d));
            d.name in after && after == before[d.name := after[d.name]] && Restored(env, d, after[d.name])
  {
    hide ApplyAll, ApplyFrom, RuleErrors, ParseLine, SavedLine, HeadWords, Tidy, HasSpaces, CleanSubs, Builds, SubsFrom;
    hide PlainNames, Same, AclSave.Blank, NewUser, Reset, AfterReset, FileLines;
    var words := HeadWords(d.state) + d.rules;
    SavedUserParsesBack(env.table, d.name, d.state, d.rules, d.rs);
    LineOfFile(LineOf(d) + "\n", 0);
    StartsAreBlank(env, NewUser(env));
    if d.name in before {
      ResetIsAfterReset(env, before[d.name]);
    }
    DescriptionReadsBack(env, AfterReset(env), d.state, d.rules, d.rs);
    DescriptionReadsBack(env, StartOf(env, d.name), d.state, d.rules, d.rs);
    ApplyFromIsAll(env, AfterReset(env), words);
    DoneWithoutErrors(env, AfterReset(env), words);
  }

  function Names(ds: seq<Saved>): set<string> {
    set i | 0 <= i < |ds| :: ds[i].name
  }

  ghost predicate AllRestored(env: Env, ds: seq<Saved>, users: map<string, UserState>) {
    forall i :: 0 <= i < |ds| ==> ds[i].name in users && Restored(env, ds[i], users[ds[i].name])
  }

  lemma OneMoreRestored(env: Env, ds: seq<Saved>, n: nat, before: map<string, UserState>, after: map<string, UserState>)
    requires n < |ds| && forall i :: 0 <= i < n ==> ds[i].name != ds[n].name
    requires AllRestored(env, ds[..n], before) && before.Keys == {DEFAULT} + Names(ds[..n])
    requires ds[n].name in after && after == before[ds[n].name := after[ds[n].name]]
    requires Restored(env, ds[n], after[ds[n].name])
    ensures AllRestored(env, ds[..n + 1], after) && after.Keys == {DEFAULT} + Names(ds[..n + 1])
  {
    hide Restored;
    var d, e := ds[..n], ds[..n + 1];
    forall i | 0 <= i < n + 1 ensures e[i].name in after && Restored(env, e[i], after[e[i].name]) {
      assert i < n ==> d[i] == e[i] == ds[i];
    }
    forall x ensures x in Names(e) <==> x in Names(d) || x == ds[n].name {
      assert x in Names(d) ==> exists i :: 0 <= i < n && d[i].name == x && e[i].name == x;
      assert e[n].name == ds[n].name;
    }
  }

  /** The lines of users with clean subcommands load without error and make those users. */
  lemma {:induction false} CleanLinesLoad(env: Env, ds: seq<Saved>, n: nat)
    requires n <= |ds| && PlainNames(env.table) && AllDescribed(env, ds)
    requires forall i :: 0 <= i < |ds| ==> CleanSubs(ds[i].state.commands)
    ensures FileErrors(env, Lines(ds[..n])) == []
    ensures Installed(env, Lines(ds[..n])).Keys == {DEFAULT} + Names(ds[..n])
    ensures AllRestored(env, ds[..n], Installed(env, Lines(ds[..n])))
  {
    hide LineOf, Described, Restored, WithLine, LineErrors, PlainNames, DefaultState, AllRestored, Names, CleanSubs;
    if n == 0 {
      NothingRestored(env, ds[..0]);
    } else {
      CleanLinesLoad(env, ds, n - 1);
      var lines := Lines(ds[..n]);
      assert lines[..n - 1] == Lines(ds[..n - 1]) && lines[n - 1] == LineOf(ds[n - 1]);
      NotSavedYet(ds, n - 1);
      LineLoads(env, Installed(env, Lines(ds[..n - 1])), ds[n - 1]);
      OneMoreRestored(env, ds, n - 1, Installed(env, Lines(ds[..n - 1])), Installed(env, lines));
    }
  }

  lemma NotSavedYet(ds: seq<Saved>, n: nat)
    requires n < |ds| && forall i :: 0 <= i < n ==> ds[i].name != ds[n].name
    ensures ds[n].name !in Names(ds[..n])
  {
  }

  lemma NothingRestored(env: Env, ds: seq<Saved>)
    requires ds == []
    ensures AllRestored(env, ds, map[DEFAULT := DefaultState(env)]) && Names(ds) == {}
  {
  }

  /** Lines without newlines are the lines of the file, with an empty one behind the last newline. */
  lemma LinesOfFile(lines: seq<string>)
    requires lines != [] && forall i :: 0 <= i < |lines| ==> '\n' !in lines[i]
    ensures FileLines(Ended(lines, '\n')) == lines + [""]
  {
    hide Split, Join;
    EndedThenJoined(lines, [""], '\n');
    LastIsEmpty();
    SplitOfJoin(lines + [""], '\n');
    var last := lines[|lines| - 1];
    assert Ended(lines, '\n') == Ended(lines[..|lines| - 1], '\n') + last + ['\n'];
    assert Ended(lines, '\n') + "" == Ended(lines, '\n');
  }

  lemma LastIsEmpty()
    ensures Join([""], '\n') == ""
  {
  }

  /** The empty line behind the last newline is skipped. */
  lemma BlankLineLoads(env: Env, lines: seq<string>)
    ensures FileErrors(env, lines + [""]) == FileErrors(env, lines)
    ensures Installed(env, lines + [""]) == Installed(env, lines)
  {
    assert (lines + [""])[..|lines|] == lines;
    assert ParseLine("") == AclLoad.Blank;
  }

  /** The file, loaded, is the table it was saved from: no error, no other user, and every user with the same passwords,
      key patterns, channels, commands, subcommands and flags. */
  ghost predicate LoadsBack(env: Env, ds: seq<Saved>) {
    var lines := FileLines(FileOf(ds));
    && FileErrors(env, lines) == []
    && Installed(env, lines).Keys == {DEFAULT} + Names(ds)
    && AllRestored(env, ds, Installed(env, lines))
  }

  /** Saving all users and loading the file gives them back exactly when all their subcommands are clean. */
  lemma SaveThenLoad(env: Env, ds: seq<Saved>)
    requires PlainNames(env.table) && AllDescribed(env, ds)
    ensures LoadsBack(env, ds) <==> forall i :: 0 <= i < |ds| ==> CleanSubs(ds[i].state.commands)
  {
    hide PlainNames, CleanSubs, FileLines, FileErrors, Installed, Described, Restored, LineOf, Ended;
    if forall i :: 0 <= i < |ds| ==> CleanSubs(ds[i].state.commands) {
      CleanUsersLoadBack(env, ds);
    }
    if LoadsBack(env, ds) {
      var lines := FileLines(FileOf(ds));
      FileHasNoNul(env, ds);
      forall k | 0 <= k < |lines| ensures '\n' !in lines[k] && NoNul(lines[k]) {
        LineOfFile(FileOf(ds), k);
      }
      forall i | 0 <= i < |ds| ensures CleanSubs(ds[i].state.commands) {
        InstalledSubsAreClean(env, lines, ds[i].name);
        RestoredCommands(env, ds[i], Installed(env, lines)[ds[i].name]);
      }
    }
  }

  lemma RestoredCommands(env: Env, d: Saved, v: UserState)
    requires Restored(env, d, v)
    ensures v.commands == d.state.commands
  {
  }

  lemma CleanUsersLoadBack(env: Env, ds: seq<Saved>)
    requires PlainNames(env.table) && AllDescribed(env, ds)
    requires forall i :: 0 <= i < |ds| ==> CleanSubs(ds[i].state.commands)
    ensures LoadsBack(env, ds)
  {
    hide PlainNames, CleanSubs, FileErrors, Installed, Described, AllRestored, LineOf, Ended, Names, Split;
    assert ds[..|ds|] == ds;
    CleanLinesLoad(env, ds, |ds|);
    if ds == [] {
      EndedNothing('\n');
      assert Lines(ds) == [];
    } else {
      forall i | 0 <= i < |ds| ensures '\n' !in Lines(ds)[i] {
        SavedLineIsOne(env, ds[i]);
      }
      LinesOfFile(Lines(ds));
      BlankLineLoads(env, Lines(ds));
    }
  }

  lemma SavedLineIsOne(env: Env, d: Saved)
    requires PlainNames(env.table) && Described(env, d) && CleanSubs(d.state.commands)
    ensures '\n' !in LineOf(d)
  {
    hide PlainNames, CleanSubs, FileLines, HasSpaces, Tidy, Builds, SubsFrom, ParseLine, SavedLine, HeadWords;
    SavedUserParsesBack(env.table, d.name, d.state, d.rules, d.rs);
    LineOfFile(LineOf(d) + "\n", 0);
  }

  // ----- no NUL is ever written

  ghost predicate AllNoNul(words: seq<string>) {
    forall i :: 0 <= i < |words| ==> NoNul(words[i])
  }

  lemma CleanMarkNoNul(mark: string, items: seq<string>)
    requires NoNul(mark) && forall i :: 0 <= i < |items| ==> !HasSpaces(items[i])
    ensures AllNoNul(Prefixed(mark, items))
  {
    forall i | 0 <= i < |items| ensures NoNul(mark + items[i]) {
      PlainText(items[i]);
    }
  }

  lemma FlagsNoNul(u: UserState)
    ensures AllNoNul(FlagWords(u))
  {
    assert AllNoNul(["on", "off", "nopass", "skip-sanitize-payload", "sanitize-payload"]);
    hide NoNul;
    forall i | 0 <= i < |FlagWords(u)| ensures NoNul(FlagWords(u)[i]) {
      assert FlagWords(u)[i] in ["on", "off", "nopass", "skip-sanitize-payload", "sanitize-payload"];
    }
  }

  lemma HeadNoNul(u: UserState)
    requires Tidy(u)
    ensures AllNoNul(HeadWords(u))
  {
    hide HasSpaces, ValidHash, FlagWords, Prefixed;
    FlagsNoNul(u);
    forall i | 0 <= i < |u.passwords| ensures !HasSpaces(u.passwords[i]) {
      HashIsPlain(u.passwords[i]);
    }
    CleanMarkNoNul("#", u.passwords);
    CleanMarkNoNul("~", u.patterns);
    CleanMarkNoNul("&", u.channels);
    assert AllNoNul(["~*", "&*", "resetchannels"]);
    assert NoNul(["~*", "&*", "resetchannels"][0]) && NoNul(["~*", "&*", "resetchannels"][1]);
    assert NoNul(["~*", "&*", "resetchannels"][2]);
  }

  lemma LineHasNoNul(env: Env, d: Saved)
    requires Described(env, d)
    ensures NoNul(LineOf(d))
  {
    hide HasSpaces, Join, HeadWords, Tidy, Lookup, ApplyRules, ValidName, Text;
    var words := HeadWords(d.state) + d.rules;
    HeadNoNul(d.state);
    forall i | 0 <= i < |d.rules| ensures NoNul(d.rules[i]) {
      assert d.rs[i] in d.rs && d.rules[i] == Text(d.rs[i]);
      ValidTextHasNoNul(env.table, d.rs[i]);
    }
    PlainText(d.name);
    var all := ["user", d.name] + words;
    forall i | 0 <= i < |all| ensures '\0' !in all[i] {
      assert NoNul(all[i]);
    }
    assert d.rules != [];
    SavedLineIsJoined(d.name, words);
    JoinedHas(all, ' ', '\0');
  }

  lemma ValidTextHasNoNul(t: Table, r: Rule)
    requires ValidRule(t, r)
    ensures NoNul(Text(r))
  {
    TextHasNoNul(r);
  }

  lemma {:induction false} EndedHas(parts: seq<string>, sep: char, c: char)
    requires c != sep && forall i :: 0 <= i < |parts| ==> c !in parts[i]
    ensures c !in Ended(parts, sep)
    decreases |parts|
  {
    if parts != [] {
      EndedHas(parts[..|parts| - 1], sep, c);
    }
  }

  lemma FileHasNoNul(env: Env, ds: seq<Saved>)
    requires AllDescribed(env, ds)
    ensures '\0' !in FileOf(ds)
  {
    hide Described, LineOf, Ended;
    forall i | 0 <= i < |Lines(ds)| ensures '\0' !in Lines(ds)[i] {
      LineHasNoNul(env, ds[i]);
      assert NoNul(Lines(ds)[i]);
    }
    EndedHas(Lines(ds), '\n', '\0');
  }

  // ---------------------------------------------------------------- what it means for the verdicts, and a witness

  /** A user loaded back may run the commands it could run before. */
  lemma SavedUsersKeepTheirVerdicts(env: Env, ds: seq<Saved>, i: nat, cmd: nat, argv: seq<string>)
    requires ValidTable(env.table) && AllDescribed(env, ds) && LoadsBack(env, ds)
    requires i < |ds| && cmd < |env.table|
    ensures ds[i].name in Installed(env, FileLines(FileOf(ds)))
    ensures MayRun(Installed(env, FileLines(FileOf(ds)))[ds[i].name], env.table[cmd], argv)
            <==> MayRun(ds[i].state, env.table[cmd], argv)
  {
    hide ValidCommand, Builds, SubsFrom, Tidy, HasSpaces, FileOf, FileLines, FileErrors, Installed, MayRun, WellFormed;
    hide Same, Names;
    var lines := FileLines(FileOf(ds));
    assert Described(env, ds[i]);
    InstalledSound(env, lines, ds[i].name);
    CommandsFit(env.table, cmd);
    SameCommandsSameVerdicts(env.table, Installed(env, lines)[ds[i].name], ds[i].state, env.table[cmd], argv);
  }

  lemma CommandsFit(t: Table, cmd: nat)
    requires ValidTable(t) && cmd < |t|
    ensures t[cmd].id < COMMAND_BITS
  {
    assert ValidCommand(t[cmd]);
  }

  const LOST: string := "get|a\nb"

  /** The rule "+get|a(newline)b" is accepted and grants that subcommand, which is not clean. */
  lemma NewlineIsGranted(env: Env)
    requires env.table == [Command("get", 0, {}, false, false)]
    ensures var r := Apply(env, NewUser(env), "+" + LOST);
            r.Done? && r.user.commands.subs == map[0 := ["a\nb"]] && !CleanSubs(r.user.commands)
  {
    hide Apply, Lower, NewUser;
    GetIsAName();
    assert Text(Sub("get", "a\nb")) == "+" + LOST;
    SubMeaning(env, NewUser(env), "get", "a\nb");
    OneCommandTable(env.table);
    FirstSub(env, "a\nb");
  }

  lemma GetIsAName()
    ensures ValidName("get")
  {
    assert Lower("get") == "get";
  }

  lemma FirstSub(env: Env, sub: string)
    requires Lookup(env.table, "get") == 0 && env.table[0].id == 0 && sub != "" && '\n' in sub
    ensures var r := AddSubcommand(env.table, NewUser(env), "get", sub);
            r.Done? && r.user.commands.subs == map[0 := [sub]] && !CleanSubs(r.user.commands)
  {
    var u := NewUser(env);
    assert AddedSub([], sub) == [sub];
    var v := AddSubcommand(env.table, u, "get", sub).user;
    assert v.commands.subs == map[0 := [sub]];
    assert !CleanSub(v.commands.subs[0][0]);
  }

  lemma OneCommandTable(t: Table)
    requires t == [Command("get", 0, {}, false, false)]
    ensures Lookup(t, "get") == 0
  {
    assert Lower("get") == "get";
  }

  /** Saved and loaded, its line is two, and the second is refused: no user of the file is loaded. */
  lemma NewlineSplitsTheLine(env: Env)
    ensures FileLines("user u off resetchannels -@all +" + LOST + "\n")
            == ["user u off resetchannels -@all +get|a", "b", ""]
    ensures LineErrors(env, "b") == [NotAUser]
    ensures FileErrors(env, ["user u off resetchannels -@all +get|a", "b", ""]) != []
  {
    hide Split;
    var first := "user u off resetchannels -@all +get|a";
    var lines := [first, "b", ""];
    var text := "user u off resetchannels -@all +" + LOST + "\n";
    assert lines[1..] == ["b", ""] && lines[1..][1..] == [""];
    assert Join(lines, '\n') == first + "\nb\n" == text;
    SplitOfJoin(lines, '\n');
    SingleWord();
    assert lines[..2] == [first, "b"] && lines[..2][..1] == [first];
    assert FileErrors(env, lines[..2]) == FileErrors(env, [first]) + LineErrors(env, "b");
  }

  lemma SingleWord()
    ensures ParseLine("b") == Wrong(NotAUser)
  {
    hide Trim, Split, HasSpaces, TrimAll;
    Trimmed("b", " \t\r\n");
    assert Join(["b"], ' ') == "b";
    SplitOfJoin(["b"], ' ');
  }

  // ---------------------------------------------------------------- what is wrong with a file

  lemma {:induction false} BlanksTrimmed(before: string, s: string, after: string, cset: string)
    requires (forall c :: c in before ==> c in cset) && forall c :: c in after ==> c in cset
    requires s == "" || (s[0] !in cset && s[|s| - 1] !in cset)
    ensures Trim(before + s + after, cset) == s
    decreases |before| + |after|
  {
    var all := before + s + after;
    if before != "" {
      assert all[0] == before[0] && all[1..] == before[1..] + s + after;
      BlanksTrimmed(before[1..], s, after, cset);
    } else if after == "" {
      assert all == s;
      Trimmed(s, cset);
    } else if s == "" {
      assert all == after && all[0] == after[0] && all[1..] == after[1..] + "" + "";
      BlanksTrimmed(after[1..], "", "", cset);
    } else {
      assert all[0] == s[0] && all[|all| - 1] == after[|after| - 1];
      assert all[..|all| - 1] == "" + s + after[..|after| - 1];
      BlanksTrimmed("", s, after[..|after| - 1], cset);
    }
  }

  /** A line of words with blanks around it: it has to begin with "user" and a name without spaces, and what else can be
      wrong with it are its rules, tried on a user that was reset. */
  lemma LineErrorsAre(env: Env, before: string, words: seq<string>, after: string)
    requires (forall c :: c in before ==> c in " \t\r\n") && forall c :: c in after ==> c in " \t\r\n"
    requires words != [] && forall i :: 0 <= i < |words| ==> ' ' !in words[i]
    requires var line := Join(words, ' ');
             line != "" && line[0] !in " \t\r\n" && line[|line| - 1] !in " \t\r\n"
    ensures LineErrors(env, before + Join(words, ' ') + after)
            == if words[0] != "user" || |words| == 1 then [NotAUser]
               else if HasSpaces(words[1]) then [BadUsername]
               else RuleErrors(env, AfterReset(env), TrimAll(words[2..]))
  {
    hide Trim, Split, HasSpaces, RuleErrors, AfterReset;
    BlanksTrimmed(before, Join(words, ' '), after, " \t\r\n");
    SplitOfJoin(words, ' ');
  }

  /** A line without errors sets up its user by its rules: from a new user, or from what "reset" leaves if the file
      spoke of the user before or it is the default user. No other user changes. */
  lemma LineInstalls(env: Env, before: map<string, UserState>, left: string, words: seq<string>, right: string)
    requires (forall c :: c in left ==> c in " \t\r\n") && forall c :: c in right ==> c in " \t\r\n"
    requires |words| >= 2 && words[0] == "user" && !HasSpaces(words[1])
    requires forall i :: 0 <= i < |words| ==> ' ' !in words[i]
    requires Join(words, ' ')[|Join(words, ' ')| - 1] !in " \t\r\n"
    requires RuleErrors(env, AfterReset(env), TrimAll(words[2..])) == []
    ensures var channels := if env.pubsubAllChannels then {AllChannels} else {};
            var none := Commands(seq(1024, _ => false), map[]);
            var flags := if words[1] in before then {Disabled, SanitizePayload} else {Disabled};
            var start := UserState(flags + channels, none, [], [], []);
            && ApplyAll(env, start, TrimAll(words[2..])).Done?
            && WithLine(env, before, left + Join(words, ' ') + right)
               == before[words[1] := ApplyAll(env, start, TrimAll(words[2..])).user]
  {
    hide Trim, Split, HasSpaces, RuleErrors, Apply, ApplyAll, Reset;
    var line := Join(words, ' ');
    assert line[0] == 'u';
    BlanksTrimmed(left, line, right, " \t\r\n");
    SplitOfJoin(words, ' ');
    assert AllBits(false) == seq(1024, _ => false);
    if words[1] in before {
      ResetIsAfterReset(env, before[words[1]]);
      FakeRunPredictsRealRun(env, TrimAll(words[2..]), before[words[1]]);
    } else {
      FakeRunPredictsRealRun(env, TrimAll(words[2..]), NewUser(env));
    }
  }

  /** A line of blanks is passed over. */
  lemma BlankLineIsFine(env: Env, raw: string, before: map<string, UserState>)
    requires forall c :: c in raw ==> c in " \t\r\n"
    ensures LineErrors(env, raw) == [] && WithLine(env, before, raw) == before
  {
    hide Trim;
    assert raw + "" + "" == raw;
    BlanksTrimmed(raw, "", "", " \t\r\n");
  }

  /** The user that rules make which are all tried, whether or not others fail. */
  function Surviving(env: Env, u: UserState, ops: seq<string>): UserState {
    if ops == [] then u
    else
      var v := Surviving(env, u, ops[..|ops| - 1]);
      if Apply(env, v, ops[|ops| - 1]).Done? then Apply(env, v, ops[|ops| - 1]).user else v
  }

  lemma {:induction false} SurvivingFirst(env: Env, u: UserState, ops: seq<string>)
    requires ops != []
    ensures Surviving(env, u, ops)
            == Surviving(env, if Apply(env, u, ops[0]).Done? then Apply(env, u, ops[0]).user else u, ops[1..])
    decreases |ops|
  {
    hide Apply;
    if |ops| == 1 {
      assert ops[..0] == [] && ops[1..] == [];
    } else {
      SurvivingFirst(env, u, ops[..|ops| - 1]);
      assert ops[..|ops| - 1][1..] == ops[1..][..|ops[1..]| - 1];
    }
  }

  /** Every rule is tried, also behind one that failed, and each failure is one error. */
  lemma {:induction false} RuleErrorsAre(env: Env, u: UserState, ops: seq<string>, op: string)
    ensures RuleErrors(env, u, []) == []
    ensures RuleErrors(env, u, ops + [op])
            == RuleErrors(env, u, ops) + match Apply(env, Surviving(env, u, ops), op)
                                         case Done(_) => []
                                         case Failed(errno) => [BadRule(errno)]
    decreases |ops|
  {
    hide Apply;
    if ops == [] {
      assert (ops + [op])[1..] == [];
    } else {
      assert (ops + [op])[1..] == ops[1..] + [op] && (ops + [op])[0] == ops[0];
      var r := Apply(env, u, ops[0]);
      RuleErrorsAre(env, if r.Done? then r.user else u, ops[1..], op);
      SurvivingFirst(env, u, ops);
    }
  }

  /** The errors of a file are those of its lines, in order. */
  lemma {:induction false} FileErrorsAre(env: Env, lines: seq<string>, more: seq<string>)
    ensures FileErrors(env, lines + more) == FileErrors(env, lines) + FileErrors(env, more)
    ensures forall raw :: FileErrors(env, [raw]) == LineErrors(env, raw)
    decreases |more|
  {
    hide LineErrors;
    forall raw ensures FileErrors(env, [raw]) == LineErrors(env, raw) { assert [raw][..0] == []; }
    if more == [] {
      assert lines + more == lines;
    } else {
      var init := more[..|more| - 1];
      FileErrorsAre(env, lines, init);
      assert (lines + more)[..|lines + more| - 1] == lines + init;
    }
  }
}
