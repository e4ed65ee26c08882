// The rules as the one line of text that is shown and saved, and when that line splits back
// into the rules.
module AclText {
  import opened AclTable
  import opened AclRules
  import opened AclDescribe
  import opened AclRoundTrip

  /** The parts with `sep` between them: the words of a rule list, the lines of a file. */
  function Join(parts: seq<string>, sep: char): string {
    if parts == [] then ""
    else if |parts| == 1 then parts[0]
    else parts[0] + [sep] + Join(parts[1..], sep)
  }

  function SepAt(s: string, sep: char): (n: nat)
    ensures n <= |s| && (n < |s| ==> s[n] == sep) && forall i :: 0 <= i < n ==> s[i] != sep
  {
    if s == "" || s[0] == sep then 0 else 1 + SepAt(s[1..], sep)
  }

  /** sdssplitlen on a separator of one character, but for the empty string, which it splits into no part. */
  function Split(s: string, sep: char): (parts: seq<string>)
    ensures parts != []
    decreases |s|
  {
    var n := SepAt(s, sep);
    if n == |s| then [s] else [s[..n]] + Split(s[n + 1..], sep)
  }

  lemma {:induction false} PartsHaveNoSep(s: string, sep: char, i: nat)
    requires i < |Split(s, sep)|
    ensures sep !in Split(s, sep)[i] && forall c :: c in Split(s, sep)[i] ==> c in s
    decreases |s|
  {
    var n := SepAt(s, sep);
    if n < |s| && i > 0 { PartsHaveNoSep(s[n + 1..], sep, i - 1); }
  }

  lemma SepAfter(part: string, sep: char, tail: string)
    requires sep !in part && (tail == "" || tail[0] == sep)
    ensures SepAt(part + tail, sep) == |part|
  {
    var s := part + tail;
    assert forall i :: 0 <= i < |part| ==> s[i] == part[i];
    assert tail != "" ==> s[|part|] == sep;
  }

  lemma {:induction false} SplitOfJoin(parts: seq<string>, sep: char)
    requires parts != [] && forall i :: 0 <= i < |parts| ==> sep !in parts[i]
    ensures Split(Join(parts, sep), sep) == parts
    decreases |parts|
  {
    if |parts| == 1 {
      SepAfter(parts[0], sep, "");
      assert parts[0] + "" == parts[0];
    } else {
      var tail := Join(parts[1..], sep);
      SepAfter(parts[0], sep, [sep] + tail);
      assert Join(parts, sep) == parts[0] + ([sep] + tail);
      assert Join(parts, sep)[|parts[0]| + 1..] == tail;
      SplitOfJoin(parts[1..], sep);
    }
  }

  /** Every part with `sep` behind it: how the words of a description and the lines of a file are put together. */
  function Ended(parts: seq<string>, sep: char): string {
    if parts == [] then "" else Ended(parts[..|parts| - 1], sep) + parts[|parts| - 1] + [sep]
  }

  lemma EndedSnoc(parts: seq<string>, part: string, sep: char)
    ensures Ended(parts + [part], sep) == Ended(parts, sep) + part + [sep]
  {
    assert (parts + [part])[..|parts|] == parts;
  }

  lemma {:induction false} EndedThenJoined(parts: seq<string>, rest: seq<string>, sep: char)
    requires rest != []
    ensures Ended(parts, sep) + Join(rest, sep) == Join(parts + rest, sep)
    decreases |parts|
  {
    if parts == [] {
      assert parts + rest == rest;
    } else {
      var before, last := parts[..|parts| - 1], parts[|parts| - 1];
      var more := [last] + rest;
      assert more[1..] == rest;
      assert Join(more, sep) == last + [sep] + Join(rest, sep);
      EndedThenJoined(before, more, sep);
      assert before + more == parts + rest;
    }
  }

  /** The text splits back into its parts exactly when no part contains the separator. */
  lemma TextSplitsBack(parts: seq<string>, sep: char)
    requires parts != []
    ensures Split(Join(parts, sep), sep) == parts <==> forall i :: 0 <= i < |parts| ==> sep !in parts[i]
  {
    if forall i :: 0 <= i < |parts| ==> sep !in parts[i] {
      SplitOfJoin(parts, sep);
    } else if Split(Join(parts, sep), sep) == parts {
      forall i | 0 <= i < |parts| ensures sep !in parts[i] { PartsHaveNoSep(Join(parts, sep), sep, i); }
    }
  }

  lemma CategoryHasNoSpace(name: string)
    requires name in CATEGORIES
    ensures ' ' !in name
  {
    hide CATEGORIES;
    CategoriesAreLetters(name);
  }

  lemma PlainRuleHasNoSpace(t: Table, r: Rule)
    requires ValidRule(t, r) && (r.Sub? ==> ' ' !in r.sub)
    ensures ' ' !in Text(r)
  {
    match r {
      case Category(_, name) => CategoryHasNoSpace(name);
      case _ =>
    }
  }

  lemma SubRuleHasItsSpace(r: Rule)
    requires r.Sub? && ' ' in r.sub
    ensures ' ' in Text(r)
  {
    var i :| 0 <= i < |r.sub| && r.sub[i] == ' ';
    assert Text(r)[|r.name| + 2 + i] == r.sub[i];
  }

  /** Every subcommand of the permissions that rules build was granted by one of them. */
  lemma {:induction false} SubsComeFromRules(t: Table, rs: seq<Rule>, id: nat, sub: string)
    requires |ApplyRules(t, NoCommands, rs).bits| == COMMAND_BITS
    requires id in ApplyRules(t, NoCommands, rs).subs && sub in ApplyRules(t, NoCommands, rs).subs[id]
    ensures exists r :: r in rs && r.Sub? && r.sub == sub
    decreases |rs|
  {
    hide ValidRule, Text, WithCategory, AllBits;
    var before, last := rs[..|rs| - 1], rs[|rs| - 1];
    var c := ApplyRules(t, NoCommands, before);
    RulesKeepSize(t, before);
    if last.Sub? && last.sub == sub {
    } else {
      if last.Category? { CategoryEffect(t, c, last.name, last.add, id); }
      assert id in c.subs && sub in c.subs[id];
      SubsComeFromRules(t, before, id, sub);
    }
  }

  lemma {:induction false} RulesKeepSize(t: Table, rs: seq<Rule>)
    ensures |ApplyRules(t, NoCommands, rs).bits| == COMMAND_BITS
    decreases |rs|
  {
    hide WithCategory;
    if rs != [] {
      RulesKeepSize(t, rs[..|rs| - 1]);
      var last := rs[|rs| - 1];
      if last.Category? {
        CategoryEffect(t, ApplyRules(t, NoCommands, rs[..|rs| - 1]), last.name, last.add, 0);
      }
    }
  }

  /** The printed line, split at its spaces, gives back the rules, and so the permissions, exactly
      when no allowed subcommand contains a space. (ACLSetUser accepts such a subcommand.) */
  lemma LineRoundTrip(t: Table, rules: seq<string>, rs: seq<Rule>, c: Commands)
    requires Builds(t, rules, rs, c) && SubsFrom(rs, c.subs)
    ensures Split(Join(rules, ' '), ' ') == rules
            <==> forall id, i :: id in c.subs && 0 <= i < |c.subs[id]| ==> ' ' !in c.subs[id][i]
  {
    hide Text, ValidRule, ApplyRules, Split, Join;
    TextSplitsBack(rules, ' ');
    RulesKeepSize(t, rs);
    if forall id, i :: id in c.subs && 0 <= i < |c.subs[id]| ==> ' ' !in c.subs[id][i] {
      forall i | 0 <= i < |rules| ensures ' ' !in rules[i] {
        assert rs[i] in rs;
        PlainRuleHasNoSpace(t, rs[i]);
      }
    }
    forall id, i | id in c.subs && 0 <= i < |c.subs[id]| && ' ' in c.subs[id][i]
      ensures exists n :: 0 <= n < |rules| && ' ' in rules[n]
    {
      SubsComeFromRules(t, rs, id, c.subs[id][i]);
      var r :| r in rs && r.Sub? && r.sub == c.subs[id][i];
      var n :| 0 <= n < |rs| && rs[n] == r;
      SubRuleHasItsSpace(r);
      assert rules[n] == Text(rs[n]);
    }
  }

  /** Such a line at work: the rule "+get|a b" comes back as two, of which the second is no rule at all. */
  lemma SpaceSplitsTheRule()
    ensures Split(Join(["-@all", "+get|a b"], ' '), ' ') == ["-@all", "+get|a", "b"]
  {
    hide Split;
    var rules, words := ["-@all", "+get|a b"], ["-@all", "+get|a", "b"];
    assert rules[1..] == ["+get|a b"] && words[1..] == ["+get|a", "b"] && words[1..][1..] == ["b"];
    assert Join(rules, ' ') == "-@all +get|a b" == Join(words, ' ');
    SplitOfJoin(words, ' ');
  }
}
