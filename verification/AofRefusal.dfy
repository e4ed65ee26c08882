// What the loader makes of an arbitrary file: which bytes are whole commands, and what it does at
// the first that are not.
module AofRefusal {
  import opened Bytes
  import opened AofLog
  import opened AofRecovery

  // ---------------------------------------------------------------- the bytes of a command

  /** A line, as fgets takes it into a buffer of 128 bytes. */
  ghost predicate Line(file: ByteString, pos: nat, end: nat) {
    && pos < end <= |file| && end - pos <= 127
    && (forall i :: pos <= i < end - 1 ==> file[i] != LF)
    && (file[end - 1] == LF || end - pos == 127 || end == |file|)
  }

  /** An argument: a '$' line with its length, that many bytes, and two more. A negative length is a huge one. */
  ghost predicate IsArg(file: ByteString, pos: nat, arg: ByteString, next: nat) {
    && pos < |file| && file[pos] == '$'
    && exists data: nat :: Line(file, pos, data) && ArgBytes(file, pos, data, arg, next)
  }

  predicate ArgBytes(file: ByteString, pos: nat, data: nat, arg: ByteString, next: nat)
    requires pos < data <= |file|
  {
    var len := StrToL(file[pos + 1..data]);
    && |arg| == (if len < 0 then len + 0x1_0000_0000_0000_0000 else len)
    && next == data + |arg| + 2 <= |file| && file[data..data + |arg|] == arg
  }

  ghost predicate BadArg(file: ByteString, pos: nat) {
    pos < |file| && file[pos] != '$'
  }

  /** The file ends before the argument does. */
  ghost predicate CutArg(file: ByteString, pos: nat) {
    pos == |file| ||
    (pos < |file| && file[pos] == '$' && exists data: nat :: Line(file, pos, data) && BytesMissing(file, pos, data))
  }

  predicate BytesMissing(file: ByteString, pos: nat, data: nat)
    requires pos < data <= |file|
  {
    var len := StrToL(file[pos + 1..data]);
    data + (if len < 0 then len + 0x1_0000_0000_0000_0000 else len) + 2 > |file|
  }

  ghost predicate IsArgs(file: ByteString, pos: nat, argv: Command, next: nat)
    decreases |argv|
  {
    if argv == [] then pos == next <= |file|
    else exists mid: nat :: IsArg(file, pos, argv[0], mid) && IsArgs(file, mid, argv[1..], next)
  }

  /** Some of `n` arguments are there, and then comes something else. */
  ghost predicate BadArgs(file: ByteString, pos: nat, n: int) {
    exists argv: Command, mid: nat :: |argv| < n && IsArgs(file, pos, argv, mid) && BadArg(file, mid)
  }

  ghost predicate CutArgs(file: ByteString, pos: nat, n: int) {
    exists argv: Command, mid: nat :: |argv| < n && IsArgs(file, pos, argv, mid) && CutArg(file, mid)
  }

  /** A '*' line that has something behind the mark. */
  ghost predicate Counted(file: ByteString, pos: nat, end: nat) {
    pos < |file| && file[pos] == '*' && Line(file, pos, end) && end > pos + 1 && file[pos + 1] != '\0'
  }

  ghost predicate IsCommand(file: ByteString, pos: nat, argv: Command, next: nat) {
    exists end: nat ::
      Counted(file, pos, end) && AtoI(file[pos + 1..end]) == |argv| >= 1 && IsArgs(file, end, argv, next)
  }

  /** No '*'; or a count below one; or something other than a '$' where an argument should start. */
  ghost predicate BadCommand(file: ByteString, pos: nat) {
    pos < |file| &&
    (file[pos] != '*' ||
     exists end: nat :: Counted(file, pos, end) &&
                   (AtoI(file[pos + 1..end]) < 1 || BadArgs(file, end, AtoI(file[pos + 1..end]))))
  }

  /** A '*' line with nothing behind the mark, or what C takes for the end of the text. */
  ghost predicate Marked(file: ByteString, pos: nat, end: nat) {
    pos < |file| && file[pos] == '*' && Line(file, pos, end) && (end == pos + 1 || file[pos + 1] == '\0')
  }

  /** Such a line that does not end with the file. */
  ghost predicate StrayMark(file: ByteString, pos: nat) {
    exists end: nat :: Marked(file, pos, end) && (file[end - 1] == LF || end - pos == 127)
  }

  /** The file ends before the command does. */
  ghost predicate CutCommand(file: ByteString, pos: nat) {
    pos < |file| && file[pos] == '*' &&
    ((exists end: nat :: Marked(file, pos, end) && end == |file| && end - pos < 127 && file[end - 1] != LF) ||
     exists end: nat :: Counted(file, pos, end) &&
                   AtoI(file[pos + 1..end]) >= 1 && CutArgs(file, end, AtoI(file[pos + 1..end])))
  }

  lemma {:induction false} LineFrom(file: ByteString, pos: nat, room: nat, end: nat)
    requires pos < end <= |file| && end - pos <= room
    requires forall i :: pos <= i < end - 1 ==> file[i] != LF
    requires file[end - 1] == LF || end - pos == room || end == |file|
    ensures FgetsEnd(file, pos, room) == end
    decreases room
  {
    if pos + 1 < end { LineFrom(file, pos + 1, room - 1, end); }
  }

  lemma {:induction false} LineEnds(file: ByteString, pos: nat, room: nat)
    requires pos < |file| && room > 0
    ensures var end := FgetsEnd(file, pos, room);
            && (forall i :: pos <= i < end - 1 ==> file[i] != LF)
            && (file[end - 1] == LF || end - pos == room || end == |file|)
    decreases room
  {
    if file[pos] != LF && pos + 1 < |file| && room > 1 { LineEnds(file, pos + 1, room - 1); }
  }

  lemma LineIs(file: ByteString, pos: nat, end: nat)
    requires pos < |file|
    ensures Line(file, pos, end) <==> end == FgetsEnd(file, pos, LINE_MAX)
  {
    LineEnds(file, pos, LINE_MAX);
    if Line(file, pos, end) { LineFrom(file, pos, LINE_MAX, end); }
  }

  // ---------------------------------------------------------------- what the loader reads

  lemma ArgIs(file: ByteString, pos: nat)
    requires pos <= |file|
    ensures var r := ReadArg(file, pos);
            && (r.Taken? ==> IsArg(file, pos, r.argv[0], r.next))
            && (r.Malformed? ==> BadArg(file, pos))
            && (r.Short? ==> CutArg(file, pos))
            && !r.Unreadable?
  {
    hide StrToL, FgetsEnd;
    if pos < |file| {
      LineIs(file, pos, FgetsEnd(file, pos, LINE_MAX));
    }
  }

  lemma ArgTaken(file: ByteString, pos: nat, arg: ByteString, next: nat)
    requires IsArg(file, pos, arg, next)
    ensures ReadArg(file, pos) == Taken([arg], next)
  {
    hide StrToL, FgetsEnd;
    var data: nat :| Line(file, pos, data) && ArgBytes(file, pos, data, arg, next);
    LineIs(file, pos, data);
  }

  lemma ArgRefused(file: ByteString, pos: nat)
    ensures BadArg(file, pos) ==> ReadArg(file, pos) == Malformed
    ensures pos <= |file| && CutArg(file, pos) ==> ReadArg(file, pos) == Short
  {
    hide StrToL, FgetsEnd;
    if pos < |file| && CutArg(file, pos) {
      var data: nat :| Line(file, pos, data) && BytesMissing(file, pos, data);
      LineIs(file, pos, data);
    }
  }

  lemma {:induction false} ArgsEnd(file: ByteString, pos: nat, argv: Command, next: nat)
    requires IsArgs(file, pos, argv, next)
    ensures pos <= next <= |file|
    decreases |argv|
  {
    if argv != [] {
      var mid: nat :| IsArg(file, pos, argv[0], mid) && IsArgs(file, mid, argv[1..], next);
      ArgsEnd(file, mid, argv[1..], next);
    }
  }

  lemma {:induction false} ArgsTaken(file: ByteString, pos: nat, before: Command, argv: Command, next: nat)
    requires IsArgs(file, pos, argv, next) && pos <= |file|
    ensures ReadArgs(file, pos, before, |before| + |argv|) == Taken(before + argv, next)
    decreases |argv|
  {
    hide IsArg, ReadArg;
    if argv == [] {
      assert before + argv == before;
    } else {
      var mid: nat :| IsArg(file, pos, argv[0], mid) && IsArgs(file, mid, argv[1..], next);
      ArgTaken(file, pos, argv[0], mid);
      ArgsEnd(file, mid, argv[1..], next);
      ArgsTaken(file, mid, before + [argv[0]], argv[1..], next);
      assert before + [argv[0]] + argv[1..] == before + argv;
    }
  }

  /** Behind some arguments, the next one decides. */
  lemma {:induction false} ArgsThen(file: ByteString, pos: nat, before: Command, argv: Command, mid: nat, argc: nat)
    requires IsArgs(file, pos, argv, mid) && pos <= |file| && |before| + |argv| < argc
    ensures mid <= |file|
    ensures !ReadArg(file, mid).Taken? ==> ReadArgs(file, pos, before, argc) == ReadArg(file, mid)
    decreases |argv|
  {
    hide IsArg, ReadArg;
    ArgsEnd(file, pos, argv, mid);
    if argv != [] {
      var at: nat :| IsArg(file, pos, argv[0], at) && IsArgs(file, at, argv[1..], mid);
      ArgTaken(file, pos, argv[0], at);
      ArgsEnd(file, at, argv[1..], mid);
      ArgsThen(file, at, before + [argv[0]], argv[1..], mid, argc);
    }
  }

  /** One more argument in front. */
  lemma ArgsCons(file: ByteString, pos: nat, arg: ByteString, mid: nat, argv: Command, next: nat)
    requires IsArg(file, pos, arg, mid) && IsArgs(file, mid, argv, next)
    ensures IsArgs(file, pos, [arg] + argv, next)
  {
    hide IsArg;
    assert ([arg] + argv)[1..] == argv;
  }

  lemma {:induction false} ArgsIs(file: ByteString, pos: nat, before: Command, argc: nat) returns (argv: Command)
    requires pos <= |file| && |before| <= argc
    ensures var r := ReadArgs(file, pos, before, argc);
            && (r.Taken? ==> r.argv == before + argv && IsArgs(file, pos, argv, r.next))
            && (r.Malformed? ==> BadArgs(file, pos, argc - |before|))
            && (r.Short? ==> CutArgs(file, pos, argc - |before|))
            && !r.Unreadable?
    decreases argc - |before|
  {
    hide IsArg, ReadArg, BadArg, CutArg;
    argv := [];
    var r, all := ReadArg(file, pos), ReadArgs(file, pos, before, argc);
    if |before| == argc {
      assert before + [] == before;
    } else {
      ArgIs(file, pos);
      if r.Taken? {
        var rest := ArgsIs(file, r.next, before + r.argv, argc);
        var arg := r.argv[0];
        argv := [arg] + rest;
        assert r.argv == [arg] && before + argv == before + r.argv + rest;
        if all.Taken? {
          ArgsCons(file, pos, arg, r.next, rest, all.next);
        } else if all.Malformed? {
          var some: Command, mid: nat :|
            |some| < argc - |before| - 1 && IsArgs(file, r.next, some, mid) && BadArg(file, mid);
          ArgsCons(file, pos, arg, r.next, some, mid);
        } else {
          var some: Command, mid: nat :|
            |some| < argc - |before| - 1 && IsArgs(file, r.next, some, mid) && CutArg(file, mid);
          ArgsCons(file, pos, arg, r.next, some, mid);
        }
      } else {
        assert IsArgs(file, pos, [], pos);
      }
    }
  }

  /** The loader takes exactly the commands, and takes anything else for exactly what it is. */
  lemma CommandIs(file: ByteString, pos: nat)
    requires pos < |file|
    ensures var r := ReadCommand(file, pos);
            && (forall argv, next: nat :: IsCommand(file, pos, argv, next) <==> r == Taken(argv, next))
            && (BadCommand(file, pos) <==> r == Malformed)
            && (CutCommand(file, pos) <==> r == Short)
            && (StrayMark(file, pos) <==> r == Unreadable)
  {
    hide StrToL, AtoI, FgetsEnd, IsArgs, BadArgs, CutArgs, ReadArgs;
    var end := FgetsEnd(file, pos, LINE_MAX);
    var r := ReadCommand(file, pos);
    LineIs(file, pos, end);
    forall other: nat | Line(file, pos, other) ensures other == end { LineIs(file, pos, other); }
    assert file[pos] == '*' ==> Marked(file, pos, end) != Counted(file, pos, end);
    if Marked(file, pos, end) {
      assert r == if HitEof(file, pos) then Short else Unreadable;
    } else if Counted(file, pos, end) && AtoI(file[pos + 1..end]) >= 1 {
      CountedIs(file, end, AtoI(file[pos + 1..end]));
    }
  }

  lemma CountedIs(file: ByteString, end: nat, argc: nat)
    requires end <= |file|
    ensures var r := ReadArgs(file, end, [], argc);
            && (forall argv, next: nat :: |argv| == argc && IsArgs(file, end, argv, next) <==> r == Taken(argv, next))
            && (BadArgs(file, end, argc) <==> r == Malformed)
            && (CutArgs(file, end, argc) <==> r == Short)
            && !r.Unreadable?
  {
    hide IsArgs, ReadArgs, BadArg, CutArg;
    var r := ReadArgs(file, end, [], argc);
    var argv := ArgsIs(file, end, [], argc);
    assert [] + argv == argv;
    forall argv: Command, next: nat | |argv| == argc && IsArgs(file, end, argv, next) ensures r == Taken(argv, next) {
      ArgsTaken(file, end, [], argv, next);
      assert [] + argv == argv;
    }
    if BadArgs(file, end, argc) {
      var some: Command, mid: nat :| |some| < argc && IsArgs(file, end, some, mid) && BadArg(file, mid);
      ArgsThen(file, end, [], some, mid, argc);
      ArgRefused(file, mid);
    }
    if CutArgs(file, end, argc) {
      var some: Command, mid: nat :| |some| < argc && IsArgs(file, end, some, mid) && CutArg(file, mid);
      ArgsThen(file, end, [], some, mid, argc);
      ArgRefused(file, mid);
    }
  }

  // ---------------------------------------------------------------- whole files

  /** The file begins with these commands, each between two neighbouring offsets. */
  ghost predicate Reads(file: ByteString, cmds: seq<Command>, ends: seq<nat>) {
    && |ends| == |cmds| + 1 && ends[0] == 0
    && forall i :: 0 <= i < |cmds| ==> cmds[i] != [] && IsCommand(file, ends[i], cmds[i], ends[i + 1])
  }

  /** The offset of the last MULTI among the first `k` commands. */
  function OpenedAt(cmds: seq<Command>, ends: seq<nat>, k: nat, lookup: Lookup): nat
    requires k <= |cmds| && |ends| == |cmds| + 1
  {
    if LastMulti(cmds, k, lookup).None? then 0 else ends[LastMulti(cmds, k, lookup).value]
  }

  ghost function LoaderAfter(file: ByteString, cmds: seq<Command>, ends: seq<nat>, k: nat, lookup: Lookup,
                             truncate: bool): Loaded
    requires Named(cmds) && k <= |cmds| && |ends| == |cmds| + 1 && ends[k] <= |file|
  {
    LoadFrom(file, lookup, truncate, ends[k], ReplayAll(lookup, FreshReplay, cmds[..k]),
             if truncate then ends[k] else 0, if truncate then OpenedAt(cmds, ends, k, lookup) else 0)
  }

  lemma CommandStarts(file: ByteString, pos: nat, argv: Command, next: nat)
    requires IsCommand(file, pos, argv, next)
    ensures pos < |file|
  {
    var end: nat :| Counted(file, pos, end) && AtoI(file[pos + 1..end]) == |argv| >= 1 && IsArgs(file, end, argv, next);
  }

  lemma ReadsAt(file: ByteString, cmds: seq<Command>, ends: seq<nat>, i: nat)
    requires Reads(file, cmds, ends) && i < |cmds|
    ensures ends[i] < |file| && ends[i + 1] <= |file| && ReadCommand(file, ends[i]) == Taken(cmds[i], ends[i + 1])
  {
    hide IsArgs, AtoI, ReadCommand;
    CommandStarts(file, ends[i], cmds[i], ends[i + 1]);
    CommandIs(file, ends[i]);
  }

  lemma KnownAt(cmds: seq<Command>, lookup: Lookup, i: nat)
    requires AllKnown(cmds, lookup) && i < |cmds| && cmds[i] != []
    ensures lookup(cmds[i][0]) != Unknown
  {
  }

  lemma ReadsTurn(file: ByteString, cmds: seq<Command>, ends: seq<nat>, i: nat, lookup: Lookup, truncate: bool)
    requires Reads(file, cmds, ends) && Named(cmds) && AllKnown(cmds, lookup) && i < |cmds|
    ensures ends[i] <= |file| && ends[i + 1] <= |file|
    ensures LoaderAfter(file, cmds, ends, i, lookup, truncate) == LoaderAfter(file, cmds, ends, i + 1, lookup, truncate)
  {
    hide ReadCommand, ReplayAll, IsCommand, AllKnown;
    ReadsAt(file, cmds, ends, i);
    KnownAt(cmds, lookup, i);
    ReplayNext(cmds, lookup, i);
  }

  /** Where the file begins with whole known commands, the loader gets behind them. */
  lemma {:induction false} ReadsRun(file: ByteString, cmds: seq<Command>, ends: seq<nat>, i: nat, lookup: Lookup,
                                    truncate: bool)
    requires Reads(file, cmds, ends) && Named(cmds) && AllKnown(cmds, lookup) && i <= |cmds|
    ensures ends[i] <= |file| && ends[|cmds|] <= |file|
    ensures LoaderAfter(file, cmds, ends, i, lookup, truncate)
            == LoaderAfter(file, cmds, ends, |cmds|, lookup, truncate)
    decreases |cmds| - i
  {
    hide LoaderAfter, IsCommand, AllKnown;
    if i < |cmds| {
      ReadsTurn(file, cmds, ends, i, lookup, truncate);
      ReadsRun(file, cmds, ends, i + 1, lookup, truncate);
    } else if i > 0 {
      ReadsAt(file, cmds, ends, i - 1);
    }
  }

  /** What the loader makes of a file that begins with whole known commands, by what stands behind them. */
  ghost predicate Ends(file: ByteString, cmds: seq<Command>, ends: seq<nat>, lookup: Lookup, truncate: bool, r: Loaded)
    requires Named(cmds) && |ends| == |cmds| + 1
  {
    var at, s := ends[|cmds|], ReplayAll(lookup, FreshReplay, cmds);
    && (at == |file| && !s.inMulti ==> r == Ok(s.run, None))
    && (at == |file| && s.inMulti ==>
          r == if truncate then Ok(s.run, Some(OpenedAt(cmds, ends, |cmds|, lookup))) else ShortRead)
    && (CutCommand(file, at) ==> r == if truncate then Ok(s.run, Some(at)) else ShortRead)
    && (BadCommand(file, at) ==> r == FormatError)
    && (StrayMark(file, at) ==> r == ReadError)
    && (forall argv: Command, next: nat ::
          IsCommand(file, at, argv, next) && argv != [] && lookup(argv[0]) == Unknown ==>
          r == UnknownCommand(argv[0]))
  }

  lemma LoadEnds(file: ByteString, cmds: seq<Command>, ends: seq<nat>, lookup: Lookup, truncate: bool)
    requires file != [] && !(REDIS_SIG <= file)
    requires Reads(file, cmds, ends) && Named(cmds) && AllKnown(cmds, lookup)
    ensures Ends(file, cmds, ends, lookup, truncate, Load(file, lookup, truncate))
  {
    hide ReadCommand, IsCommand, CutCommand, BadCommand, StrayMark, ReplayAll, AllKnown;
    ReadsRun(file, cmds, ends, 0, lookup, truncate);
    assert cmds[..0] == [] && cmds[..|cmds|] == cmds;
    FreshIs(lookup);
    assert LastMulti(cmds, 0, lookup) == None;
    var at := ends[|cmds|];
    if at < |file| { CommandIs(file, at); } else { NoCommandAtEnd(file, at); }
  }

  lemma FreshIs(lookup: Lookup)
    ensures ReplayAll(lookup, FreshReplay, []) == FreshReplay
  {
  }

  lemma NoCommandAtEnd(file: ByteString, at: nat)
    requires at >= |file|
    ensures !CutCommand(file, at) && !BadCommand(file, at) && !StrayMark(file, at)
    ensures forall argv: Command, next: nat :: !IsCommand(file, at, argv, next)
  {
  }

  /** Every file is some known commands and then its end, the end of the bytes inside a command, something that is no
      command, or an unknown command; and `Ends` says what each comes to. */
  lemma {:induction false} LoadStops(file: ByteString, cmds: seq<Command>, ends: seq<nat>, lookup: Lookup)
    returns (all: seq<Command>, offsets: seq<nat>)
    requires Reads(file, cmds, ends) && AllKnown(cmds, lookup) && ends[|cmds|] <= |file|
    ensures Reads(file, all, offsets) && Named(all) && AllKnown(all, lookup)
    ensures var at := offsets[|all|];
            || at == |file| || BadCommand(file, at) || CutCommand(file, at) || StrayMark(file, at)
            || exists argv: Command, next: nat ::
                 IsCommand(file, at, argv, next) && argv != [] && lookup(argv[0]) == Unknown
    decreases |file| - ends[|cmds|]
  {
    hide IsCommand, CutCommand, BadCommand, StrayMark;
    all, offsets := cmds, ends;
    var at := ends[|cmds|];
    if at < |file| {
      CommandIs(file, at);
      var r := ReadCommand(file, at);
      if r.Taken? {
        assert IsCommand(file, at, r.argv, r.next);
        if lookup(r.argv[0]) != Unknown {
          all, offsets := LoadStops(file, cmds + [r.argv], ends + [r.next], lookup);
        }
      }
    }
  }

  ghost predicate Stops(file: ByteString, at: nat, lookup: Lookup) {
    || at == |file| || BadCommand(file, at) || CutCommand(file, at) || StrayMark(file, at)
    || exists argv: Command, next: nat :: IsCommand(file, at, argv, next) && argv != [] && lookup(argv[0]) == Unknown
  }

  /** Every file: the whole known commands it begins with, what stops them, and what the loader makes of it. */
  lemma LoadOutcome(file: ByteString, lookup: Lookup, truncate: bool) returns (cmds: seq<Command>, ends: seq<nat>)
    requires file != [] && !(REDIS_SIG <= file)
    ensures Reads(file, cmds, ends) && Named(cmds) && AllKnown(cmds, lookup) && Stops(file, ends[|cmds|], lookup)
    ensures Ends(file, cmds, ends, lookup, truncate, Load(file, lookup, truncate))
  {
    hide IsCommand, CutCommand, BadCommand, StrayMark, Load, Ends;
    cmds, ends := LoadStops(file, [], [0], lookup);
    LoadEnds(file, cmds, ends, lookup, truncate);
  }

  /** A file that loads is whole known commands up to its end, or up to a command that the end cuts off and that
      truncation was asked for. Nothing else is ever accepted. */
  lemma LoadedFileReads(file: ByteString, lookup: Lookup, truncate: bool) returns (cmds: seq<Command>, ends: seq<nat>)
    requires Load(file, lookup, truncate).Ok?
    ensures Reads(file, cmds, ends) && Named(cmds) && AllKnown(cmds, lookup)
    ensures var r, at, s := Load(file, lookup, truncate), ends[|cmds|], ReplayAll(lookup, FreshReplay, cmds);
            && r.run == s.run
            && (if at == |file| && !s.inMulti then r.cut == None
                else truncate && r.cut.Some? &&
                     if at == |file| then r.cut.value == OpenedAt(cmds, ends, |cmds|, lookup)
                     else CutCommand(file, at) && r.cut.value == at)
  {
    hide IsCommand, CutCommand, BadCommand, StrayMark, LoadFrom, ReplayAll;
    cmds, ends := LoadOutcome(file, lookup, truncate);
  }

  // ---------------------------------------------------------------- printed logs, and what may follow them

  function Boundaries(cmds: seq<Command>): (ends: seq<nat>)
    ensures |ends| == |cmds| + 1 && forall i :: 0 <= i <= |cmds| ==> ends[i] == Boundary(cmds, i)
  {
    seq(|cmds| + 1, i requires 0 <= i <= |cmds| => Boundary(cmds, i))
  }

  lemma PrintedReads(cmds: seq<Command>, rest: ByteString)
    requires PrintableLog(cmds)
    ensures Reads(PrintedLog(cmds) + rest, cmds, Boundaries(cmds)) && Boundary(cmds, |cmds|) == |PrintedLog(cmds)|
    ensures Named(cmds)
  {
    hide IsCommand, Printed, PrintedLog;
    var file := PrintedLog(cmds) + rest;
    BoundaryIsPrefix(cmds, |cmds|);
    assert cmds[..|cmds|] == cmds;
    forall i | 0 <= i < |cmds| ensures IsCommand(file, Boundary(cmds, i), cmds[i], Boundary(cmds, i + 1)) {
      LogAt(cmds, i);
      BoundaryStep(cmds, i);
      BoundaryMonotone(cmds, i + 1, |cmds|);
      StandsLonger(PrintedLog(cmds), rest, Boundary(cmds, i), Printed(cmds[i]));
      CommandRead(file, Boundary(cmds, i), cmds[i]);
      CommandIs(file, Boundary(cmds, i));
    }
    BoundaryStarts(cmds);
  }

  lemma BoundaryStarts(cmds: seq<Command>)
    ensures Boundary(cmds, 0) == 0
  {
  }

  lemma StandsLonger(file: ByteString, rest: ByteString, pos: nat, s: ByteString)
    requires Stands(file, pos, s) && pos + |s| <= |file|
    ensures Stands(file + rest, pos, s)
  {
  }

  // ----- the bytes of a command, behind other bytes

  lemma LineBehind(a: ByteString, b: ByteString, pos: nat, end: nat)
    requires Line(b, pos, end)
    ensures Line(a + b, |a| + pos, |a| + end) && (a + b)[|a| + pos..|a| + end] == b[pos..end]
    ensures (a + b)[|a| + pos] == b[pos] && (a + b)[|a| + pos + 1..|a| + end] == b[pos + 1..end]
    ensures end > pos + 1 ==> (a + b)[|a| + pos + 1] == b[pos + 1]
  {
    forall i | |a| + pos <= i < |a| + end - 1 ensures (a + b)[i] != LF {
      assert (a + b)[i] == b[i - |a|];
    }
  }

  lemma ArgBehind(a: ByteString, b: ByteString, pos: nat, arg: ByteString, next: nat)
    requires IsArg(b, pos, arg, next)
    ensures IsArg(a + b, |a| + pos, arg, |a| + next)
  {
    hide StrToL;
    var data: nat :| Line(b, pos, data) && ArgBytes(b, pos, data, arg, next);
    LineBehind(a, b, pos, data);
    assert (a + b)[|a| + data..|a| + data + |arg|] == b[data..data + |arg|];
    assert ArgBytes(a + b, |a| + pos, |a| + data, arg, |a| + next);
  }

  lemma {:induction false} ArgsBehind(a: ByteString, b: ByteString, pos: nat, argv: Command, next: nat)
    requires IsArgs(b, pos, argv, next)
    ensures IsArgs(a + b, |a| + pos, argv, |a| + next)
    decreases |argv|
  {
    hide IsArg;
    if argv != [] {
      var mid: nat :| IsArg(b, pos, argv[0], mid) && IsArgs(b, mid, argv[1..], next);
      ArgBehind(a, b, pos, argv[0], mid);
      ArgsBehind(a, b, mid, argv[1..], next);
    }
  }

  lemma BadBehind(a: ByteString, b: ByteString, pos: nat)
    requires BadCommand(b, pos)
    ensures BadCommand(a + b, |a| + pos)
  {
    hide IsArgs, AtoI;
    if b[pos] == '*' {
      var end: nat :| Counted(b, pos, end) &&
                      (AtoI(b[pos + 1..end]) < 1 || BadArgs(b, end, AtoI(b[pos + 1..end])));
      LineBehind(a, b, pos, end);
      assert Counted(a + b, |a| + pos, |a| + end);
      if AtoI(b[pos + 1..end]) >= 1 {
        var argv: Command, mid: nat :|
          |argv| < AtoI(b[pos + 1..end]) && IsArgs(b, end, argv, mid) && BadArg(b, mid);
        ArgsBehind(a, b, end, argv, mid);
        assert BadArg(a + b, |a| + mid);
        assert BadArgs(a + b, |a| + end, AtoI(b[pos + 1..end]));
      }
    }
  }

  /** A log followed by what is no command is refused, whether or not truncation is asked for. */
  lemma JunkRefused(cmds: seq<Command>, junk: ByteString, lookup: Lookup, truncate: bool)
    requires PrintableLog(cmds) && AllKnown(cmds, lookup) && BadCommand(junk, 0)
    requires !(REDIS_SIG <= PrintedLog(cmds) + junk)
    ensures Load(PrintedLog(cmds) + junk, lookup, truncate) == FormatError
  {
    hide BadCommand, IsCommand, Load, PrintedLog, AllKnown, PrintableLog, Printed;
    PrintedReads(cmds, junk);
    JunkIsThere(junk);
    BadBehind(PrintedLog(cmds), junk, 0);
    LoadEnds(PrintedLog(cmds) + junk, cmds, Boundaries(cmds), lookup, truncate);
  }

  lemma JunkIsThere(junk: ByteString)
    requires BadCommand(junk, 0)
    ensures junk != []
  {
  }

  /** No command: a byte other than '*'. */
  lemma NoStarIsBad(junk: ByteString)
    requires junk != [] && junk[0] != '*'
    ensures BadCommand(junk, 0)
  {
  }

  /** No command: a header line whose count is below one. */
  lemma LowCountIsBad(digits: ByteString, tail: ByteString)
    requires digits != [] && |digits| <= 124 && digits[0] != '\0' && '\n' !in digits && AtoI(digits + "\r\n") < 1
    ensures BadCommand("*" + digits + "\r\n" + tail, 0)
  {
    hide AtoI;
    var junk, end := "*" + digits + "\r\n" + tail, |digits| + 3;
    assert junk[1..end] == digits + "\r\n";
    assert Counted(junk, 0, end);
  }

  /** No command: a whole header, fewer arguments than it counts, and then a byte other than '$'. */
  lemma NoDollarIsBad(argc: nat, args: Command, tail: ByteString)
    requires |args| < argc <= 0x7fff_ffff && forall i :: 0 <= i < |args| ==> |args[i]| <= LONG_MAX
    requires tail != [] && tail[0] != '$'
    ensures BadCommand(Header(STAR, argc) + Bulks(args) + tail, 0)
  {
    hide Bulks, Header, StrToL, IsArgs, FgetsEnd, BadArgs;
    var h, b := Header(STAR, argc), Bulks(args);
    var file := h + b + tail;
    HeaderRead(file, 0, STAR, argc);
    LineIs(file, 0, |h|);
    assert Counted(file, 0, |h|);
    ArgsStand(file, |h|, args);
    assert file[|h| + |b|] == tail[0];
    NoArgument(file, |h|, args, argc);
  }

  lemma ArgsStand(file: ByteString, pos: nat, args: Command)
    requires forall i :: 0 <= i < |args| ==> |args[i]| <= LONG_MAX
    requires Stands(file, pos, Bulks(args)) && pos + |Bulks(args)| <= |file|
    ensures IsArgs(file, pos, args, pos + |Bulks(args)|)
  {
    hide Bulks, IsArgs, ReadArgs, BadArgs, CutArgs, Stands;
    ArgsRead(file, pos, [], args);
    assert [] + args == args;
    CountedIs(file, pos, |args|);
  }

  lemma NoArgument(file: ByteString, pos: nat, args: Command, argc: nat)
    requires |args| < argc && IsArgs(file, pos, args, pos + |Bulks(args)|)
    requires pos + |Bulks(args)| < |file| && file[pos + |Bulks(args)|] != '$'
    ensures BadArgs(file, pos, argc)
  {
    hide Bulks, IsArgs;
    assert BadArg(file, pos + |Bulks(args)|);
  }

  /** With aof-load-truncated off, a log that was cut inside a command, or that ends inside a transaction, is a short
      read, and any other one loads. */
  lemma CutRefused(cmds: seq<Command>, j: nat, lookup: Lookup)
    requires PrintableLog(cmds) && AllKnown(cmds, lookup) && 0 < j <= |PrintedLog(cmds)|
    ensures var k := Whole(cmds, j);
            var s := ReplayAll(lookup, FreshReplay, cmds[..k]);
            && Boundary(cmds, k) <= j
            && Load(PrintedLog(cmds)[..j], lookup, false)
               == if Boundary(cmds, k) == j && !s.inMulti then Ok(s.run, None) else ShortRead
  {
    hide IsCommand, CutCommand, Load, PrintedLog, ReplayAll, Whole, Printed, Boundary, Boundaries;
    var k := Whole(cmds, j);
    WholeBounds(cmds, j);
    BoundaryIsPrefix(cmds, k);
    var begun, file := cmds[..k], PrintedLog(cmds)[..j];
    var rest := file[Boundary(cmds, k)..];
    assert file == PrintedLog(begun) + rest;
    PrintedReads(begun, rest);
    BoundaryOfPrefix(cmds, k);
    LogStartsWithStar(cmds, j);
    BoundaryIsPrefix(cmds, |cmds|);
    assert cmds[..|cmds|] == cmds;
    if Boundary(cmds, k) < j {
      LogAt(cmds, k);
      BoundaryStep(cmds, k);
      StandsShorter(PrintedLog(cmds), j, Boundary(cmds, k), Printed(cmds[k]));
      CommandCut(file, Boundary(cmds, k), cmds[k]);
      CommandIs(file, Boundary(cmds, k));
    }
    LoadEnds(file, begun, Boundaries(begun), lookup, false);
  }

  lemma StandsShorter(file: ByteString, j: nat, pos: nat, s: ByteString)
    requires Stands(file, pos, s) && pos <= j <= |file|
    ensures Stands(file[..j], pos, s)
  {
  }

  lemma BoundaryOfPrefix(cmds: seq<Command>, k: nat)
    requires k <= |cmds|
    ensures Boundary(cmds[..k], k) == Boundary(cmds, k)
  {
    BoundaryIsPrefix(cmds, k);
    BoundaryIsPrefix(cmds[..k], k);
    assert cmds[..k][..k] == cmds[..k];
  }

  lemma LogStartsWithStar(cmds: seq<Command>, j: nat)
    requires 0 < j <= |PrintedLog(cmds)|
    ensures PrintedLog(cmds)[..j][0] == STAR && !(REDIS_SIG <= PrintedLog(cmds)[..j])
  {
    assert cmds != [];
    LogAt(cmds, 0);
  }

  /** A command that is not in the table ends the loading, whatever follows it. */
  lemma UnknownRefused(cmds: seq<Command>, argv: Command, rest: ByteString, lookup: Lookup, truncate: bool)
    requires PrintableLog(cmds + [argv]) && AllKnown(cmds, lookup) && argv != [] && lookup(argv[0]) == Unknown
    ensures Load(PrintedLog(cmds + [argv]) + rest, lookup, truncate) == UnknownCommand(argv[0])
  {
    hide IsCommand, Load, PrintedLog, Printed, Boundary, Boundaries, AllKnown, ReplayAll;
    var all := cmds + [argv];
    var file := PrintedLog(all) + rest;
    PrintedReads(all, rest);
    var e, f := Boundaries(cmds), Boundaries(all);
    forall i | 0 <= i <= |cmds| ensures e[i] == f[i] {
      assert all[..i] == cmds[..i];
      BoundaryIsPrefix(all, i);
      BoundaryIsPrefix(cmds, i);
    }
    forall i | 0 <= i < |cmds| ensures cmds[i] != [] && IsCommand(file, e[i], cmds[i], e[i + 1]) {
      assert all[i] == cmds[i] && IsCommand(file, f[i], all[i], f[i + 1]);
      assert e[i] == f[i] && e[i + 1] == f[i + 1];
    }
    assert Reads(file, cmds, e);
    assert IsCommand(file, f[|cmds|], all[|cmds|], f[|cmds| + 1]);
    BoundaryIsPrefix(all, |all|);
    BoundaryIsPrefix(all, 1);
    BoundaryMonotone(all, 1, |all|);
    assert all[..|all|] == all;
    LogStartsWithStar(all, |PrintedLog(all)|);
    assert file[0] == STAR;
    LoadEnds(file, cmds, Boundaries(cmds), lookup, truncate);
  }

  /** Such files, in full. */
  lemma GarbageRefused(lookup: Lookup, truncate: bool)
    ensures Load("garbage", lookup, truncate) == FormatError
    ensures Load("*0\r\n", lookup, truncate) == FormatError
  {
    hide Load, AtoI, BadCommand;
    NoStarIsBad("garbage");
    assert PrintedLog([]) + "garbage" == "garbage" && "garbage"[0] != 'R';
    JunkRefused([], "garbage", lookup, truncate);
    ZeroIsLow();
    var zero := "*0\r\n";
    assert "0" + "\r\n" == "0\r\n" && "*" + "0" + "\r\n" + "" == zero;
    LowCountIsBad("0", "");
    assert PrintedLog([]) + zero == zero && zero[0] != 'R';
    JunkRefused([], zero, lookup, truncate);
  }

  lemma ZeroIsLow()
    ensures AtoI("0\r\n") == 0
  {
    StrToLOfDec(0, "\r\n");
    assert Dec(0) + "\r\n" == "0\r\n";
  }
}
