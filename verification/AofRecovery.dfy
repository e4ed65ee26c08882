// What replaying a printed log, or any prefix of one, executes.
module AofRecovery {
  import opened Bytes
  import opened AofLog

  predicate PrintableLog(cmds: seq<Command>) {
    forall i :: 0 <= i < |cmds| ==> Printable(cmds[i])
  }

  /** Every command has a name. */
  predicate Named(cmds: seq<Command>) {
    forall i :: 0 <= i < |cmds| ==> cmds[i] != []
  }

  ghost predicate AllKnown(cmds: seq<Command>, lookup: Lookup) {
    forall i :: 0 <= i < |cmds| && cmds[i] != [] ==> lookup(cmds[i][0]) != Unknown
  }

  // ---------------------------------------------------------------- lines

  /** `s` stands in the file at `pos`, or the file ends inside it. */
  predicate Stands(file: ByteString, pos: nat, s: ByteString) {
    pos <= |file| && forall k :: pos <= k < |file| && k < pos + |s| ==> file[k] == s[k - pos]
  }

  lemma StandsApart(file: ByteString, pos: nat, s: ByteString, t: ByteString)
    requires Stands(file, pos, s + t)
    ensures Stands(file, pos, s)
    ensures pos + |s| <= |file| ==> Stands(file, pos + |s|, t)
  {
  }

  lemma {:induction false} FgetsTo(file: ByteString, pos: nat, stop: nat, room: nat)
    requires pos <= stop <= |file| && stop - pos < room
    requires forall i :: pos <= i < stop ==> file[i] != LF
    requires stop < |file| ==> file[stop] == LF
    ensures FgetsEnd(file, pos, room) == if stop < |file| then stop + 1 else stop
    decreases room
  {
    if pos < stop { FgetsTo(file, pos + 1, stop, room - 1); }
  }

  /** A whole header line reads back as its number. */
  lemma HeaderRead(file: ByteString, pos: nat, mark: Byte, n: nat)
    requires n <= LONG_MAX && mark != LF
    requires Stands(file, pos, Header(mark, n)) && pos + |Header(mark, n)| <= |file|
    ensures var end := pos + |Header(mark, n)|;
            && FgetsEnd(file, pos, LINE_MAX) == end >= pos + 4
            && file[pos] == mark && IsDigit(file[pos + 1])
            && StrToL(file[pos + 1..end]) == n
  {
    hide StrToL, Digits;
    var h := Header(mark, n);
    var end := pos + |h|;
    LongHas19Digits(n);
    DecDigits(n);
    forall k | pos <= k < end - 1 ensures file[k] != LF {
      if pos < k <= pos + |Dec(n)| { assert h[k - pos] == Dec(n)[k - pos - 1]; }
    }
    FgetsTo(file, pos, end - 1, LINE_MAX);
    assert file[pos + 1..end] == Dec(n) + CRLF;
    StrToLOfDec(n, CRLF);
    assert h[1] == Dec(n)[0];
  }

  /** A header line that was cut short: nothing but the mark, or a number between 1 and `n`
      (zero when n is 0), and the end of the file. */
  lemma HeaderCut(file: ByteString, pos: nat, mark: Byte, n: nat)
    requires n <= LONG_MAX && mark != LF
    requires pos < |file| < pos + |Header(mark, n)| && Stands(file, pos, Header(mark, n))
    ensures FgetsEnd(file, pos, LINE_MAX) == |file|
    ensures HitEof(file, pos)
    ensures file[pos] == mark
    ensures pos + 1 < |file| ==> IsDigit(file[pos + 1])
    ensures 0 <= StrToL(file[pos + 1..]) <= n
    ensures pos + 1 < |file| && n >= 1 ==> StrToL(file[pos + 1..]) >= 1
  {
    hide StrToL, Digits;
    var h, j := Header(mark, n), |file| - pos;
    LongHas19Digits(n);
    DecDigits(n);
    forall k | pos <= k < |file| ensures file[k] != LF {
      if pos < k <= pos + |Dec(n)| { assert h[k - pos] == Dec(n)[k - pos - 1]; }
    }
    FgetsTo(file, pos, |file|, LINE_MAX);
    if j == 1 {
      assert file[pos + 1..] == [];
      StrToLOfNothing();
    } else if j == |h| - 1 {
      assert file[pos + 1..] == Dec(n) + [CR];
      StrToLOfDec(n, [CR]);
    } else {
      assert file[pos + 1..] == Dec(n)[..j - 1];
      var m := n;
      if n >= 1 { m := DecPrefix(n, j - 1); }
      assert file[pos + 1..] == Dec(m) + [];
      StrToLOfDec(m, []);
    }
    if j > 1 { assert h[1] == Dec(n)[0]; }
  }

  // ---------------------------------------------------------------- arguments

  /** A bulk is its header line, the argument and a line end. */
  lemma BulkStands(file: ByteString, pos: nat, arg: ByteString)
    requires Stands(file, pos, Bulk(arg))
    ensures var h := Header(DOLLAR, |arg|);
            && |Bulk(arg)| == |h| + |arg| + 2 && Stands(file, pos, h)
            && (pos + |h| <= |file| ==> Stands(file, pos + |h|, arg))
  {
    hide Stands, Header;
    var h := Header(DOLLAR, |arg|);
    assert Bulk(arg) == h + (arg + CRLF);
    StandsApart(file, pos, h, arg + CRLF);
    if pos + |h| <= |file| { StandsApart(file, pos + |h|, arg, CRLF); }
  }

  lemma WholeStands(file: ByteString, pos: nat, s: ByteString)
    requires Stands(file, pos, s) && pos + |s| <= |file|
    ensures file[pos..pos + |s|] == s
  {
  }

  lemma ArgRead(file: ByteString, pos: nat, arg: ByteString)
    requires |arg| <= LONG_MAX
    requires Stands(file, pos, Bulk(arg)) && pos + |Bulk(arg)| <= |file|
    ensures ReadArg(file, pos) == Taken([arg], pos + |Bulk(arg)|)
  {
    hide FgetsEnd, Header, Stands, Bulk, StrToL;
    BulkStands(file, pos, arg);
    HeaderRead(file, pos, DOLLAR, |arg|);
    WholeStands(file, pos + |Header(DOLLAR, |arg|)|, arg);
  }

  lemma ArgCut(file: ByteString, pos: nat, arg: ByteString)
    requires |arg| <= LONG_MAX
    requires pos <= |file| < pos + |Bulk(arg)| && Stands(file, pos, Bulk(arg))
    ensures ReadArg(file, pos) == Short
  {
    hide FgetsEnd, Header, Stands, Bulk, StrToL, HitEof;
    BulkStands(file, pos, arg);
    if pos + |Header(DOLLAR, |arg|)| <= |file| {
      HeaderRead(file, pos, DOLLAR, |arg|);
    } else if pos < |file| {
      HeaderCut(file, pos, DOLLAR, |arg|);
      assert file[pos + 1..|file|] == file[pos + 1..];
    }
  }

  lemma {:induction false} ArgsRead(file: ByteString, pos: nat, before: Command, argv: Command)
    requires forall i :: 0 <= i < |argv| ==> |argv[i]| <= LONG_MAX
    requires Stands(file, pos, Bulks(argv)) && pos + |Bulks(argv)| <= |file|
    ensures ReadArgs(file, pos, before, |before| + |argv|) == Taken(before + argv, pos + |Bulks(argv)|)
    decreases |argv|
  {
    hide Stands;
    hide ReadArg;
    hide Bulk;
    if argv == [] {
      assert before + argv == before;
    } else {
      var b := Bulk(argv[0]);
      StandsApart(file, pos, b, Bulks(argv[1..]));
      ArgRead(file, pos, argv[0]);
      ArgsRead(file, pos + |b|, before + [argv[0]], argv[1..]);
      assert before + [argv[0]] + argv[1..] == before + argv;
    }
  }

  lemma {:induction false} ArgsCut(file: ByteString, pos: nat, before: Command, argv: Command)
    requires forall i :: 0 <= i < |argv| ==> |argv[i]| <= LONG_MAX
    requires pos <= |file| < pos + |Bulks(argv)| && Stands(file, pos, Bulks(argv))
    ensures ReadArgs(file, pos, before, |before| + |argv|) == Short
    decreases |argv|
  {
    hide Stands;
    hide ReadArg;
    hide Bulk;
    var b := Bulk(argv[0]);
    StandsApart(file, pos, b, Bulks(argv[1..]));
    if |file| < pos + |b| {
      ArgCut(file, pos, argv[0]);
    } else {
      ArgRead(file, pos, argv[0]);
      ArgsCut(file, pos + |b|, before + [argv[0]], argv[1..]);
    }
  }

  // ---------------------------------------------------------------- commands

  /** Round trip of one command, for arbitrary binary arguments. */
  lemma CommandRead(file: ByteString, pos: nat, argv: Command)
    requires Printable(argv)
    requires Stands(file, pos, Printed(argv)) && pos + |Printed(argv)| <= |file|
    ensures pos < |file| && ReadCommand(file, pos) == Taken(argv, pos + |Printed(argv)|)
  {
    hide Bulks, ReadArgs, ReadCommand, Stands, FgetsEnd, StrToL, Header;
    var h := Header(STAR, |argv|);
    StandsApart(file, pos, h, Bulks(argv));
    HeaderRead(file, pos, STAR, |argv|);
    ArgsRead(file, pos + |h|, [], argv);
    assert [] + argv == argv;
    CommandBody(file, pos, pos + |h|, |argv|);
  }

  /** Behind a whole header line, a command reads as its arguments do. */
  lemma CommandBody(file: ByteString, pos: nat, end: nat, argc: nat)
    requires 1 <= argc <= 0x7fff_ffff
    requires pos + 1 < end <= |file| && FgetsEnd(file, pos, LINE_MAX) == end
    requires file[pos] == STAR && IsDigit(file[pos + 1]) && StrToL(file[pos + 1..end]) == argc
    ensures ReadCommand(file, pos) == ReadArgs(file, end, [], argc)
  {
    hide ReadArgs, StrToL, FgetsEnd;
  }

  /** A command cut anywhere inside reads as a short read, never as malformed. */
  lemma CommandCut(file: ByteString, pos: nat, argv: Command)
    requires Printable(argv)
    requires pos < |file| < pos + |Printed(argv)| && Stands(file, pos, Printed(argv))
    ensures ReadCommand(file, pos) == Short
  {
    hide Bulks, ReadArgs, ReadCommand, Stands, FgetsEnd, StrToL, Header;
    var h := Header(STAR, |argv|);
    StandsApart(file, pos, h, Bulks(argv));
    if |file| < pos + |h| {
      CommandCutInHeader(file, pos, |argv|);
    } else {
      HeaderRead(file, pos, STAR, |argv|);
      ArgsCut(file, pos + |h|, [], argv);
      assert [] + argv == argv;
      CommandBody(file, pos, pos + |h|, |argv|);
    }
  }

  /** What is left of the number is no larger, and no argument follows. */
  lemma CommandCutInHeader(file: ByteString, pos: nat, argc: nat)
    requires 1 <= argc <= 0x7fff_ffff
    requires pos < |file| < pos + |Header(STAR, argc)| && Stands(file, pos, Header(STAR, argc))
    ensures ReadCommand(file, pos) == Short
  {
    hide Header, Stands, FgetsEnd, StrToL;
    HeaderCut(file, pos, STAR, argc);
    assert file[pos + 1..|file|] == file[pos + 1..];
  }

  // ---------------------------------------------------------------- whole logs and their prefixes

  /** How many commands of the log are whole within its first `j` bytes. */
  function Whole(cmds: seq<Command>, j: nat): (k: nat)
    ensures k <= |cmds|
    decreases |cmds|
  {
    if cmds == [] || j < |Printed(cmds[0])| then 0 else 1 + Whole(cmds[1..], j - |Printed(cmds[0])|)
  }

  /** The byte offset just after the first `k` commands. */
  function Boundary(cmds: seq<Command>, k: nat): nat
    requires k <= |cmds|
  {
    if k == 0 then 0 else |Printed(cmds[0])| + Boundary(cmds[1..], k - 1)
  }

  /** The last whole command ends within the `j` bytes, and the next one does not. */
  lemma {:induction false} WholeBounds(cmds: seq<Command>, j: nat)
    ensures var k := Whole(cmds, j);
            Boundary(cmds, k) <= j && (k < |cmds| ==> j < Boundary(cmds, k + 1))
    decreases |cmds|
  {
    if cmds != [] && j >= |Printed(cmds[0])| {
      WholeBounds(cmds[1..], j - |Printed(cmds[0])|);
    }
  }

  /** Boundaries are the lengths of the printed prefixes. */
  lemma {:induction false} BoundaryIsPrefix(cmds: seq<Command>, k: nat)
    requires k <= |cmds|
    ensures Boundary(cmds, k) <= |PrintedLog(cmds)|
    ensures PrintedLog(cmds)[..Boundary(cmds, k)] == PrintedLog(cmds[..k])
    ensures Boundary(cmds, k) == |PrintedLog(cmds[..k])|
    ensures 0 < k ==> 0 < Boundary(cmds, k)
    decreases k
  {
    if k > 0 {
      BoundaryIsPrefix(cmds[1..], k - 1);
      assert cmds[..k][1..] == cmds[1..][..k - 1];
      assert PrintedLog(cmds) == Printed(cmds[0]) + PrintedLog(cmds[1..]);
    }
  }

  function KindOf(lookup: Lookup, argv: Command): Kind {
    if argv == [] then Unknown else lookup(argv[0])
  }

  /** The index of the last MULTI among the first `k` commands. */
  function LastMulti(cmds: seq<Command>, k: nat, lookup: Lookup): (r: Option<nat>)
    requires k <= |cmds|
    ensures r.Some? ==> r.value < k && KindOf(lookup, cmds[r.value]) == Multi
    ensures forall i :: 0 <= i < k && (r.Some? ==> r.value < i) ==> KindOf(lookup, cmds[i]) != Multi
  {
    if k == 0 then None
    else if KindOf(lookup, cmds[k - 1]) == Multi then Some(k - 1)
    else LastMulti(cmds, k - 1, lookup)
  }

  /** Where the file is truncated after a log whose first `j` bytes survive: nowhere if they are
      whole commands outside any transaction, before the last MULTI if they are whole commands
      inside one, and after the last whole command otherwise. The cut is a command index. */
  function CutIndex(cmds: seq<Command>, j: nat, lookup: Lookup): (r: Option<nat>)
    requires PrintableLog(cmds)
    ensures r.Some? ==> r.value <= Whole(cmds, j)
  {
    var k := Whole(cmds, j);
    if Boundary(cmds, k) < j then Some(k)
    else if !ReplayAll(lookup, FreshReplay, cmds[..k]).inMulti then None
    else match LastMulti(cmds, k, lookup)
         case None => Some(0)
         case Some(m) => Some(m)
  }

  lemma {:induction false} ReplaySnoc(lookup: Lookup, s: Replay, cmds: seq<Command>, more: seq<Command>)
    requires Named(cmds) && Named(more)
    ensures ReplayAll(lookup, s, cmds + more) == ReplayAll(lookup, ReplayAll(lookup, s, cmds), more)
    decreases |cmds|
  {
    if cmds == [] {
      assert cmds + more == more;
    } else {
      assert (cmds + more)[1..] == cmds[1..] + more;
      ReplaySnoc(lookup, Step(s, cmds[0], lookup(cmds[0][0])), cmds[1..], more);
    }
  }

  /** The loader on the first `j` bytes of the log, at the boundary of its `i`-th command. */
  ghost function LoaderAt(cmds: seq<Command>, j: nat, lookup: Lookup, i: nat): Loaded
    requires PrintableLog(cmds) && j <= |PrintedLog(cmds)| && i <= |cmds| && Boundary(cmds, i) <= j
  {
    LoadFrom(PrintedLog(cmds)[..j], lookup, true, Boundary(cmds, i), ReplayAll(lookup, FreshReplay, cmds[..i]),
             Boundary(cmds, i), MultiOffset(cmds, i, lookup))
  }

  /** The last turn: nothing left, or a command that was cut short. */
  lemma LoaderEnds(cmds: seq<Command>, j: nat, lookup: Lookup)
    requires PrintableLog(cmds) && j <= |PrintedLog(cmds)|
    ensures var k, cut := Whole(cmds, j), CutIndex(cmds, j, lookup);
            && Boundary(cmds, k) <= j
            && LoaderAt(cmds, j, lookup, k)
               == Ok(ReplayAll(lookup, FreshReplay, cmds[..k]).run,
                     if cut.Some? then Some(Boundary(cmds, cut.value)) else None)
  {
    hide ReadCommand;
    hide Printed;
    hide ReplayAll;
    var k := Whole(cmds, j);
    WholeBounds(cmds, j);
    if Boundary(cmds, k) < j {
      BoundaryIsPrefix(cmds, |cmds|);
      assert cmds[..|cmds|] == cmds;
      LogAt(cmds, k);
      BoundaryStep(cmds, k);
      CommandCut(PrintedLog(cmds)[..j], Boundary(cmds, k), cmds[k]);
    }
  }

  lemma LoaderTurn(cmds: seq<Command>, j: nat, lookup: Lookup, i: nat)
    requires PrintableLog(cmds) && AllKnown(cmds, lookup)
    requires j <= |PrintedLog(cmds)| && i < Whole(cmds, j)
    ensures Boundary(cmds, i) <= Boundary(cmds, i + 1) <= j
    ensures LoaderAt(cmds, j, lookup, i) == LoaderAt(cmds, j, lookup, i + 1)
  {
    hide ReadCommand;
    hide Printed;
    hide ReplayAll;
    hide MultiOffset;
    WholeBounds(cmds, j);
    BoundaryStep(cmds, i);
    BoundaryMonotone(cmds, i + 1, Whole(cmds, j));
    LogAt(cmds, i);
    CommandRead(PrintedLog(cmds)[..j], Boundary(cmds, i), cmds[i]);
    ReplayNext(cmds, lookup, i);
  }

  lemma ReplayNext(cmds: seq<Command>, lookup: Lookup, i: nat)
    requires Named(cmds) && i < |cmds|
    ensures ReplayAll(lookup, FreshReplay, cmds[..i + 1])
            == Step(ReplayAll(lookup, FreshReplay, cmds[..i]), cmds[i], lookup(cmds[i][0]))
    ensures MultiOffset(cmds, i + 1, lookup)
            == if lookup(cmds[i][0]) == Multi then Boundary(cmds, i) else MultiOffset(cmds, i, lookup)
  {
    assert cmds[..i] + [cmds[i]] == cmds[..i + 1];
    ReplaySnoc(lookup, FreshReplay, cmds[..i], [cmds[i]]);
    ReplayOne(lookup, ReplayAll(lookup, FreshReplay, cmds[..i]), cmds[i]);
  }

  lemma {:induction false} LoaderRuns(cmds: seq<Command>, j: nat, lookup: Lookup, i: nat)
    requires PrintableLog(cmds) && AllKnown(cmds, lookup)
    requires j <= |PrintedLog(cmds)| && i <= Whole(cmds, j)
    ensures Boundary(cmds, i) <= j && Boundary(cmds, Whole(cmds, j)) <= j
    ensures LoaderAt(cmds, j, lookup, i) == LoaderAt(cmds, j, lookup, Whole(cmds, j))
    decreases Whole(cmds, j) - i
  {
    hide LoaderAt;
    if i == Whole(cmds, j) {
      WholeBounds(cmds, j);
    } else {
      LoaderTurn(cmds, j, lookup, i);
      LoaderRuns(cmds, j, lookup, i + 1);
    }
  }

  function MultiOffset(cmds: seq<Command>, k: nat, lookup: Lookup): nat
    requires k <= |cmds|
  {
    match LastMulti(cmds, k, lookup)
    case None => 0
    case Some(m) => Boundary(cmds, m)
  }

  lemma ReplayOne(lookup: Lookup, s: Replay, argv: Command)
    requires argv != []
    ensures ReplayAll(lookup, s, [argv]) == Step(s, argv, lookup(argv[0]))
  {
    assert [argv][1..] == [];
  }

  lemma {:induction false} BoundaryStep(cmds: seq<Command>, i: nat)
    requires i < |cmds|
    ensures Boundary(cmds, i + 1) == Boundary(cmds, i) + |Printed(cmds[i])|
    decreases i
  {
    if i > 0 { BoundaryStep(cmds[1..], i - 1); }
  }

  lemma {:induction false} BoundaryMonotone(cmds: seq<Command>, i: nat, k: nat)
    requires i <= k <= |cmds|
    ensures Boundary(cmds, i) <= Boundary(cmds, k)
    decreases i
  {
    if i > 0 { BoundaryMonotone(cmds[1..], i - 1, k - 1); }
  }

  /** The log from a boundary on starts with the next command. */
  lemma {:induction false} LogAt(cmds: seq<Command>, i: nat)
    requires i <= |cmds|
    ensures Boundary(cmds, i) <= |PrintedLog(cmds)|
    ensures i < |cmds| ==> Stands(PrintedLog(cmds), Boundary(cmds, i), Printed(cmds[i]))
    decreases i
  {
    hide Printed;
    BoundaryIsPrefix(cmds, i);
    if i > 0 {
      LogAt(cmds[1..], i - 1);
      BoundaryIsPrefix(cmds[1..], i - 1);
      assert PrintedLog(cmds)[Boundary(cmds, i)..] == PrintedLog(cmds[1..])[Boundary(cmds[1..], i - 1)..];
    }
  }

  // ---------------------------------------------------------------- main results

  /** Recovery from any byte prefix, with aof-load-truncated on: never a format error, exactly
      the whole commands are replayed in order, and the file is cut, if at all, at a command
      boundary. */
  lemma PrefixRecovery(cmds: seq<Command>, j: nat, lookup: Lookup)
    requires PrintableLog(cmds) && AllKnown(cmds, lookup)
    requires 0 < j <= |PrintedLog(cmds)|
    ensures var k := Whole(cmds, j);
            var cut := CutIndex(cmds, j, lookup);
            Load(PrintedLog(cmds)[..j], lookup, true)
            == Ok(ReplayAll(lookup, FreshReplay, cmds[..k]).run,
                  if cut.Some? then Some(Boundary(cmds, cut.value)) else None)
  {
    var file := PrintedLog(cmds)[..j];
    assert cmds != [];
    assert file[0] == STAR by { LogAt(cmds, 0); }
    assert cmds[..0] == [];
    LoaderRuns(cmds, j, lookup, 0);
    LoaderEnds(cmds, j, lookup);
  }

  /** Round trip: the whole log replays all its commands, whatever bytes they hold, and is left
      alone unless it ends inside a transaction: then it is cut before the last MULTI. */
  lemma LogRoundTrip(cmds: seq<Command>, lookup: Lookup)
    requires cmds != [] && PrintableLog(cmds) && AllKnown(cmds, lookup)
    ensures var all := ReplayAll(lookup, FreshReplay, cmds);
            Load(PrintedLog(cmds), lookup, true)
            == Ok(all.run, if all.inMulti then Some(MultiOffset(cmds, |cmds|, lookup)) else None)
  {
    hide Load, PrintedLog, ReplayAll, LastMulti, Whole, PrintableLog, AllKnown, Printed;
    var n := |PrintedLog(cmds)|;
    assert cmds[..|cmds|] == cmds;
    BoundaryIsPrefix(cmds, |cmds|);
    WholeOfBoundary(cmds, |cmds|);
    PrefixRecovery(cmds, n, lookup);
    assert PrintedLog(cmds)[..n] == PrintedLog(cmds);
  }

  lemma {:induction false} WholeOfBoundary(cmds: seq<Command>, k: nat)
    requires k <= |cmds|
    ensures Whole(cmds, Boundary(cmds, k)) == k
    decreases k
  {
    if k > 0 { WholeOfBoundary(cmds[1..], k - 1); }
    else if cmds != [] { assert |Printed(cmds[0])| > 0; }
  }

  /** Loading again what the first load left of the file replays the same commands. */
  lemma ReloadAfterCut(cmds: seq<Command>, j: nat, lookup: Lookup)
    requires PrintableLog(cmds) && AllKnown(cmds, lookup)
    requires 0 < j <= |PrintedLog(cmds)|
    requires CutIndex(cmds, j, lookup).Some?
    ensures var first := Load(PrintedLog(cmds)[..j], lookup, true);
            && first.Ok? && first.cut.Some? && first.cut.value <= j
            && var again := Load(PrintedLog(cmds)[..first.cut.value], lookup, true);
            if first.cut.value == 0 then again == Empty && first.run == []
            else again.Ok? && again.run == first.run
  {
    var k, i := Whole(cmds, j), CutIndex(cmds, j, lookup).value;
    PrefixRecovery(cmds, j, lookup);
    WholeBounds(cmds, j);
    BoundaryMonotone(cmds, i, k);
    BoundaryIsPrefix(cmds, i);
    if i < k { OpenMultiRunsNothing(cmds, k, lookup); }
    if i > 0 {
      WholeOfBoundary(cmds, i);
      PrefixRecovery(cmds, Boundary(cmds, i), lookup);
    }
  }

  /** Once the replay is inside a transaction, the commands after its MULTI have run nothing. */
  lemma {:induction false} OpenMultiRunsNothing(cmds: seq<Command>, k: nat, lookup: Lookup)
    requires Named(cmds) && k <= |cmds|
    requires ReplayAll(lookup, FreshReplay, cmds[..k]).inMulti
    ensures LastMulti(cmds, k, lookup).Some?
    ensures var m := LastMulti(cmds, k, lookup).value;
            ReplayAll(lookup, FreshReplay, cmds[..m]).run == ReplayAll(lookup, FreshReplay, cmds[..k]).run
    decreases k
  {
    assert k > 0;
    var last := cmds[k - 1];
    assert cmds[..k] == cmds[..k - 1] + [last];
    ReplaySnoc(lookup, FreshReplay, cmds[..k - 1], [last]);
    ReplayOne(lookup, ReplayAll(lookup, FreshReplay, cmds[..k - 1]), last);
    if lookup(last[0]) != Multi { OpenMultiRunsNothing(cmds, k - 1, lookup); }
  }

  /** A transaction is all or nothing: without its EXEC it runs nothing, with it everything. */
  lemma {:induction false} TransactionAtomic(lookup: Lookup, s: Replay, multi: Command, body: seq<Command>,
                                             exec: Command)
    requires !s.inMulti && s.queued == [] && multi != [] && exec != [] && Named(body)
    requires lookup(multi[0]) == Multi && lookup(exec[0]) == Exec
    requires forall i :: 0 <= i < |body| ==> lookup(body[i][0]) != Exec
    ensures ReplayAll(lookup, s, [multi] + body) == Replay(true, body, s.run)
    ensures ReplayAll(lookup, s, [multi] + body + [exec]) == Replay(false, [], s.run + body)
  {
    ReplaySnoc(lookup, s, [multi], body);
    ReplayOne(lookup, s, multi);
    QueuesAll(lookup, Replay(true, [], s.run), body);
    ReplaySnoc(lookup, s, [multi] + body, [exec]);
    ReplayOne(lookup, Replay(true, body, s.run), exec);
  }

  /** Outside transactions every command runs at once, in order; an EXEC there runs nothing. */
  lemma {:induction false} PlainCommandsRun(lookup: Lookup, s: Replay, cmds: seq<Command>, exec: Command)
    requires !s.inMulti && Named(cmds) && exec != [] && lookup(exec[0]) == Exec
    requires forall i :: 0 <= i < |cmds| ==> lookup(cmds[i][0]) != Exec && lookup(cmds[i][0]) != Multi
    ensures ReplayAll(lookup, s, cmds) == Replay(false, s.queued, s.run + cmds)
    ensures ReplayAll(lookup, s, cmds + [exec]) == Replay(false, s.queued, s.run + cmds)
    decreases |cmds|
  {
    if cmds == [] {
      assert s.run + [] == s.run && [] + [exec] == [exec];
      ReplayOne(lookup, s, exec);
    } else {
      PlainCommandsRun(lookup, s.(run := s.run + [cmds[0]]), cmds[1..], exec);
      assert s.run + [cmds[0]] + cmds[1..] == s.run + cmds;
      assert (cmds + [exec])[1..] == cmds[1..] + [exec];
    }
  }

  lemma {:induction false} QueuesAll(lookup: Lookup, s: Replay, body: seq<Command>)
    requires s.inMulti && Named(body)
    requires forall i :: 0 <= i < |body| ==> lookup(body[i][0]) != Exec
    ensures ReplayAll(lookup, s, body) == s.(queued := s.queued + body)
    decreases |body|
  {
    if body != [] {
      var s' := s.(queued := s.queued + [body[0]]);
      QueuesAll(lookup, s', body[1..]);
      assert s.queued + [body[0]] + body[1..] == s.queued + body;
    } else {
      assert s.queued + [] == s.queued;
    }
  }

  /** Some MULTI among the first `k` commands has no EXEC behind it there. */
  ghost predicate OpenAt(cmds: seq<Command>, k: nat, lookup: Lookup)
    requires k <= |cmds|
  {
    exists i :: 0 <= i < k && KindOf(lookup, cmds[i]) == Multi && NoExecIn(cmds, i + 1, k, lookup)
  }

  ghost predicate NoExecIn(cmds: seq<Command>, i: nat, k: nat, lookup: Lookup)
    requires k <= |cmds|
  {
    forall l :: i <= l < k ==> KindOf(lookup, cmds[l]) != Exec
  }

  /** That is what being inside a transaction means, MULTIs inside a MULTI included: those are queued. */
  lemma {:induction false} InMultiIsOpen(cmds: seq<Command>, k: nat, lookup: Lookup)
    requires Named(cmds) && k <= |cmds|
    ensures ReplayAll(lookup, FreshReplay, cmds[..k]).inMulti <==> OpenAt(cmds, k, lookup)
    decreases k
  {
    if k > 0 {
      var kind := KindOf(lookup, cmds[k - 1]);
      InMultiIsOpen(cmds, k - 1, lookup);
      ReplayNext(cmds, lookup, k - 1);
      OpenAtNext(cmds, k - 1, lookup);
    }
  }

  lemma OpenAtNext(cmds: seq<Command>, k: nat, lookup: Lookup)
    requires k < |cmds|
    ensures var kind := KindOf(lookup, cmds[k]);
            OpenAt(cmds, k + 1, lookup) <==> kind == Multi || (kind != Exec && OpenAt(cmds, k, lookup))
  {
    var kind := KindOf(lookup, cmds[k]);
    if kind == Multi {
      assert NoExecIn(cmds, k + 1, k + 1, lookup);
    } else if kind != Exec && OpenAt(cmds, k, lookup) {
      var i :| 0 <= i < k && KindOf(lookup, cmds[i]) == Multi && NoExecIn(cmds, i + 1, k, lookup);
      assert NoExecIn(cmds, i + 1, k + 1, lookup);
    }
    if OpenAt(cmds, k + 1, lookup) {
      var i :| 0 <= i < k + 1 && KindOf(lookup, cmds[i]) == Multi && NoExecIn(cmds, i + 1, k + 1, lookup);
      assert i < k ==> NoExecIn(cmds, i + 1, k, lookup);
    }
  }

  /** When the cut leaves a transaction open: the file ended inside a command that was itself inside a transaction; or
      it ended behind a whole command, and the last MULTI, before which it is then cut, stood inside a transaction. */
  lemma CutLeavesMultiOpen(cmds: seq<Command>, j: nat, lookup: Lookup)
    requires PrintableLog(cmds) && AllKnown(cmds, lookup)
    requires 0 < j <= |PrintedLog(cmds)|
    requires CutIndex(cmds, j, lookup).Some?
    ensures var k := Whole(cmds, j);
            ReplayAll(lookup, FreshReplay, cmds[..CutIndex(cmds, j, lookup).value]).inMulti
            <==> if Boundary(cmds, k) < j then OpenAt(cmds, k, lookup)
                 else LastMulti(cmds, k, lookup).Some? && OpenAt(cmds, LastMulti(cmds, k, lookup).value, lookup)
  {
    hide OpenAt, ReplayAll, LastMulti;
    var k := Whole(cmds, j);
    WholeBounds(cmds, j);
    if Boundary(cmds, k) == j { OpenMultiRunsNothing(cmds, k, lookup); }
    InMultiIsOpen(cmds, CutIndex(cmds, j, lookup).value, lookup);
  }

  /** A MULTI and a SET, the last byte missing: the file that is left ends with the MULTI. */
  lemma CutInsideTransaction(lookup: Lookup, cmds: seq<Command>)
    requires lookup("MULTI") == Multi && lookup("SET") == Plain && cmds == [["MULTI"], ["SET", "k", "v"]]
    ensures var j := |PrintedLog(cmds)| - 1;
            && j > 0 && Load(PrintedLog(cmds)[..j], lookup, true) == Ok([], Some(|Printed(cmds[0])|))
            && ReplayAll(lookup, FreshReplay, cmds[..1]).inMulti
  {
    hide Load, PrintedLog, Printed, Whole, Boundary;
    TwoCommands(cmds);
    PrefixRecovery(cmds, |PrintedLog(cmds)| - 1, lookup);
    assert cmds[..1] == [["MULTI"]];
    ReplayOne(lookup, FreshReplay, ["MULTI"]);
  }

  lemma TwoCommands(cmds: seq<Command>)
    requires |cmds| == 2
    ensures |PrintedLog(cmds)| == |Printed(cmds[0])| + |Printed(cmds[1])|
    ensures |Printed(cmds[0])| > 1 && |Printed(cmds[1])| > 1
    ensures Whole(cmds, |PrintedLog(cmds)| - 1) == 1 && Boundary(cmds, 1) == |Printed(cmds[0])|
  {
    hide Printed;
    var rest := cmds[1..];
    assert |rest| == 1 && rest[0] == cmds[1] && rest[1..] == [];
    assert PrintedLog(rest) == Printed(cmds[1]) + PrintedLog(rest[1..]) && PrintedLog(rest[1..]) == [];
    assert |PrintedLog(cmds)| == |Printed(cmds[0])| + |PrintedLog(rest)|;
    PrintedIsLong(cmds[0]);
    PrintedIsLong(cmds[1]);
    assert Whole(rest, |Printed(cmds[1])| - 1) == 0;
    assert Boundary(rest, 0) == 0;
  }

  lemma PrintedIsLong(argv: Command)
    ensures |Printed(argv)| > 1
  {
  }

  /** What such a cut costs: everything appended afterwards, up to an EXEC, is queued behind the
      open MULTI and never runs. */
  lemma AppendedBehindOpenMulti(cmds: seq<Command>, i: nat, more: seq<Command>, lookup: Lookup)
    requires Named(cmds) && i <= |cmds| && Named(more)
    requires ReplayAll(lookup, FreshReplay, cmds[..i]).inMulti
    requires forall n :: 0 <= n < |more| ==> lookup(more[n][0]) != Exec
    ensures ReplayAll(lookup, FreshReplay, cmds[..i] + more).run == ReplayAll(lookup, FreshReplay, cmds[..i]).run
  {
    ReplaySnoc(lookup, FreshReplay, cmds[..i], more);
    QueuesAll(lookup, ReplayAll(lookup, FreshReplay, cmds[..i]), more);
  }
}
