// The rewrite protocol between the server and its child, as the interleaved steps of two
// processes over a data pipe and two acknowledgement pipes.
module AofProtocol {
  import opened Bytes
  import opened AofLog
  import opened AofFeed
  import opened AofRecovery

  // Where the child stands in rewriteAppendOnlyFile: writing the snapshot; reading diffs until
  // it decides to stop; waiting for the parent's '!'; reading what is left in the pipe; writing
  // the diff to its file; gone.
  datatype Child = Dumping | Gathering | Asking | Draining | Writing | Exited(ok: bool)

  // What has become of the rewrite in the parent.
  datatype Outcome = Pending | Switched(file: ByteString) | Dropped

  datatype State = State(
    child: Child,
    childDiff: ByteString, // aof_child_diff
    tmp: ByteString,       // the child's file
    pipe: ByteString,      // parent to child, data
    asked: bool,           // a '!' is under way to the parent
    acked: bool,           // a '!' is under way to the child
    parentBuf: ByteString, // the parent's rewrite buffer
    stopSending: bool,     // aof_stop_sending_diff
    listening: bool,       // aofChildPipeReadable is installed
    fed: seq<Fed>,         // the commands fed since the fork
    outcome: Outcome)

  const Forked := State(Dumping, [], [], [], false, false, [], false, true, [], Pending)

  datatype Step =
    | Feed(f: Fed)
    | ParentWrites(n: nat)
    | ParentAcks(read: bool, sent: bool)
    | ChildReads(n: nat)
    | ChildDumped
    | ChildAsks
    | ChildSeesAck
    | ChildFindsPipeEmpty
    | ChildWritesDiff
    | ChildFails
    | ParentFinishes(works: bool)

  predicate Enabled(s: State, step: Step) {
    match step
    case Feed(_) => s.outcome.Pending?
    case ParentWrites(n) => s.outcome.Pending? && !s.stopSending && n <= |s.parentBuf|
    case ParentAcks(read, _) => s.outcome.Pending? && s.listening && (read ==> s.asked)
    case ChildReads(n) => (s.child.Dumping? || s.child.Gathering? || s.child.Draining?) && n <= |s.pipe|
    case ChildDumped => s.child.Dumping?
    case ChildAsks => s.child.Gathering?
    case ChildSeesAck => s.child.Asking? && s.acked
    case ChildFindsPipeEmpty => s.child.Draining? && s.pipe == [] // the last read(2) finds nothing
    case ChildWritesDiff => s.child.Writing?
    case ChildFails => !s.child.Exited? // a failed write, a timeout, a signal
    case ParentFinishes(_) => s.child.Exited? && s.outcome.Pending?
  }

  function After(snapshot: ByteString, s: State, step: Step): State
    requires Enabled(s, step)
  {
    match step
    case Feed(f) =>
      s.(fed := s.fed + [f], parentBuf := s.parentBuf + PrintedLog(Entry(LastDb(NO_DB, s.fed), f)))
    case ParentWrites(n) => // one write(2) in aofChildWriteDiffData
      s.(parentBuf := s.parentBuf[n..], pipe := s.pipe + s.parentBuf[..n])
    case ParentAcks(read, sent) => // aofChildPipeReadable: read(2) of the '!', write(2) of ours
      if read then s.(asked := false, stopSending := true, acked := sent, listening := false)
      else s.(listening := false)
    case ChildReads(n) => // one read(2) in aofReadDiffFromParent
      s.(childDiff := s.childDiff + s.pipe[..n], pipe := s.pipe[n..])
    case ChildDumped => s.(child := Gathering, tmp := snapshot)
    case ChildAsks => s.(child := Asking, asked := true)
    case ChildSeesAck => s.(child := Draining, acked := false)
    case ChildFindsPipeEmpty => s.(child := Writing)
    case ChildWritesDiff => s.(child := Exited(true), tmp := s.tmp + s.childDiff)
    case ChildFails => s.(child := Exited(false))
    case ParentFinishes(works) => // backgroundRewriteDoneHandler
      s.(outcome := if s.child.ok && works then Switched(s.tmp + s.parentBuf) else Dropped, parentBuf := [])
  }

  ghost predicate Next(snapshot: ByteString, s: State, step: Step, s': State) {
    Enabled(s, step) && s' == After(snapshot, s, step)
  }

  ghost predicate Run(snapshot: ByteString, states: seq<State>, steps: seq<Step>) {
    && |states| == |steps| + 1 && states[0] == Forked
    && forall i :: 0 <= i < |steps| ==> Next(snapshot, states[i], steps[i], states[i + 1])
  }

  /** Conservation: the bytes the child has read, those in the pipe and those still with the
      parent are, in this order, exactly the bytes fed since the fork. */
  ghost predicate Conserved(s: State) {
    s.outcome.Pending? ==> s.childDiff + s.pipe + s.parentBuf == PrintedLog(Entries(NO_DB, s.fed))
  }

  /** Why nothing is stranded in the pipe: the child reads its last only after the parent has
      stopped sending. */
  ghost predicate Handshake(snapshot: ByteString, s: State) {
    && (s.acked || s.child.Draining? || s.child.Writing? || s.child == Exited(true) ==> s.stopSending)
    && (s.child.Writing? || s.child == Exited(true) ==> s.pipe == [])
    && (s.child.Gathering? || s.child.Asking? || s.child.Draining? || s.child.Writing? ==> s.tmp == snapshot)
    && (s.child == Exited(true) ==> s.tmp == snapshot + s.childDiff)
    && (s.outcome.Switched? ==> s.outcome.file == snapshot + PrintedLog(Entries(NO_DB, s.fed)))
  }

  ghost predicate Inv(snapshot: ByteString, s: State) {
    Conserved(s) && Handshake(snapshot, s)
  }

  lemma StepConserves(snapshot: ByteString, s: State, step: Step, s': State)
    requires Conserved(s) && Next(snapshot, s, step, s')
    ensures Conserved(s')
  {
    hide Entries, PrintedLog, Entry, LastDb;
    match step {
      case Feed(f) =>
        EntriesSnoc(NO_DB, s.fed, f);
        PrintedLogSnoc(Entries(NO_DB, s.fed), Entry(LastDb(NO_DB, s.fed), f));
        var more := PrintedLog(Entry(LastDb(NO_DB, s.fed), f));
        assert s.childDiff + s.pipe + (s.parentBuf + more) == s.childDiff + s.pipe + s.parentBuf + more;
      case ParentWrites(n) =>
        assert s.parentBuf == s.parentBuf[..n] + s.parentBuf[n..];
        assert s.childDiff + (s.pipe + s.parentBuf[..n]) + s.parentBuf[n..] == s.childDiff + s.pipe + s.parentBuf;
      case ChildReads(n) =>
        assert s.pipe == s.pipe[..n] + s.pipe[n..];
        assert s.childDiff + s.pipe[..n] + s.pipe[n..] + s.parentBuf == s.childDiff + s.pipe + s.parentBuf;
      case _ =>
    }
  }

  lemma StepKeepsHandshake(snapshot: ByteString, s: State, step: Step, s': State)
    requires Inv(snapshot, s) && Next(snapshot, s, step, s')
    ensures Handshake(snapshot, s')
  {
    hide Entries, PrintedLog, Entry, LastDb;
    if step.ParentFinishes? && s'.outcome.Switched? {
      assert snapshot + s.childDiff + s.parentBuf == snapshot + (s.childDiff + [] + s.parentBuf);
    }
  }

  lemma ForkedInv(snapshot: ByteString)
    ensures Inv(snapshot, Forked)
  {
    assert Entries(NO_DB, []) == [] && PrintedLog([]) == [];
  }

  lemma {:induction false} RunKeepsInv(snapshot: ByteString, states: seq<State>, steps: seq<Step>, i: nat)
    requires Run(snapshot, states, steps) && i < |states|
    ensures Inv(snapshot, states[i])
  {
    hide Next, Conserved, Handshake;
    if i == 0 {
      ForkedInv(snapshot);
    } else {
      RunKeepsInv(snapshot, states, steps, i - 1);
      StepConserves(snapshot, states[i - 1], steps[i - 1], states[i]);
      StepKeepsHandshake(snapshot, states[i - 1], steps[i - 1], states[i]);
    }
  }

  /** Over every interleaving, at every moment: nothing fed is lost, repeated or reordered, and a
      rewrite that succeeds leaves the snapshot followed by everything fed since the fork. */
  lemma NothingLost(snapshot: ByteString, states: seq<State>, steps: seq<Step>, i: nat)
    requires Run(snapshot, states, steps) && i < |states|
    ensures states[i].outcome.Pending? ==>
              states[i].childDiff + states[i].pipe + states[i].parentBuf == PrintedLog(Entries(NO_DB, states[i].fed))
    ensures states[i].outcome.Switched? ==>
              states[i].outcome.file == snapshot + PrintedLog(Entries(NO_DB, states[i].fed))
  {
    RunKeepsInv(snapshot, states, steps, i);
  }

  /** After the switch nothing more is fed to this rewrite. */
  lemma {:induction false} FedIsFinal(snapshot: ByteString, states: seq<State>, steps: seq<Step>, i: nat, j: nat)
    requires Run(snapshot, states, steps) && i <= j < |states| && !states[i].outcome.Pending?
    ensures states[j].fed == states[i].fed && states[j].outcome == states[i].outcome
    decreases j
  {
    if i < j { FedIsFinal(snapshot, states, steps, i, j - 1); }
  }

  /** End to end: whatever the interleaving, replaying the rewritten file executes the snapshot's
      commands and then every command fed since the fork, in order and each in its own database. */
  lemma RewriteReplays(snapshot: seq<Command>, states: seq<State>, steps: seq<Step>, i: nat, lookup: Lookup, db: int)
    requires Run(PrintedLog(snapshot), states, steps) && i < |states| && states[i].outcome.Switched?
    requires NoSelects(states[i].fed)
    requires var all := snapshot + Entries(NO_DB, states[i].fed);
             all != [] && PrintableLog(all) && AllKnown(all, lookup)
    ensures var all := snapshot + Entries(NO_DB, states[i].fed);
            var end := ReplayAll(lookup, FreshReplay, all);
            && Load(states[i].outcome.file, lookup, true)
               == Ok(end.run, if end.inMulti then Some(MultiOffset(all, |all|, lookup)) else None)
            && Replayed(db, all) == Replayed(db, snapshot) + Tagged(states[i].fed)
    ensures states[i].fed != [] ==>
              Entries(NO_DB, states[i].fed) != []
              && Entries(NO_DB, states[i].fed)[0] == SelectCommand(states[i].fed[0].db)
  {
    hide Load, ReplayAll, Replayed, Run, Entries;
    var fed := states[i].fed;
    NothingLost(PrintedLog(snapshot), states, steps, i);
    PrintedLogSnoc(snapshot, Entries(NO_DB, fed));
    LogRoundTrip(snapshot + Entries(NO_DB, fed), lookup);
    DiffMerges(snapshot, db, fed);
    if fed != [] { DiffStartsWithSelect(fed); }
  }
}
