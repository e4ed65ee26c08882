// A whole rewrite: the server's methods and the child's, in any order the two processes may run
// them in, go through the states of the protocol.
module AofRewrite {
  import opened Bytes
  import opened AofLog
  import opened AofFeed
  import opened AofFlush
  import opened AofServer
  import opened AofChild
  import opened AofProtocol
  import opened AofRewriteBuffer
  import opened AofTranslate

  // What may happen next, in either process, with what the system calls do then. An event that is not possible is
  // passed over.
  datatype Event =
    | Propagate(proc: Proc, db: nat, argv: Command, time: int) // a command is fed
    | Flush(force: bool, now: nat, fsyncInProgress: bool, disk: Disk)
    | PipeWritable(room: nat)
    | AckReadable(read: bool, sent: bool)
    | ReadDiff
    | SnapshotDone(dump: ByteString)
    | AskToStop
    | SeeAck
    | FindPipeEmpty
    | WriteFile(space: nat)
    | Die

  /** The steps of the protocol that an event is, in a state. */
  function StepsOf(e: Event, s: State): seq<Step> {
    match e
    case Propagate(proc, db, argv, time) =>
      if Executed(proc, argv) then [Feed(Fed(db, Translated(proc, argv, time)))] else []
    case Flush(_, _, _, _) => []
    case PipeWritable(room) => if s.stopSending then [] else [ParentWrites(Min(room, |s.parentBuf|))]
    case AckReadable(read, sent) => if s.listening then [ParentAcks(read && s.asked, sent)] else []
    case ReadDiff => if s.child.Dumping? || s.child.Gathering? || s.child.Draining? then [ChildReads(|s.pipe|)] else []
    case SnapshotDone(_) => if s.child.Dumping? then [ChildDumped] else []
    case AskToStop => if s.child.Gathering? then [ChildAsks] else []
    case SeeAck => if s.child.Asking? && s.acked then [ChildSeesAck] else []
    case FindPipeEmpty => if s.child.Draining? && s.pipe == [] then [ChildFindsPipeEmpty] else []
    case WriteFile(space) =>
      if !s.child.Writing? then [] else if |s.childDiff| <= space then [ChildWritesDiff] else [ChildFails]
    case Die => if s.child.Exited? then [] else [ChildFails]
  }

  /** The state after an event. */
  function React(snapshot: ByteString, s: State, e: Event): State {
    var steps := StepsOf(e, s);
    if steps == [] || !Enabled(s, steps[0]) then s else After(snapshot, s, steps[0])
  }

  /** The state that events lead to, from the fork on. */
  function Reached(snapshot: ByteString, events: seq<Event>): State {
    if events == [] then Forked else React(snapshot, Reached(snapshot, events[..|events| - 1]), events[|events| - 1])
  }

  /** A fed command was executed and is no SELECT, and the child dumps the snapshot. */
  ghost predicate Possible(e: Event, snapshot: seq<Command>) {
    && (e.Propagate? ==> Executed(e.proc, e.argv) && !IsSelect(e.argv))
    && (e.SnapshotDone? ==> e.dump == PrintedLog(snapshot))
  }

  /** The commands fed, as they are written. */
  function FedBy(events: seq<Event>): seq<Fed> {
    if events == [] then []
    else
      var last := events[|events| - 1];
      FedBy(events[..|events| - 1]) +
      if last.Propagate? && Executed(last.proc, last.argv)
      then [Fed(last.db, Translated(last.proc, last.argv, last.time))] else []
  }

  lemma OneFed(e: Event)
    ensures FedBy([e]) == if e.Propagate? && Executed(e.proc, e.argv)
                          then [Fed(e.db, Translated(e.proc, e.argv, e.time))] else []
  {
    assert [e][..0] == [];
  }

  lemma OneStepMore(snapshot: ByteString, states: seq<State>, steps: seq<Step>, step: Step, s: State)
    requires Run(snapshot, states, steps) && Next(snapshot, states[|steps|], step, s)
    ensures Run(snapshot, states + [s], steps + [step])
  {
    hide Next;
  }

  lemma SameBehind(a: ByteString, b: ByteString, c: ByteString)
    requires a + c == b + c
    ensures a == b
  {
    assert |a| == |b|;
    assert a == (a + c)[..|a|] && b == (b + c)[..|b|];
  }

  lemma SameInFront(a: ByteString, b: ByteString, c: ByteString)
    requires c + a == c + b
    ensures a == b
  {
    assert a == (c + a)[|c|..] && b == (c + b)[|c|..];
  }

  class Rewrite {
    const server: Server
    // The child: where it stands, aof_child_diff and its file; and the pipes.
    var child: Child
    var childDiff: ByteString
    var tmp: ByteString
    var pipe: ByteString
    var asked: bool
    var acked: bool
    var listening: bool
    // What the snapshot holds, and the run so far.
    ghost const snapshot: seq<Command>
    ghost var states: seq<State>
    ghost var steps: seq<Step>

    ghost function Now(): State
      reads this, server, server.diff
    {
      State(child, childDiff, tmp, pipe, asked, acked, server.diff.Contents(), server.diff.stopSending, listening,
            server.fed, Pending)
    }

    /** The heap is in the last state of a run of the protocol. */
    ghost predicate Valid()
      reads this, server, server.diff, server.Repr()
    {
      && this !in server.Repr() && server.Valid() && server.rewriting
      && Run(PrintedLog(snapshot), states, steps) && states[|steps|] == Now()
    }

    constructor (server: Server, ghost snapshot: seq<Command>)
      requires server.Valid() && !server.rewriting
      modifies server, server.diff
      ensures Valid() && this.server == server && this.snapshot == snapshot && server.Repr() == old(server.Repr())
      ensures steps == [] && server.fed == [] && Now() == Forked
      ensures server.aofState == old(server.aofState) && server.aof == old(server.aof)
    {
      hide PrintedLog, Entries, LastDb, Flatten;
      this.server, this.snapshot := server, snapshot;
      child, childDiff, tmp, pipe, asked, acked, listening := Dumping, [], [], [], false, false, true;
      states, steps := [Forked], [];
      new;
      server.RewriteStarted();
    }

    lemma StillPending()
      requires Valid()
      ensures |states| == |steps| + 1 && states[|steps|].outcome.Pending?
      ensures Run(PrintedLog(snapshot), states, steps) && server.Valid()
    {
    }

    ghost method Record(step: Step)
      requires Run(PrintedLog(snapshot), states, steps) && Next(PrintedLog(snapshot), states[|steps|], step, Now())
      modifies this`states, this`steps
      ensures Run(PrintedLog(snapshot), states, steps) && states[|steps|] == Now() == old(Now())
      ensures steps == old(steps) + [step] && old(states) <= states
    {
      hide Next;
      OneStepMore(PrintedLog(snapshot), states, steps, step, Now());
      states, steps := states + [Now()], steps + [step];
    }

    // In the server.

    method Propagate(proc: Proc, db: nat, argv: Command, time: int) returns (ghost f: Fed)
      requires Valid() && !server.aof.exited && server.aofState != Off && Executed(proc, argv) && !IsSelect(argv)
      modifies this, server.Repr()
      ensures f == Fed(db, Translated(proc, argv, time))
      ensures steps == old(steps) + [Feed(f)] && Next(PrintedLog(snapshot), old(Now()), Feed(f), Now())
      ensures Valid() && fresh(server.Repr() - old(server.Repr()))
      ensures server.fed == old(server.fed) + [f] && server.aofState == old(server.aofState) && !server.aof.exited
    {
      hide PrintedLog, Entries, Entry, LastDb, Flatten, Owned, Run, IsSelect, Executed, Translated;
      ghost var s := Now();
      f := server.FeedAppendOnlyFile(proc, db, argv, time);
      ghost var more := PrintedLog(Entry(LastDb(NO_DB, s.fed), f));
      assert this !in server.diff.Repr() - old(server.diff.Repr());
      EntriesSnoc(NO_DB, s.fed, f);
      PrintedLogSnoc(Entries(NO_DB, s.fed), Entry(LastDb(NO_DB, s.fed), f));
      assert server.diff.written + (s.parentBuf + more) == server.diff.written + s.parentBuf + more;
      SameInFront(server.diff.Contents(), s.parentBuf + more, server.diff.written);
      Record(Feed(f));
    }

    method Flush(force: bool, now: nat, fsyncInProgress: bool, disk: Disk)
      requires Valid() && !server.aof.exited
      modifies server.aof
      ensures Valid() && server.Repr() == old(server.Repr()) && Now() == old(Now()) && steps == old(steps)
    {
      hide PrintedLog, Entries, LastDb, Flatten, Owned, Run;
      server.FlushAppendOnlyFile(force, now, fsyncInProgress, disk);
    }

    // Once the parent was told to stop, nothing is sent.
    method PipeWritable(room: nat)
      requires Valid()
      modifies this, server.diff.Repr()
      ensures Valid() && server.Repr() <= old(server.Repr())
      ensures if old(server.diff.stopSending) then steps == old(steps) && Now() == old(Now())
              else var step := ParentWrites(Min(room, |old(server.diff.Contents())|));
                   steps == old(steps) + [step] && Next(PrintedLog(snapshot), old(Now()), step, Now())
    {
      hide PrintedLog, Entries, LastDb, Flatten, Owned, Run;
      ghost var s := Now();
      var had := server.diff.written;
      server.SendDiff(room);
      var sent := server.diff.written[|had|..];
      pipe := pipe + sent;
      assert had + (sent + server.diff.Contents()) == server.diff.written + server.diff.Contents();
      SameInFront(sent + server.diff.Contents(), s.parentBuf, had);
      if server.diff.stopSending {
        assert sent == [];
      } else {
        Record(ParentWrites(|sent|));
      }
    }

    // aofChildPipeReadable: the '!' is read and answered, or either fails; it is called once.
    method AckReadable(read: bool, sent: bool)
      requires Valid() && listening
      modifies this, server.diff
      ensures Valid() && server.Repr() == old(server.Repr())
      ensures var step := ParentAcks(read && old(asked), sent);
              steps == old(steps) + [step] && Next(PrintedLog(snapshot), old(Now()), step, Now())
    {
      hide PrintedLog, Entries, LastDb, Flatten, Owned, Run;
      ghost var found := read && asked;
      if read && asked {
        server.StopSending();
        asked, acked := false, sent;
      }
      listening := false;
      Record(ParentAcks(found, sent));
    }

    // In the child.

    method ReadDiff()
      requires Valid() && (child.Dumping? || child.Gathering? || child.Draining?)
      modifies this
      ensures Valid() && pipe == []
      ensures var step := ChildReads(|old(pipe)|);
              steps == old(steps) + [step] && Next(PrintedLog(snapshot), old(Now()), step, Now())
    {
      hide PrintedLog, Entries, LastDb, Flatten, Owned, Run;
      ghost var n := |pipe|;
      var total;
      childDiff, total := ReadDiffFromParent(childDiff, pipe);
      pipe := [];
      Record(ChildReads(n));
    }

    // The end of rewriteAppendOnlyFileRio.
    method SnapshotDone(dump: ByteString)
      requires Valid() && child.Dumping? && dump == PrintedLog(snapshot)
      modifies this
      ensures Valid() && steps == old(steps) + [ChildDumped]
              && Next(PrintedLog(snapshot), old(Now()), ChildDumped, Now())
    {
      hide PrintedLog, Entries, LastDb, Flatten, Owned, Run;
      child, tmp := Gathering, dump;
      Record(ChildDumped);
    }

    method AskToStop()
      requires Valid() && child.Gathering?
      modifies this
      ensures Valid() && steps == old(steps) + [ChildAsks] && Next(PrintedLog(snapshot), old(Now()), ChildAsks, Now())
    {
      hide PrintedLog, Entries, LastDb, Flatten, Owned, Run;
      child, asked := Asking, true;
      Record(ChildAsks);
    }

    method SeeAck()
      requires Valid() && child.Asking? && acked
      modifies this
      ensures Valid() && steps == old(steps) + [ChildSeesAck]
              && Next(PrintedLog(snapshot), old(Now()), ChildSeesAck, Now())
    {
      hide PrintedLog, Entries, LastDb, Flatten, Owned, Run;
      child, acked := Draining, false;
      Record(ChildSeesAck);
    }

    method FindPipeEmpty()
      requires Valid() && child.Draining? && pipe == []
      modifies this
      ensures Valid() && steps == old(steps) + [ChildFindsPipeEmpty]
              && Next(PrintedLog(snapshot), old(Now()), ChildFindsPipeEmpty, Now())
    {
      hide PrintedLog, Entries, LastDb, Flatten, Owned, Run;
      child := Writing;
      Record(ChildFindsPipeEmpty);
    }

    // A file that could not be written is of no interest any more.
    method WriteFile(space: nat)
      requires Valid() && child.Writing?
      modifies this
      ensures Valid()
      ensures var step := if |old(childDiff)| <= space then ChildWritesDiff else ChildFails;
              steps == old(steps) + [step] && Next(PrintedLog(snapshot), old(Now()), step, Now())
    {
      hide PrintedLog, Entries, LastDb, Flatten, Owned, Run;
      var ok, file := WriteDiff(tmp, childDiff, space);
      if ok {
        child, tmp := Exited(true), file;
        Record(ChildWritesDiff);
      } else {
        Die();
      }
    }

    method Die()
      requires Valid() && !child.Exited?
      modifies this
      ensures Valid() && steps == old(steps) + [ChildFails] && Next(PrintedLog(snapshot), old(Now()), ChildFails, Now())
    {
      hide PrintedLog, Entries, LastDb, Flatten, Owned, Run;
      child := Exited(false);
      Record(ChildFails);
    }

    /** One event, in whichever process. */
    method Happen(e: Event)
      requires Valid() && !server.aof.exited && server.aofState != Off && Possible(e, snapshot)
      modifies this, server.Repr()
      ensures Valid() && fresh(server.Repr() - old(server.Repr()))
      ensures server.aofState == old(server.aofState) && server.fed == old(server.fed) + FedBy([e])
      ensures steps == old(steps) + StepsOf(e, old(Now())) && Now() == React(PrintedLog(snapshot), old(Now()), e)
    {
      hide PrintedLog, Entries, LastDb, Flatten, Owned, Run, IsSelect, Executed, Translated;
      OneFed(e);
      assert old(steps) + [] == old(steps);
      match e
      case Propagate(proc, db, argv, time) => ghost var f := Propagate(proc, db, argv, time);
      case Flush(force, now, fsyncInProgress, disk) => Flush(force, now, fsyncInProgress, disk);
      case PipeWritable(room) => PipeWritable(room);
      case AckReadable(read, sent) => if listening { AckReadable(read, sent); }
      case ReadDiff => if child.Dumping? || child.Gathering? || child.Draining? { ReadDiff(); }
      case SnapshotDone(dump) => if child.Dumping? { SnapshotDone(dump); }
      case AskToStop => if child.Gathering? { AskToStop(); }
      case SeeAck => if child.Asking? && acked { SeeAck(); }
      case FindPipeEmpty => if child.Draining? && pipe == [] { FindPipeEmpty(); }
      case WriteFile(space) => if child.Writing? { WriteFile(space); }
      case Die => if !child.Exited? { Die(); }
    }

    lemma NowIs()
      ensures child == Now().child && server.diff.Contents() == Now().parentBuf
    {
    }

    lemma ChildLeft()
      requires Valid() && child.Exited?
      ensures server.Valid() && server.rewriting && this !in server.Repr()
      ensures child.ok ==> tmp == PrintedLog(snapshot) + server.diff.written
                           && PrintedLog(snapshot + Entries(NO_DB, server.fed)) == tmp + server.diff.Contents()
      ensures |states| == |steps| + 1 && states[|steps|] == Now() && Run(PrintedLog(snapshot), states, steps)
    {
      hide PrintedLog, Entries, LastDb, Flatten, Owned, Inv, Next;
      RunKeepsInv(PrintedLog(snapshot), states, steps, |steps|);
      if child.ok {
        FileIsWhole(snapshot, Now(), server.diff.written);
      }
    }

    /** The child is gone. What it left behind is what backgroundRewriteDoneHandler relies on. */
    method Finish(now: nat, end: Ending) returns (switched: bool, newFile: ByteString)
      requires Valid() && child.Exited? && !server.aof.exited
      modifies this, server.Repr()
      ensures server.Valid() && !server.rewriting && !server.aof.exited && child == old(child)
      ensures Run(PrintedLog(snapshot), states, steps)
      ensures steps == old(steps) + [ParentFinishes(switched)] && |states| == |steps| + 1
      ensures switched <==> child.ok && end.opens && |old(server.diff.Contents())| <= end.room
                            && (server.aof.fsyncPolicy == Always ==> end.syncs) && end.renames
      ensures states[|steps|].outcome == (if switched then Switched(newFile) else Dropped)
      ensures switched ==> newFile == PrintedLog(snapshot + Entries(NO_DB, old(server.fed)))
      ensures switched && old(server.aofState) != Off ==>
                server.aof.file == newFile && server.commands == snapshot + Entries(NO_DB, old(server.fed))
    {
      hide PrintedLog, Entries, LastDb, Flatten, Owned, Inv, Next, Run, Valid, Server.Valid;
      ghost var s := Now();
      ChildLeft();
      switched, newFile := server.BackgroundRewriteDone(child.ok, tmp, snapshot, now, end);
      ghost var last := s.(outcome := if switched then Switched(newFile) else Dropped, parentBuf := []);
      RunEnds(PrintedLog(snapshot), states, steps, last, switched);
      states, steps := states + [last], steps + [ParentFinishes(switched)];
    }
  }

  lemma RunEnds(snapshot: ByteString, states: seq<State>, steps: seq<Step>, last: State, switched: bool)
    requires |states| == |steps| + 1 && Run(snapshot, states, steps)
    requires var s := states[|steps|];
             && s.child.Exited? && s.outcome.Pending? && (switched ==> s.child.ok)
             && last == s.(outcome := if switched then Switched(s.tmp + s.parentBuf) else Dropped, parentBuf := [])
    ensures Run(snapshot, states + [last], steps + [ParentFinishes(switched)])
  {
    hide Next, Run;
    Finishes(snapshot, states[|steps|], switched, last);
    OneStepMore(snapshot, states, steps, ParentFinishes(switched), last);
  }

  lemma Finishes(snapshot: ByteString, s: State, switched: bool, end: State)
    requires s.child.Exited? && s.outcome.Pending? && (switched ==> s.child.ok)
    requires end == s.(outcome := if switched then Switched(s.tmp + s.parentBuf) else Dropped, parentBuf := [])
    ensures Next(snapshot, s, ParentFinishes(switched), end)
  {
  }

  /** After a successful child, all that the parent sent is in its file, and what it did not send is left to append. */
  lemma FileIsWhole(snapshot: seq<Command>, s: State, written: ByteString)
    requires Inv(PrintedLog(snapshot), s) && s.child == Exited(true) && s.outcome.Pending?
    requires written + s.parentBuf == PrintedLog(Entries(NO_DB, s.fed))
    ensures s.tmp == PrintedLog(snapshot) + written
    ensures PrintedLog(snapshot + Entries(NO_DB, s.fed)) == s.tmp + s.parentBuf
  {
    hide PrintedLog, Entries;
    assert s.childDiff + s.pipe == s.childDiff;
    SameBehind(written, s.childDiff, s.parentBuf);
    PrintedLogSnoc(snapshot, Entries(NO_DB, s.fed));
    assert PrintedLog(snapshot) + (written + s.parentBuf) == PrintedLog(snapshot) + written + s.parentBuf;
  }

  lemma {:induction false} FedNoSelects(events: seq<Event>, snapshot: seq<Command>)
    requires forall i :: 0 <= i < |events| ==> Possible(events[i], snapshot)
    ensures NoSelects(FedBy(events))
  {
    hide IsSelect, Executed, Translated;
    if events != [] {
      var last := events[|events| - 1];
      assert Possible(last, snapshot);
      if last.Propagate? { TranslatedIsNoSelect(last.proc, last.argv, last.time); }
      FedNoSelects(events[..|events| - 1], snapshot);
    }
  }

  /** A rewrite from fork to switch, whatever the order of the events. The file switched to holds the snapshot and every
      command fed meanwhile, and replaying it runs each of them in its own database. */
  method RewriteAppendOnlyFile(server: Server, ghost snapshot: seq<Command>, events: seq<Event>, now: nat, end: Ending)
    returns (r: Rewrite, switched: bool, newFile: ByteString)
    requires server.Valid() && !server.rewriting && !server.aof.exited && server.aofState != Off
    requires forall i :: 0 <= i < |events| ==> Possible(events[i], snapshot)
    modifies server, server.Repr()
    ensures server.Valid() && Run(PrintedLog(snapshot), r.states, r.steps)
    ensures switched <==> r.states[|r.steps|].outcome.Switched?
    // The switch takes place exactly if the events lead to a child that succeeded and the system calls work then.
    ensures !server.aof.exited ==>
              var s := Reached(PrintedLog(snapshot), events);
              switched <==> s.child == Exited(true) && end.opens && |s.parentBuf| <= end.room
                            && (server.aof.fsyncPolicy == Always ==> end.syncs) && end.renames
    ensures switched ==>
              server.aof.file == newFile == PrintedLog(snapshot + Entries(NO_DB, FedBy(events)))
              && Replayed(0, server.commands) == Replayed(0, snapshot) + Tagged(FedBy(events))
  {
    hide PrintedLog, Entries, LastDb, Flatten, Owned, Possible, Replayed, Run, Reached, Rewrite.Now, Rewrite.Valid,
         Server.Valid, Server.Repr;
    r := new Rewrite(server, snapshot);
    switched, newFile := false, [];
    HappenAll(r, events);
    assert [] + FedBy(events) == FedBy(events);
    r.StillPending();
    r.NowIs();
    if server.aof.exited || !r.child.Exited? { return; }
    switched, newFile := r.Finish(now, end);
    FedNoSelects(events, snapshot);
    DiffMerges(snapshot, 0, FedBy(events));
  }

  /** The events in order, until the server exits. */
  method HappenAll(r: Rewrite, events: seq<Event>)
    requires r.Valid() && r.Now() == Forked && !r.server.aof.exited && r.server.aofState != Off
    requires forall i :: 0 <= i < |events| ==> Possible(events[i], r.snapshot)
    modifies r, r.server, r.server.Repr()
    ensures r.Valid() && forall o :: o in r.server.Repr() ==> o in old(r.server.Repr()) || fresh(o)
    ensures r.server.aofState != Off
    ensures !r.server.aof.exited ==>
              r.server.fed == old(r.server.fed) + FedBy(events) && r.Now() == Reached(PrintedLog(r.snapshot), events)
  {
    hide PrintedLog, Entries, LastDb, Flatten, Owned, Possible, Run, FedBy, React, Reached, Rewrite.Now, Server.Valid,
         Server.Repr;
    var k := 0;
    NoneFed(PrintedLog(r.snapshot), events);
    while k < |events|
      invariant 0 <= k <= |events| && r.Valid() && !r.server.aof.exited && r.server.aofState != Off
      invariant forall o :: o in r.server.Repr() ==> o in old(r.server.Repr()) || fresh(o)
      invariant r.server.fed == old(r.server.fed) + FedBy(events[..k])
      invariant r.Now() == Reached(PrintedLog(r.snapshot), events[..k])
    {
      OneMoreFed(PrintedLog(r.snapshot), events, k);
      ghost var had := r.server.Repr();
      label Before:
      r.Happen(events[k]);
      forall o | o in r.server.Repr() && o !in had ensures fresh(o) {
        assert o in r.server.Repr() - had && fresh@Before(o);
      }
      k := k + 1;
      if r.server.aof.exited { return; }
    }
    assert events[..|events|] == events;
  }

  lemma NoneFed(snapshot: ByteString, events: seq<Event>)
    ensures FedBy(events[..0]) == [] && Reached(snapshot, events[..0]) == Forked
  {
  }

  lemma OneMoreFed(snapshot: ByteString, events: seq<Event>, k: nat)
    requires k < |events|
    ensures FedBy(events[..k + 1]) == FedBy(events[..k]) + FedBy([events[k]])
    ensures Reached(snapshot, events[..k + 1]) == React(snapshot, Reached(snapshot, events[..k]), events[k])
  {
    hide React;
    assert events[..k + 1][..k] == events[..k];
    OneFed(events[k]);
  }

  /** A child that is left alone, while its requests are answered, succeeds wherever it was before it asked the server
      to stop, and what the server had not sent by then is left to append. */
  lemma ChildCanFinish(snapshot: ByteString, before: seq<Event>, dump: ByteString, space: nat)
    requires var s := Reached(snapshot, before);
             s.child.Dumping? && s.outcome.Pending? && s.listening && |s.childDiff| + |s.pipe| <= space
    ensures var s, t := Reached(snapshot, before),
                        Reached(snapshot, before + [SnapshotDone(dump), AskToStop, AckReadable(true, true), SeeAck,
                                                    ReadDiff, FindPipeEmpty, WriteFile(space)]);
            t.child == Exited(true) && t.parentBuf == s.parentBuf && t.fed == s.fed
            && t.tmp == snapshot + (s.childDiff + s.pipe)
  {
    hide React, Reached;
    var s := Reached(snapshot, before);
    AskedAndAnswered(snapshot, s, dump);
    var a := before + [SnapshotDone(dump)];
    var b := a + [AskToStop];
    var c := b + [AckReadable(true, true)];
    var d := c + [SeeAck];
    ReachedNext(snapshot, before, SnapshotDone(dump));
    ReachedNext(snapshot, a, AskToStop);
    ReachedNext(snapshot, b, AckReadable(true, true));
    ReachedNext(snapshot, c, SeeAck);
    DrainedAndWritten(snapshot, Reached(snapshot, d), space);
    var e := d + [ReadDiff];
    var f := e + [FindPipeEmpty];
    ReachedNext(snapshot, d, ReadDiff);
    ReachedNext(snapshot, e, FindPipeEmpty);
    ReachedNext(snapshot, f, WriteFile(space));
    assert before + [SnapshotDone(dump), AskToStop, AckReadable(true, true), SeeAck, ReadDiff, FindPipeEmpty,
                     WriteFile(space)] == f + [WriteFile(space)];
  }

  lemma ReachedNext(snapshot: ByteString, events: seq<Event>, e: Event)
    ensures Reached(snapshot, events + [e]) == React(snapshot, Reached(snapshot, events), e)
  {
    hide React;
    assert (events + [e])[..|events|] == events;
  }

  lemma AskedAndAnswered(snapshot: ByteString, s: State, dump: ByteString)
    requires s.child.Dumping? && s.outcome.Pending? && s.listening
    ensures var t := React(snapshot, React(snapshot, React(snapshot, React(snapshot, s, SnapshotDone(dump)), AskToStop),
                                           AckReadable(true, true)), SeeAck);
            t == s.(child := Draining, tmp := snapshot, asked := false, acked := false, stopSending := true,
                    listening := false)
  {
  }

  lemma DrainedAndWritten(snapshot: ByteString, s: State, space: nat)
    requires s.child.Draining? && s.outcome.Pending? && |s.childDiff| + |s.pipe| <= space
    ensures var t := React(snapshot, React(snapshot, React(snapshot, s, ReadDiff), FindPipeEmpty), WriteFile(space));
            t == s.(child := Exited(true), childDiff := s.childDiff + s.pipe, pipe := [],
                    tmp := s.tmp + (s.childDiff + s.pipe))
  {
    assert s.pipe[|s.pipe|..] == [] && s.pipe[..|s.pipe|] == s.pipe;
  }
}
