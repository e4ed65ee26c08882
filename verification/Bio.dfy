// bio.c: the queue of background jobs of one type, between the threads that submit and the worker.
module Bio {
  import opened Adlist

  // What a job does when it runs.
  datatype Job = CloseFile(fd: int) | Fsync(fd: int) | LazyFree(args: seq<int>)

  // ---------------------------------------------------------------- the protocol

  // A list node with its job; `node` is its address.
  datatype Entry = Entry(node: int, job: Job)

  // Where the worker is: at the top of its loop with the lock, running a job without it, or about to lock again.
  datatype Worker = Idle | Took(entry: Entry) | Ran(entry: Entry)

  datatype State = State(
    queue: seq<Entry>,        // bio_jobs[type]
    pending: int,             // bio_pending[type]
    worker: Worker,
    next: int,                // addresses from here on are unused
    submitted: seq<Job>,
    ran: seq<Job>,
    completed: seq<Job>)

  const INITIAL := State([], 0, Idle, 0, [], [], [])

  datatype Event = Submit(job: Job) | Work

  /** listDelNode. */
  function Without(queue: seq<Entry>, e: Entry): seq<Entry> {
    if queue == [] then [] else if queue[0] == e then queue[1..] else [queue[0]] + Without(queue[1..], e)
  }

  /** One critical section, or the run of one job between two of them. */
  function Step(s: State, ev: Event): State {
    match ev
    case Submit(job) =>
      s.(queue := s.queue + [Entry(s.next, job)], pending := s.pending + 1, next := s.next + 1,
         submitted := s.submitted + [job])
    case Work =>
      match s.worker
      // With nothing queued the worker waits on the condition.
      case Idle => if s.queue == [] then s else s.(worker := Took(s.queue[0]))
      case Took(e) => s.(worker := Ran(e), ran := s.ran + [e.job])
      case Ran(e) =>
        s.(worker := Idle, queue := Without(s.queue, e), pending := s.pending - 1, completed := s.completed + [e.job])
  }

  function Run(s: State, evs: seq<Event>): State
    decreases |evs|
  {
    if evs == [] then s else Step(Run(s, evs[..|evs| - 1]), evs[|evs| - 1])
  }

  function Jobs(queue: seq<Entry>): (r: seq<Job>)
    ensures |r| == |queue|
  {
    if queue == [] then [] else [queue[0].job] + Jobs(queue[1..])
  }

  lemma {:induction false} JobsAppend(queue: seq<Entry>, e: Entry)
    ensures Jobs(queue + [e]) == Jobs(queue) + [e.job]
  {
    if queue == [] {
      assert [] + [e] == [e];
    } else {
      JobsAppend(queue[1..], e);
      assert (queue + [e])[1..] == queue[1..] + [e];
    }
  }

  ghost predicate Inv(s: State) {
    && s.pending == |s.queue| == |s.submitted| - |s.completed|
    && s.submitted == s.completed + Jobs(s.queue)
    && (forall i, j :: 0 <= i < j < |s.queue| ==> s.queue[i].node != s.queue[j].node)
    && (forall i :: 0 <= i < |s.queue| ==> s.queue[i].node < s.next)
    // The node taken before unlocking is still the head.
    && (!s.worker.Idle? ==> s.queue != [] && s.queue[0] == s.worker.entry)
    && s.ran == s.completed + if s.worker.Ran? then [s.worker.entry.job] else []
  }

  lemma SubmitKeepsInv(s: State, job: Job)
    requires Inv(s)
    ensures Inv(Step(s, Submit(job)))
  {
    hide Jobs;
    JobsAppend(s.queue, Entry(s.next, job));
  }

  lemma FinishKeepsInv(s: State)
    requires Inv(s) && s.worker.Ran?
    ensures Inv(Step(s, Work)) && Without(s.queue, s.worker.entry) == s.queue[1..]
  {
    assert Jobs(s.queue) == [s.queue[0].job] + Jobs(s.queue[1..]);
    hide Jobs;
    assert s.submitted == (s.completed + [s.queue[0].job]) + Jobs(s.queue[1..]);
  }

  lemma StepKeepsInv(s: State, ev: Event)
    requires Inv(s)
    ensures Inv(Step(s, ev))
  {
    hide Jobs, Without;
    match ev
    case Submit(job) => SubmitKeepsInv(s, job);
    case Work => if s.worker.Ran? { FinishKeepsInv(s); }
  }

  lemma {:induction false} RunKeepsInv(evs: seq<Event>)
    ensures Inv(Run(INITIAL, evs))
    decreases |evs|
  {
    hide Inv, Step;
    if evs == [] {
      InitialInv();
    } else {
      RunKeepsInv(evs[..|evs| - 1]);
      StepKeepsInv(Run(INITIAL, evs[..|evs| - 1]), evs[|evs| - 1]);
    }
  }

  lemma InitialInv()
    ensures Inv(INITIAL)
  {
    assert Jobs([]) == [];
  }

  /** Under every interleaving the jobs run once each, in the order of their submission, and the counter tells how many
      are not finished; when it is zero, all have run. */
  lemma JobsRunOnceInOrder(evs: seq<Event>)
    ensures var s := Run(INITIAL, evs);
            && s.ran <= s.submitted
            && s.pending == |s.queue| == |s.submitted| - |s.completed|
            && (s.pending == 0 ==> s.ran == s.submitted == s.completed)
            && (!s.worker.Idle? ==>
              s.queue != [] && s.worker.entry == s.queue[0] && Without(s.queue, s.worker.entry) == s.queue[1..])
  {
    RunKeepsInv(evs);
  }

  function Works(n: nat): (r: seq<Event>)
    ensures |r| == 3 * n
  {
    if n == 0 then [] else [Work, Work, Work] + Works(n - 1)
  }

  /** The worker takes, runs and finishes one job. */
  lemma OneJob(s: State)
    requires Inv(s) && s.worker.Idle?
    ensures var t := Step(Step(Step(s, Work), Work), Work);
            && Inv(t) && t.worker.Idle? && t.submitted == s.submitted
            && |t.queue| == if s.queue == [] then 0 else |s.queue| - 1
  {
    hide Jobs;
    StepKeepsInv(s, Work);
    StepKeepsInv(Step(s, Work), Work);
    StepKeepsInv(Step(Step(s, Work), Work), Work);
  }

  /** The worker alone finishes what is queued, in three steps for each job. */
  lemma {:induction false} WorkerDrains(s: State, n: nat)
    requires Inv(s) && s.worker.Idle? && |s.queue| <= n
    ensures Run(s, Works(n)).pending == 0
    ensures Run(s, Works(n)).completed == Run(s, Works(n)).ran == s.submitted
    decreases n
  {
    hide Step;
    if n == 0 {
      assert Jobs(s.queue) == [] && s.completed + [] == s.completed;
    } else {
      OneJob(s);
      WorkerDrains(Step(Step(Step(s, Work), Work), Work), n - 1);
      RunCons(s, [Work, Work, Work], Works(n - 1));
      RunThree(s);
    }
  }

  lemma RunThree(s: State)
    ensures Run(s, [Work, Work, Work]) == Step(Step(Step(s, Work), Work), Work)
  {
    hide Step;
    assert [Work, Work, Work][..2] == [Work, Work];
    assert [Work, Work][..1] == [Work];
    assert [Work][..0] == [];
    assert Run(s, [Work]) == Step(s, Work);
    assert Run(s, [Work, Work]) == Step(Step(s, Work), Work);
  }

  lemma {:induction false} RunCons(s: State, a: seq<Event>, b: seq<Event>)
    ensures Run(s, a + b) == Run(Run(s, a), b)
    decreases |b|
  {
    hide Step;
    if b == [] {
      assert a + b == a;
    } else {
      assert (a + b)[..|a + b| - 1] == a + b[..|b| - 1];
      RunCons(s, a, b[..|b| - 1]);
    }
  }

  // ---------------------------------------------------------------- on the heap list

  datatype Place = AtTop | Running | Finishing

  class BioThread {
    const jobs: List<Job>
    var pending: int
    var ln: Node?<Job>      // the worker's node, while it has one
    var place: Place        // where the worker is
    var ran: seq<Job>       // the jobs that ran, in order

    constructor ()
      ensures fresh(this) && fresh(jobs) && jobs.nodes == [] && Agrees(INITIAL)
    {
      jobs := new List<Job>();
      pending, ln, place, ran := 0, null, AtTop, [];
    }

    /** The heap list holds the queue, and the worker its head. */
    ghost predicate Agrees(s: State)
      reads this, jobs, jobs.nodes
    {
      && jobs.Valid() && Inv(s)
      && |jobs.nodes| == |s.queue| && (forall i :: 0 <= i < |s.queue| ==> jobs.nodes[i].value == s.queue[i].job)
      && pending == s.pending && ran == s.ran
      && ln == (if s.worker.Idle? then null else At(jobs.nodes, 0))
      && place == if s.worker.Idle? then AtTop else if s.worker.Took? then Running else Finishing
    }

    // bioSubmitJob, with the lock held.
    method SubmitJob(job: Job, ghost s: State)
      requires Agrees(s)
      modifies this, jobs, jobs.nodes`prev, jobs.nodes`next
      ensures Agrees(Step(s, Submit(job)))
      ensures forall i :: 0 <= i < |jobs.nodes| ==> jobs.nodes[i] in old(jobs.nodes) || fresh(jobs.nodes[i])
    {
      hide Inv, Linked, Distinct, ValuesOf;
      SubmitKeepsInv(s, job);
      if !s.worker.Idle? { HeadIsTaken(s); }
      var n := jobs.AddNodeTail(job);
      pending := pending + 1;
    }

    // The first part of the worker's loop: it takes the head, or goes on waiting; then it unlocks.
    method TakeJob(ghost s: State)
      requires Agrees(s) && s.worker.Idle?
      modifies this`ln, this`place
      ensures Agrees(Step(s, Work))
    {
      hide Inv, Linked, Distinct;
      StepKeepsInv(s, Work);
      if jobs.len == 0 { return; }
      ln := jobs.head;
      place := Running;
    }

    // Without the lock: other threads may submit meanwhile.
    method RunJob(ghost s: State)
      requires Agrees(s) && s.worker.Took?
      modifies this`ran, this`place
      ensures Agrees(Step(s, Work))
    {
      hide Inv, Linked, Distinct;
      StepKeepsInv(s, Work);
      HeadIsTaken(s);
      ran := ran + [ln.value];
      place := Finishing;
    }

    // With the lock again: the node is deleted.
    method FinishJob(ghost s: State)
      requires Agrees(s) && s.worker.Ran?
      modifies this, jobs, jobs.nodes`prev, jobs.nodes`next
      ensures Agrees(Step(s, Work))
      ensures forall i :: 0 <= i < |jobs.nodes| ==> jobs.nodes[i] in old(jobs.nodes)
    {
      hide Inv, Without, Linked, Distinct;
      FinishKeepsInv(s);
      HeadIsTaken(s);
      ghost var before := jobs.nodes;
      ghost var i := jobs.DelNode(ln);
      OnlyAt(before, i, 0);
      HeadDropped(before, i);
      ln := null;
      place := AtTop;
      pending := pending - 1;
    }

    // One event, whichever thread it belongs to.
    method Happen(ev: Event, ghost s: State)
      requires Agrees(s)
      modifies this, jobs, jobs.nodes`prev, jobs.nodes`next
      ensures Agrees(Step(s, ev))
      ensures forall i :: 0 <= i < |jobs.nodes| ==> jobs.nodes[i] in old(jobs.nodes) || fresh(jobs.nodes[i])
    {
      hide Inv, Step, Linked, Distinct;
      match ev
      case Submit(job) => SubmitJob(job, s);
      case Work =>
        match place
        case AtTop => TakeJob(s);
        case Running => RunJob(s);
        case Finishing => FinishJob(s);
    }
  }

  lemma HeadDropped<T>(s: seq<T>, i: int)
    requires s != [] && i == 0
    ensures s[..i] + s[i + 1..] == s[1..]
    ensures forall k :: 0 <= k < |s| - 1 ==> s[1..][k] == s[k + 1] && s[k + 1] in s
  {
  }

  lemma HeadIsTaken(s: State)
    requires Inv(s) && !s.worker.Idle?
    ensures s.queue != [] && s.queue[0] == s.worker.entry
  {
  }

  /** Whatever the order of the events, the heap list goes through the states of the protocol. */
  method Interleave(evs: seq<Event>) returns (b: BioThread)
    ensures b.Agrees(Run(INITIAL, evs))
  {
    hide Step, Inv;
    b := new BioThread();
    ghost var s := INITIAL;
    var k := 0;
    while k < |evs|
      invariant 0 <= k <= |evs| && s == Run(INITIAL, evs[..k])
      invariant b.Agrees(s) && fresh(b) && fresh(b.jobs) && fresh(b.jobs.nodes)
    {
      assert evs[..k + 1][..k] == evs[..k];
      b.Happen(evs[k], s);
      s := Step(s, evs[k]);
      k := k + 1;
    }
    assert evs[..k] == evs;
  }
}
