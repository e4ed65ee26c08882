// ae.c: time events as values. A timer is known by its serial number, the identifier it was created with,
// which it keeps when its `id` field is overwritten with the deletion mark.
module AeTimerHistory {

  const DELETED_EVENT_ID: int := -1
  const NOMORE: int := -1

  class TimeEvent {
    ghost const serial: nat
    var id: int
    var when: int
    var refcount: nat
    var prev: TimeEvent?
    var next: TimeEvent?

    constructor (id: nat, when: int)
      ensures serial == this.id == id && this.when == when && refcount == 0
    {
      serial := id;
      this.id, this.when, refcount := id, when, 0;
      prev, next := null, null;
    }
  }

  /** What happened to timers, oldest first. `depth` is the number of passes a callback runs inside of. */
  datatype Event = Created(id: nat) | Fired(id: nat, depth: nat) | Deleted(id: nat)

  function Issued(h: seq<Event>): nat {
    if h == [] then 0 else Issued(h[..|h| - 1]) + if h[|h| - 1].Created? then 1 else 0
  }

  /** The timers created and not deleted since. */
  function Live(h: seq<Event>): set<nat> {
    if h == [] then {} else
      var before := Live(h[..|h| - 1]);
      match h[|h| - 1]
      case Created(id) => before + {id}
      case Deleted(id) => before - {id}
      case Fired(_, _) => before
  }

  predicate Possible(h: seq<Event>, e: Event) {
    match e
    case Created(id) => id == Issued(h)
    case Fired(id, _) => id in Live(h)
    case Deleted(id) => id in Live(h)
  }

  /** Identifiers are given out in order; only live timers fire or are deleted. */
  predicate Sound(h: seq<Event>) {
    h == [] || (Sound(h[..|h| - 1]) && Possible(h[..|h| - 1], h[|h| - 1]))
  }

  lemma Then(h: seq<Event>, e: Event)
    ensures Issued(h + [e]) == Issued(h) + if e.Created? then 1 else 0
    ensures Live(h + [e]) ==
            if e.Created? then Live(h) + {e.id} else if e.Deleted? then Live(h) - {e.id} else Live(h)
    ensures Sound(h + [e]) <==> Sound(h) && Possible(h, e)
  {
    assert (h + [e])[..|h|] == h;
  }

  lemma {:induction false} LiveWereIssued(h: seq<Event>, id: nat)
    requires Sound(h) && id in Live(h)
    ensures id < Issued(h)
  {
    if h != [] {
      var before := h[..|h| - 1];
      if id in Live(before) {
        LiveWereIssued(before, id);
      }
    }
  }

  lemma {:induction false} DeadStaysDead(h: seq<Event>, p: nat, id: nat)
    requires Sound(h) && p < |h| && h[p] == Deleted(id)
    ensures id !in Live(h) && id < Issued(h)
  {
    var before := h[..|h| - 1];
    if p == |h| - 1 {
      LiveWereIssued(before, id);
    } else {
      DeadStaysDead(before, p, id);
    }
  }

  lemma {:induction false} SoundPrefix(h: seq<Event>, n: nat)
    requires Sound(h) && n <= |h|
    ensures Sound(h[..n])
  {
    if n < |h| {
      SoundPrefix(h[..|h| - 1], n);
      assert h[..|h| - 1][..n] == h[..n];
    } else {
      assert h[..n] == h;
    }
  }

  /** A deleted timer, even one deleted by its own callback, never fires again, is not deleted twice, and its
      identifier is not reused. */
  lemma DeletedNeverFires(h: seq<Event>, p: nat, q: nat, id: nat)
    requires Sound(h) && p < q < |h| && h[p] == Deleted(id)
    ensures h[q].id != id
  {
    SoundPrefix(h, q + 1);
    var upTo := h[..q + 1];
    assert upTo[..q] == h[..q] && upTo[q] == h[q];
    DeadStaysDead(h[..q], p, id);
  }

  /** Fired since the history was `n` long. */
  ghost predicate FiredSince(h: seq<Event>, n: nat, id: nat) {
    exists p :: n <= p < |h| && h[p].Fired? && h[p].id == id
  }

  /** The timers fired at the given depth since then, in order. */
  function FiredAt(h: seq<Event>, n: nat, depth: nat): seq<nat> {
    if |h| <= n then [] else
      FiredAt(h[..|h| - 1], n, depth) +
      if h[|h| - 1].Fired? && h[|h| - 1].depth == depth then [h[|h| - 1].id] else []
  }

  /** Since then, timers fired only inside that many passes or more. */
  predicate FiredDeeper(h: seq<Event>, n: nat, depth: nat) {
    forall p :: n <= p < |h| && h[p].Fired? ==> h[p].depth >= depth
  }

  lemma {:induction false} DeeperFiresElsewhere(a: seq<Event>, b: seq<Event>, n: nat, depth: nat)
    requires n <= |a| && a <= b && FiredDeeper(b, |a|, depth + 1)
    ensures FiredAt(b, n, depth) == FiredAt(a, n, depth)
  {
    if a != b {
      assert a <= b[..|b| - 1];
      DeeperFiresElsewhere(a, b[..|b| - 1], n, depth);
    }
  }

  // ----- Neighbours on the list, which runs from the newest timer down -----

  /** `te` is the first timer below `k`. */
  ghost predicate FirstBelow(m: map<nat, TimeEvent>, te: TimeEvent?, k: nat) {
    if te == null then forall j :: j in m ==> j >= k
    else te.serial < k && te.serial in m && m[te.serial] == te && forall j :: j in m && j < k ==> j <= te.serial
  }

  ghost predicate FirstAbove(m: map<nat, TimeEvent>, te: TimeEvent?, k: nat) {
    if te == null then forall j :: j in m ==> j <= k
    else te.serial > k && te.serial in m && m[te.serial] == te && forall j :: j in m && j > k ==> j >= te.serial
  }

  ghost predicate First(m: map<nat, TimeEvent>, te: TimeEvent?) {
    if te == null then m == map[]
    else te.serial in m && m[te.serial] == te && forall j :: j in m ==> j <= te.serial
  }

  /** Without timer `x`, its neighbours become each other's, and the others keep theirs. */
  lemma NeighboursWithout(m: map<nat, TimeEvent>, x: nat, prev: TimeEvent?, next: TimeEvent?,
                          k: nat, above: TimeEvent?, below: TimeEvent?)
    requires x in m && m[x].serial == x && FirstAbove(m, prev, x) && FirstBelow(m, next, x)
    requires k in m && k != x && FirstAbove(m, above, k) && FirstBelow(m, below, k)
    ensures FirstAbove(m - {x}, if next != null && next.serial == k then prev else above, k)
    ensures FirstBelow(m - {x}, if prev != null && prev.serial == k then next else below, k)
  {
  }

  lemma FirstWithout(m: map<nat, TimeEvent>, x: nat, prev: TimeEvent?, next: TimeEvent?, head: TimeEvent?)
    requires x in m && m[x].serial == x && FirstAbove(m, prev, x) && FirstBelow(m, next, x) && First(m, head)
    ensures First(m - {x}, if prev == null then next else head)
  {
    if prev == null && next == null {
      assert m - {x} == map[];
    }
  }

  lemma NewFirst(m: map<nat, TimeEvent>, te: TimeEvent, head: TimeEvent?)
    requires First(m, head) && forall j :: j in m ==> j < te.serial
    ensures var m' := m[te.serial := te];
            First(m', te) && FirstAbove(m', null, te.serial) && FirstBelow(m', head, te.serial)
  {
  }

  lemma NeighboursWith(m: map<nat, TimeEvent>, te: TimeEvent, head: TimeEvent?,
                       k: nat, above: TimeEvent?, below: TimeEvent?)
    requires First(m, head) && forall j :: j in m ==> j < te.serial
    requires k in m && m[k].serial == k && FirstAbove(m, above, k) && FirstBelow(m, below, k)
    ensures FirstAbove(m[te.serial := te], if head == m[k] then te else above, k)
    ensures FirstBelow(m[te.serial := te], below, k)
  {
  }

  // ----- The whole state, and what each operation does to it -----

  datatype Row = Row(node: TimeEvent, id: int, when: int, refs: nat)

  datatype State = State(rows: map<nat, Row>, nextId: nat, clock: int, history: seq<Event>)

  ghost predicate Sane(s: State) {
    && Sound(s.history)
    && Issued(s.history) == s.nextId
    && (forall k :: k in s.rows ==> k < s.nextId && (s.rows[k].id == k || s.rows[k].id == DELETED_EVENT_ID))
    && (forall k :: k in Live(s.history) ==> k in s.rows && s.rows[k].id == k)
    && (forall k :: k in s.rows && s.rows[k].id == k ==> k in Live(s.history))
  }

  lemma SaneRows(s: State)
    requires Sane(s)
    ensures forall k :: k in s.rows ==> k < s.nextId && (s.rows[k].id == k || s.rows[k].id == DELETED_EVENT_ID)
    ensures forall k :: k in Live(s.history) <==> k in s.rows && s.rows[k].id == k
  {
    hide Sound, Live, Issued;
  }

  function AfterCreate(s: State, node: TimeEvent, delay: int): State {
    State(s.rows[s.nextId := Row(node, s.nextId, s.clock + delay * 1000, 0)], s.nextId + 1, s.clock,
          s.history + [Created(s.nextId)])
  }

  function AfterDelete(s: State, k: nat): State
    requires k in s.rows
  {
    s.(rows := s.rows[k := s.rows[k].(id := DELETED_EVENT_ID)],
       history := if s.rows[k].id == DELETED_EVENT_ID then s.history else s.history + [Deleted(k)])
  }

  function AfterFree(s: State, k: nat): State {
    s.(rows := s.rows - {k})
  }

  function AfterTick(s: State, elapsed: nat): State {
    s.(clock := s.clock + elapsed)
  }

  /** The callback of timer `k` is entered. */
  function AfterEnter(s: State, k: nat, depth: nat): State
    requires k in s.rows
  {
    s.(rows := s.rows[k := s.rows[k].(refs := s.rows[k].refs + 1)], history := s.history + [Fired(k, depth)])
  }

  /** The callback of timer `k` has returned. */
  function AfterReturn(s: State, k: nat, retval: int): State
    requires k in s.rows && s.rows[k].refs > 0
  {
    var released := s.(rows := s.rows[k := s.rows[k].(refs := s.rows[k].refs - 1)]);
    if retval != NOMORE
    then released.(rows := released.rows[k := released.rows[k].(when := s.clock + retval * 1000)])
    else AfterDelete(released, k)
  }

  // ----- What any run of operations keeps -----

  predicate Evolves(r: Row, r': Row) {
    && r'.node == r.node && r'.refs == r.refs
    && (r'.id == r.id || r'.id == DELETED_EVENT_ID)
  }

  /** From `a` to `b` no timer fired before its time: none whose time has still not come. */
  ghost predicate NoneEarly(a: State, b: State) {
    forall k :: k in a.rows && a.rows[k].when > b.clock ==> !FiredSince(b.history, |a.history|, k)
  }

  /** From `a` to `b`: no timer in use by a callback was freed, no timer came back, the use counts are as they
      were, a timer was rescheduled only by firing, and none fired early. */
  ghost predicate Between(a: State, b: State) {
    && a.history <= b.history
    && a.nextId <= b.nextId
    && a.clock <= b.clock
    && (forall k :: k in b.rows && k < a.nextId ==> k in a.rows && Evolves(a.rows[k], b.rows[k]))
    && (forall k :: k in b.rows && k < a.nextId && b.rows[k].when != a.rows[k].when ==>
          FiredSince(b.history, |a.history|, k))
    && (forall k :: k in b.rows && k >= a.nextId ==> b.rows[k].refs == 0)
    && (forall k :: k in a.rows && a.rows[k].refs > 0 ==> k in b.rows)
    && NoneEarly(a, b)
  }

  lemma BetweenRefl(s: State)
    requires Sane(s)
    ensures Between(s, s)
  {
    hide Sound, Live, Issued;
  }

  lemma Quiet(a: seq<Event>, b: seq<Event>, depth: nat)
    requires b == a || (|b| == |a| + 1 && a <= b && !b[|a|].Fired?)
    ensures FiredDeeper(b, |a|, depth)
  {
  }

  lemma BetweenExtends(a: State, b: State)
    requires Between(a, b)
    ensures a.history <= b.history
  {
  }

  lemma FiredDeeperTrans(a: seq<Event>, b: seq<Event>, c: seq<Event>, depth: nat)
    requires a <= b <= c && FiredDeeper(b, |a|, depth) && FiredDeeper(c, |b|, depth)
    ensures FiredDeeper(c, |a|, depth)
  {
    assert forall p :: 0 <= p < |b| ==> c[p] == b[p];
  }

  /** A timer that is off the list never fires again. */
  lemma {:induction false} GoneNeverFires(h: seq<Event>, n: nat, k: nat)
    requires Sound(h) && n <= |h| && k < Issued(h[..n]) && k !in Live(h[..n])
    ensures k < Issued(h) && k !in Live(h) && !FiredSince(h, n, k)
    decreases |h|
  {
    if n == |h| {
      assert h[..n] == h;
    } else {
      var before := h[..|h| - 1];
      assert before[..n] == h[..n];
      GoneNeverFires(before, n, k);
      assert forall p :: 0 <= p < |before| ==> before[p] == h[p];
    }
  }

  lemma NoneEarlyTrans(a: State, b: State, c: State)
    requires Sane(a) && Sane(b) && Sane(c) && Between(a, b) && Between(b, c)
    ensures NoneEarly(a, c)
  {
    hide Sound, Live, Issued;
    forall k | k in a.rows && a.rows[k].when > c.clock ensures !FiredSince(c.history, |a.history|, k) {
      if k !in b.rows {
        GoneSince(b, c, k);
      }
      if FiredSince(c.history, |a.history|, k) {
        FiredEither(a.history, b.history, c.history, k);
      }
    }
  }

  lemma GoneSince(b: State, c: State, k: nat)
    requires Sane(b) && Sane(c) && b.history <= c.history && k < b.nextId && k !in b.rows
    ensures !FiredSince(c.history, |b.history|, k)
  {
    hide Sound, Live, Issued;
    assert c.history[..|b.history|] == b.history;
    GoneNeverFires(c.history, |b.history|, k);
  }

  lemma FiredEither(a: seq<Event>, b: seq<Event>, c: seq<Event>, k: nat)
    requires a <= b <= c && FiredSince(c, |a|, k)
    ensures FiredSince(b, |a|, k) || FiredSince(c, |b|, k)
  {
    var p :| |a| <= p < |c| && c[p].Fired? && c[p].id == k;
    assert p < |b| ==> b[p] == c[p];
  }

  lemma BetweenTrans(a: State, b: State, c: State)
    requires Sane(a) && Sane(b) && Sane(c) && Between(a, b) && Between(b, c)
    ensures Between(a, c)
  {
    hide Sound, Live, Issued, FiredSince;
    NoneEarlyTrans(a, b, c);
    forall k | k in c.rows && k < a.nextId ensures k in a.rows && Evolves(a.rows[k], c.rows[k]) {
      assert k in b.rows;
    }
    forall k | k in c.rows && k < a.nextId && c.rows[k].when != a.rows[k].when
      ensures FiredSince(c.history, |a.history|, k)
    {
      FiredLater(a.history, b.history, c.history, k);
    }
  }

  lemma FiredLater(a: seq<Event>, b: seq<Event>, c: seq<Event>, k: nat)
    requires a <= b <= c && (FiredSince(b, |a|, k) || FiredSince(c, |b|, k))
    ensures FiredSince(c, |a|, k)
  {
    if FiredSince(b, |a|, k) {
      var p :| |a| <= p < |b| && b[p].Fired? && b[p].id == k;
      assert c[p] == b[p];
    }
  }

  lemma CreateKeeps(s: State, node: TimeEvent, delay: int)
    requires Sane(s)
    ensures Sane(AfterCreate(s, node, delay)) && Between(s, AfterCreate(s, node, delay))
  {
    hide Sound, Live, Issued;
    Then(s.history, Created(s.nextId));
  }

  lemma DeleteKeeps(s: State, k: nat)
    requires Sane(s) && k in s.rows
    ensures Sane(AfterDelete(s, k)) && Between(s, AfterDelete(s, k))
    ensures k !in Live(AfterDelete(s, k).history)
  {
    hide Sound, Live, Issued;
    Then(s.history, Deleted(k));
  }

  lemma TickKeeps(s: State, elapsed: nat)
    requires Sane(s)
    ensures Sane(AfterTick(s, elapsed)) && Between(s, AfterTick(s, elapsed))
  {
    hide Sound, Live, Issued;
  }

  lemma FreeKeeps(s: State, k: nat)
    requires Sane(s) && k in s.rows && s.rows[k].id == DELETED_EVENT_ID && s.rows[k].refs == 0
    ensures Sane(AfterFree(s, k)) && Between(s, AfterFree(s, k))
  {
    hide Sound, Live, Issued;
  }

  lemma EnterKeeps(s: State, k: nat, depth: nat)
    requires Sane(s) && k in s.rows && s.rows[k].id != DELETED_EVENT_ID
    ensures Sane(AfterEnter(s, k, depth))
  {
    hide Sound, Live, Issued;
    Then(s.history, Fired(k, depth));
  }

  lemma ReturnKeeps(s: State, k: nat, retval: int)
    requires Sane(s) && k in s.rows && s.rows[k].refs > 0
    ensures Sane(AfterReturn(s, k, retval))
    ensures s.history <= AfterReturn(s, k, retval).history
    ensures retval == NOMORE ==> k !in Live(AfterReturn(s, k, retval).history)
  {
    hide Sound, Live, Issued;
    Then(s.history, Deleted(k));
  }

  /** Over a firing, the rows change as they may. */
  lemma FiringEvolves(s: State, k: nat, depth: nat, t: State, retval: int)
    requires Sane(s) && k in s.rows && Between(AfterEnter(s, k, depth), t)
    ensures k in t.rows && t.rows[k].refs == s.rows[k].refs + 1 && t.rows[k].node == s.rows[k].node
    ensures var u := AfterReturn(t, k, retval);
            && (forall j :: j in u.rows && j < s.nextId ==> j in s.rows && Evolves(s.rows[j], u.rows[j]))
            && (forall j :: j in u.rows && j >= s.nextId ==> u.rows[j].refs == 0)
            && (forall j :: j in s.rows && s.rows[j].refs > 0 ==> j in u.rows)
  {
    hide Sound, Live, Issued, FiredSince;
    assert k in AfterEnter(s, k, depth).rows;
  }

  /** Over a firing, a timer is rescheduled only by firing. */
  lemma FiringReschedules(s: State, k: nat, depth: nat, t: State, retval: int)
    requires Sane(s) && k in s.rows && Between(AfterEnter(s, k, depth), t)
    requires k in t.rows && t.rows[k].refs > 0 && t.history <= AfterReturn(t, k, retval).history
    ensures var u := AfterReturn(t, k, retval);
            && FiredSince(u.history, |s.history|, k)
            && forall j :: j in u.rows && j in s.rows && u.rows[j].when != s.rows[j].when ==>
                 FiredSince(u.history, |s.history|, j)
  {
    hide Sound, Live, Issued;
    var e := AfterEnter(s, k, depth);
    var u := AfterReturn(t, k, retval);
    assert e.history[|s.history|] == Fired(k, depth) == u.history[|s.history|];
    forall j | j in u.rows && j in s.rows && j != k && u.rows[j].when != s.rows[j].when
      ensures FiredSince(u.history, |s.history|, j)
    {
      assert e.rows[j] == s.rows[j] && u.rows[j] == t.rows[j];
      FiredEarlier(s.history, e.history, t.history, u.history, j);
    }
  }

  lemma FiringIsOnTime(s: State, k: nat, depth: nat, t: State, retval: int)
    requires Sane(s) && k in s.rows && s.rows[k].when <= s.clock && Between(AfterEnter(s, k, depth), t)
    requires k in t.rows && t.rows[k].refs > 0
    ensures NoneEarly(s, AfterReturn(t, k, retval))
  {
    hide Sound, Live, Issued;
    var e, u := AfterEnter(s, k, depth), AfterReturn(t, k, retval);
    forall j | j in s.rows && s.rows[j].when > u.clock ensures !FiredSince(u.history, |s.history|, j) {
      assert j != k && e.rows[j] == s.rows[j];
      if FiredSince(u.history, |s.history|, j) {
        FiredWithin(s.history, Fired(k, depth), t.history, u.history, j);
      }
    }
  }

  lemma FiredWithin(a: seq<Event>, f: Event, b: seq<Event>, c: seq<Event>, j: nat)
    requires a + [f] <= b && f.id != j && (c == b || (b <= c && |c| == |b| + 1 && !c[|b|].Fired?))
    requires FiredSince(c, |a|, j)
    ensures FiredSince(b, |a| + 1, j)
  {
    var p :| |a| <= p < |c| && c[p].Fired? && c[p].id == j;
    assert (a + [f])[|a|] == f == b[|a|];
    assert p < |b| ==> c[p] == b[p];
  }

  /** Entering the callback of a due timer, anything it does, and leaving it. */
  lemma FiringKeeps(s: State, k: nat, depth: nat, t: State, retval: int)
    requires Sane(s) && k in s.rows && s.rows[k].id != DELETED_EVENT_ID && s.rows[k].when <= s.clock
    requires Sane(t) && Between(AfterEnter(s, k, depth), t)
    ensures k in t.rows && t.rows[k].refs == s.rows[k].refs + 1 && t.rows[k].node == s.rows[k].node
    ensures Sane(AfterReturn(t, k, retval)) && Between(s, AfterReturn(t, k, retval))
    ensures FiredSince(AfterReturn(t, k, retval).history, |s.history|, k)
  {
    hide Sound, Live, Issued, FiredSince, Sane, Evolves, NoneEarly;
    FiringEvolves(s, k, depth, t, retval);
    FiringIsOnTime(s, k, depth, t, retval);
    ReturnKeeps(t, k, retval);
    FiringReschedules(s, k, depth, t, retval);
    assert s.history <= AfterEnter(s, k, depth).history;
  }

  lemma FiredEarlier(a: seq<Event>, b: seq<Event>, c: seq<Event>, d: seq<Event>, k: nat)
    requires a <= b <= c <= d && FiredSince(c, |b|, k)
    ensures FiredSince(d, |a|, k)
  {
    var p :| |b| <= p < |c| && c[p].Fired? && c[p].id == k;
    assert d[p] == c[p];
  }

  // ----- One pass over the list, down to the serial number `cursor` -----

  ghost predicate NoneBetween(s: State, low: int, high: int) {
    forall k :: k in s.rows ==> !(low < k < high)
  }

  /** A timer due when the pass began and still not deleted has fired. */
  ghost predicate Served(s0: State, s: State, k: nat) {
    k in s0.rows && s0.rows[k].id == k && s0.rows[k].when <= s0.clock && k in Live(s.history) ==>
      FiredSince(s.history, |s0.history|, k)
  }

  /** A timer already deleted when the pass began is gone unless a callback still uses it. */
  ghost predicate Swept(s0: State, s: State, k: nat) {
    k in s.rows && k in s0.rows && s0.rows[k].id == DELETED_EVENT_ID ==> s0.rows[k].refs > 0
  }

  ghost predicate Descending(fired: seq<nat>, cursor: int) {
    && (forall i, j :: 0 <= i < j < |fired| ==> fired[i] > fired[j])
    && (forall i :: 0 <= i < |fired| ==> fired[i] > cursor)
  }

  /** The timer of the last firing, or an identifier above all that were there. */
  function LastFired(s0: State, fired: seq<nat>): nat {
    if fired == [] then s0.nextId else fired[|fired| - 1]
  }

  /** Of the timers visited since the last firing none is due, by the clock as it is after that firing. */
  ghost predicate Settled(s: State, cursor: int, last: nat) {
    forall k :: cursor < k < last && k in s.rows && s.rows[k].id == k ==> s.rows[k].when > s.clock
  }

  ghost predicate Walked(s0: State, s: State, cursor: int, fired: seq<nat>, depth: nat) {
    && Sane(s)
    && Between(s0, s)
    && FiredDeeper(s.history, |s0.history|, depth)
    && fired == FiredAt(s.history, |s0.history|, depth)
    && Descending(fired, cursor)
    && (forall i :: 0 <= i < |fired| ==> fired[i] in Live(s0.history))
    && (forall k: nat :: k > cursor ==> Served(s0, s, k))
    && (forall k: nat :: cursor < k < s0.nextId ==> Swept(s0, s, k))
    && Settled(s, cursor, LastFired(s0, fired))
  }

  lemma WalkStarts(s: State, cursor: int, depth: nat)
    requires Sane(s) && forall k :: k in s.rows ==> k <= cursor
    ensures Walked(s, s, cursor, [], depth)
  {
    hide Sound, Live, Issued;
  }

  /** Moving on from timer `b`, served and swept, to the next one on the list. */
  lemma WalkMoves(s0: State, s: State, b: nat, low: int, fired: seq<nat>, depth: nat)
    requires Sane(s0) && Walked(s0, s, b, fired, depth) && low < b && NoneBetween(s, low, b)
    requires Served(s0, s, b) && Swept(s0, s, b)
    requires b in s.rows && s.rows[b].id == b ==> s.rows[b].when > s.clock
    ensures Walked(s0, s, low, fired, depth)
  {
    hide Sound, Live, Issued, FiredSince, FiredAt;
  }

  lemma WalkLeaps(s0: State, s: State, b: nat, low: int, fired: seq<nat>, depth: nat)
    requires Sane(s0) && Walked(s0, s, b - 1, fired, depth) && low < b && NoneBetween(s, low, b)
    ensures Walked(s0, s, low, fired, depth)
  {
    hide Sound, Live, Issued, FiredSince, FiredAt;
    forall k: nat | k > low ensures Served(s0, s, k) {
      assert k < b ==> k !in s.rows;
    }
  }

  lemma WalkedKeeps(s0: State, s: State, cursor: int, fired: seq<nat>, depth: nat)
    requires Walked(s0, s, cursor, fired, depth)
    ensures Sane(s) && Between(s0, s) && FiredDeeper(s.history, |s0.history|, depth)
  {
    hide Sane, Between, FiredDeeper, FiredAt;
  }

  lemma WalkFrees(s0: State, s: State, b: nat, low: int, fired: seq<nat>, depth: nat)
    requires Sane(s0) && Walked(s0, s, b, fired, depth) && low < b && NoneBetween(s, low, b)
    requires b in s.rows && s.rows[b].id == DELETED_EVENT_ID && s.rows[b].refs == 0
    ensures Walked(s0, AfterFree(s, b), low, fired, depth)
  {
    hide Sound, Live, Issued, FiredSince, FiredAt;
    var t := AfterFree(s, b);
    FreeKeeps(s, b);
    BetweenTrans(s0, s, t);
    forall k: nat | k > b ensures Served(s0, t, k) {
      assert Served(s0, s, k);
    }
    forall k: nat | b < k < s0.nextId ensures Swept(s0, t, k) {
      assert Swept(s0, s, k);
    }
    WalkMoves(s0, t, b, low, fired, depth);
  }

  /** A timer that does not fire although live was not due when the pass began, or fired in a nested pass. */
  lemma WalkPasses(s0: State, s: State, b: nat, low: int, fired: seq<nat>, depth: nat)
    requires Sane(s0) && Walked(s0, s, b, fired, depth) && low < b && NoneBetween(s, low, b)
    requires b in s.rows && b < s0.nextId
    requires if s.rows[b].id == DELETED_EVENT_ID then s.rows[b].refs > 0 else s.rows[b].when > s.clock
    ensures Walked(s0, s, low, fired, depth)
  {
    hide Sound, Live, Issued, FiredSince, FiredAt;
    assert Served(s0, s, b) && Swept(s0, s, b);
    WalkMoves(s0, s, b, low, fired, depth);
  }

  lemma FiredJust(h: seq<Event>, n: nat, k: nat, depth: nat, h': seq<Event>, h'': seq<Event>)
    requires n <= |h| && h + [Fired(k, depth)] <= h' && FiredDeeper(h', |h| + 1, depth + 1)
    requires h'' == h' || h'' == h' + [Deleted(k)]
    ensures FiredAt(h'', n, depth) == FiredAt(h, n, depth) + [k]
    ensures FiredDeeper(h, n, depth) ==> FiredDeeper(h'', n, depth)
  {
    var e := h + [Fired(k, depth)];
    assert e[..|h|] == h;
    DeeperFiresElsewhere(e, h', n, depth);
    DeeperFiresElsewhere(h', h'', n, depth);
    if FiredDeeper(h, n, depth) {
      forall p | n <= p < |h''| && h''[p].Fired? ensures h''[p].depth >= depth {
        assert p < |h| ==> h''[p] == e[p] == h[p];
        assert p == |h| ==> h''[p] == e[p];
        assert |h| < p < |h'| ==> h''[p] == h'[p];
      }
    }
  }

  /** After timer `b` fired, it and the timers above are served and swept as before. */
  lemma WalkServes(s0: State, s: State, u: State, b: nat, fired: seq<nat>, depth: nat)
    requires Sane(s0) && Walked(s0, s, b, fired, depth) && b in s.rows && s.rows[b].id == b && b < s0.nextId
    requires Sane(u) && Between(s, u) && FiredSince(u.history, |s.history|, b)
    ensures forall k: nat :: k >= b ==> Served(s0, u, k)
    ensures forall k: nat :: b <= k < s0.nextId ==> Swept(s0, u, k)
  {
    hide Sound, Live, Issued, FiredAt, FiredSince, NoneEarly;
    FiredLater(s0.history, s.history, u.history, b);
    forall k: nat | k >= b ensures Served(s0, u, k) {
      if k > b && k in Live(u.history) && k in s0.rows && s0.rows[k].id == k && s0.rows[k].when <= s0.clock {
        assert k in s.rows && s.rows[k].id == k;
        assert Served(s0, s, k);
        FiredLater(s0.history, s.history, u.history, k);
      }
    }
    forall k: nat | b <= k < s0.nextId ensures Swept(s0, u, k) {
      assert k > b ==> Swept(s0, s, k);
    }
  }

  lemma WasLive(s0: State, s: State, b: nat)
    requires Sane(s0) && Between(s0, s) && b in s.rows && s.rows[b].id == b && b < s0.nextId
    ensures b in Live(s0.history) && s0.history <= s.history
  {
    hide Sound, Live, Issued, NoneEarly;
  }

  /** A due timer fires: once in this pass, as it lies below every timer fired before. */
  lemma WalkFires(s0: State, s: State, b: nat, fired: seq<nat>, depth: nat, t: State, retval: int)
    requires Sane(s0) && Walked(s0, s, b, fired, depth) && b in s.rows && s.rows[b].id == b && b < s0.nextId
    requires s.rows[b].when <= s.clock
    requires Sane(t) && Between(AfterEnter(s, b, depth), t)
    requires FiredDeeper(t.history, |s.history| + 1, depth + 1)
    ensures b in t.rows && t.rows[b].refs > 0
    ensures Walked(s0, AfterReturn(t, b, retval), b - 1, fired + [b], depth)
  {
    hide Sound, Live, Issued, FiredAt, FiredSince, Served, Swept, Between;
    WasLive(s0, s, b);
    BetweenExtends(AfterEnter(s, b, depth), t);
    FiringKeeps(s, b, depth, t, retval);
    var u := AfterReturn(t, b, retval);
    BetweenTrans(s0, s, u);
    FiredJust(s.history, |s0.history|, b, depth, t.history, u.history);
    WalkServes(s0, s, u, b, fired, depth);
  }

  /** What a whole pass promises: each timer fires at most once, and only one that was there when the pass began;
      every timer due then has fired, in this pass or in one nested in it, or is deleted; the timers already
      deleted then are off the list, except those a callback still uses, which are on it as before. */
  lemma WholePass(s0: State, s: State, fired: seq<nat>, depth: nat)
    requires Sane(s0) && Walked(s0, s, -1, fired, depth)
    ensures forall i, j :: 0 <= i < j < |fired| ==> fired[i] != fired[j]
    ensures forall i :: 0 <= i < |fired| ==> fired[i] in s0.rows && s0.rows[fired[i]].id == fired[i] < s0.nextId
    ensures fired == FiredAt(s.history, |s0.history|, depth)
    ensures forall k :: k in Live(s0.history) && s0.rows[k].when <= s0.clock && k in Live(s.history) ==>
              FiredSince(s.history, |s0.history|, k)
    // The clock was read again after every callback: what became due meanwhile and comes later on the list fired too.
    ensures forall k ::
              k in s.rows && s.rows[k].id == k < s0.nextId && (forall i :: 0 <= i < |fired| ==> k < fired[i]) ==>
              s.rows[k].when > s.clock
    ensures forall k :: k in s0.rows && s0.rows[k].id == DELETED_EVENT_ID && s0.rows[k].refs == 0 ==> k !in s.rows
    ensures forall k :: k in s0.rows && s0.rows[k].refs > 0 ==>
              k in s.rows && s.rows[k].node == s0.rows[k].node && s.rows[k].refs == s0.rows[k].refs
  {
    hide Sound, Live, Issued, FiredSince, FiredAt;
    forall k | k in Live(s0.history) && s0.rows[k].when <= s0.clock && k in Live(s.history)
      ensures FiredSince(s.history, |s0.history|, k)
    {
      assert Served(s0, s, k);
    }
    forall k | k in s0.rows && s0.rows[k].id == DELETED_EVENT_ID && s0.rows[k].refs == 0 ensures k !in s.rows {
      assert Swept(s0, s, k);
    }
  }

  /** Whatever happens meanwhile, a timer neither fires nor is rescheduled while its time has not come. */
  lemma NotBeforeDue(u: State, k: nat, w: State)
    requires Sane(u) && Between(u, w) && k in u.rows && w.clock < u.rows[k].when
    ensures !FiredSince(w.history, |u.history|, k)
    ensures k in w.rows ==> w.rows[k].when == u.rows[k].when
  {
    hide Sound, Live, Issued, FiredSince;
  }

  /** Once its time has come, a timer that did not fire yet fires in any pass that begins then, unless it is deleted. */
  lemma DueIsServed(u: State, k: nat, s0: State, s: State, fired: seq<nat>, depth: nat)
    requires Sane(u) && Between(u, s0) && k in u.rows && u.rows[k].when <= s0.clock
    requires !FiredSince(s0.history, |u.history|, k)
    requires Sane(s0) && Walked(s0, s, -1, fired, depth) && k in Live(s.history)
    ensures FiredSince(s.history, |s0.history|, k)
  {
    hide Sound, Live, Issued, FiredSince, FiredAt;
    assert k in s.rows && s.rows[k].id == k;
    assert k in s0.rows && s0.rows[k].id == k && s0.rows[k].when == u.rows[k].when;
    assert Served(s0, s, k);
  }
}
