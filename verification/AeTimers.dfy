// ae.c: the time events on their doubly linked list, newest first.
module AeTimers {
  import opened AeTimerHistory

  /** What the callbacks of one pass do: the k-th timer fired runs the k-th answer, later ones the last. Any
      terminating behaviour of the callbacks is such a tree. */
  datatype Action = Tick(elapsed: nat) | Create(delay: int) | Delete(id: int) | Process(nested: Pass)

  datatype Answer = Answer(actions: seq<Action>, retval: int)

  datatype Pass = Pass(answers: seq<Answer>, last: Answer)

  class EventLoop {
    var timeEventHead: TimeEvent?
    var timeEventNextId: nat
    var clock: int
    ghost var timers: map<nat, TimeEvent>
    ghost var history: seq<Event>

    ghost predicate On(te: TimeEvent)
      reads this`timers
    {
      te.serial in timers && timers[te.serial] == te
    }

    ghost predicate Joined(k: nat)
      requires k in timers
      reads this`timers, timers.Values`prev, timers.Values`next
    {
      FirstBelow(timers, timers[k].next, k) && FirstAbove(timers, timers[k].prev, k)
    }

    ghost predicate Linked()
      reads this`timers, this`timeEventHead, timers.Values`prev, timers.Values`next
    {
      && First(timers, timeEventHead)
      && (forall k :: k in timers ==> timers[k].serial == k)
      && (forall k {:trigger Joined(k)} :: k in timers ==> Joined(k))
    }

    ghost function Snap(): State
      reads this, timers.Values
    {
      State(map k | k in timers :: Row(timers[k], timers[k].id, timers[k].when, timers[k].refcount),
            timeEventNextId, clock, history)
    }

    ghost predicate Valid()
      reads this, timers.Values
    {
      Linked() && Sane(Snap())
    }

    lemma Timers()
      requires Valid()
      ensures forall k :: k in timers ==>
                k < timeEventNextId && timers[k].serial == k && (timers[k].id == k || timers[k].id == DELETED_EVENT_ID)
      ensures forall k :: k in Live(history) <==> k in timers && timers[k].id == k
    {
      hide Sane, Live;
      SaneRows(Snap());
      forall k | k in timers
        ensures k < timeEventNextId && (timers[k].id == k || timers[k].id == DELETED_EVENT_ID)
      {
        assert k in Snap().rows;
      }
      forall k ensures k in Live(history) <==> k in timers && timers[k].id == k {
        assert k in Snap().rows <==> k in timers;
      }
    }

    lemma HeadIsFirst()
      requires Valid()
      ensures timeEventHead == null ==> timers == map[]
      ensures timeEventHead != null ==> On(timeEventHead)
      ensures timeEventHead != null ==> timeEventHead.serial < timeEventNextId
      ensures forall k :: k in Snap().rows ==> timeEventHead != null && k <= timeEventHead.serial
    {
      Timers();
    }

    lemma NextIsBelow(k: nat)
      requires Valid() && k in timers
      ensures var next := timers[k].next;
              && (next != null ==> On(next) && next.serial < k)
              && NoneBetween(Snap(), if next == null then -1 else next.serial, k)
    {
      hide Sane;
      assert Joined(k);
    }

    /** Every node on the list was there before or is new. */
    twostate predicate NothingElse()
      reads this
    {
      forall k :: k in timers ==> (k in old(timers) && timers[k] == old(timers)[k]) || fresh(timers[k])
    }

    constructor (now: int)
      ensures Valid() && Snap() == State(map[], 0, now, [])
    {
      timeEventHead := null;
      timeEventNextId := 0;
      clock := now;
      timers := map[];
      history := [];
    }

    /** A new node becomes the head. */
    method Push(te: TimeEvent)
      requires Linked() && te !in timers.Values && forall k :: k in timers ==> k < te.serial
      modifies this`timeEventHead, this`timers, te`prev, te`next, timers.Values`prev
      ensures Linked() && timers == old(timers)[te.serial := te]
    {
      hide FirstAbove, FirstBelow;
      ghost var m := timers;
      ghost var head := timeEventHead;
      NewFirst(m, te, head);
      te.prev := null;
      te.next := timeEventHead;
      if te.next != null {
        te.next.prev := te;
      }
      timeEventHead := te;
      timers := timers[te.serial := te];
      forall k | k in m ensures Joined(k) {
        hide First;
        assert k != te.serial ==> old(Joined(k));
        NeighboursWith(m, te, head, k, old(timers[k].prev), old(timers[k].next));
      }
    }

    lemma NeighboursOn(te: TimeEvent)
      requires Linked() && On(te)
      ensures FirstAbove(timers, te.prev, te.serial) && FirstBelow(timers, te.next, te.serial)
      ensures (te.prev != null ==> On(te.prev)) && (te.next != null ==> On(te.next))
    {
      assert Joined(te.serial);
    }

    /** The neighbours of a node are joined, or the head moves. */
    method Unlink(te: TimeEvent)
      requires Linked() && On(te)
      modifies this`timeEventHead, this`timers, timers.Values`prev, timers.Values`next
      ensures Linked() && timers == old(timers) - {te.serial}
    {
      hide FirstAbove, FirstBelow, First;
      ghost var m, x, prev, next := timers, te.serial, te.prev, te.next;
      NeighboursOn(te);
      FirstWithout(m, x, prev, next, timeEventHead);
      if te.prev != null {
        te.prev.next := te.next;
      } else {
        timeEventHead := te.next;
      }
      if te.next != null {
        te.next.prev := te.prev;
      }
      timers := timers - {te.serial};
      forall k | k in timers ensures Joined(k) {
        assert old(Joined(k));
        NeighboursWithout(m, x, prev, next, k, old(timers[k].prev), old(timers[k].next));
      }
    }

    /** Memory never runs out. */
    method CreateTimeEvent(milliseconds: int) returns (id: nat)
      requires Valid()
      modifies this, timers.Values
      ensures Valid() && NothingElse()
      ensures id == old(timeEventNextId) && id in timers
      ensures timers[id].when == clock + milliseconds * 1000 && timers[id].id == id && clock == old(clock)
      ensures Snap() == AfterCreate(old(Snap()), timers[id], milliseconds)
    {
      hide Sane, Between, Sound, Live, Issued, Linked;
      ghost var s := Snap();
      assert forall k :: k in timers ==> k < timeEventNextId by {
        Timers();
      }
      id := timeEventNextId;
      timeEventNextId := timeEventNextId + 1;
      var te := new TimeEvent(id, clock + milliseconds * 1000);
      Push(te);
      history := history + [Created(id)];
      CreateKeeps(s, te, milliseconds);
      assert Snap() == AfterCreate(s, te, milliseconds);
    }

    /** Found exactly when some node on the list carries the identifier: a live timer, or, for the deletion mark
        itself, a timer already deleted, which then stays as it is. */
    method DeleteTimeEvent(id: int) returns (found: bool)
      requires Valid()
      modifies timers.Values, this`history
      ensures Valid() && timers == old(timers)
      ensures found <==> exists k :: k in old(Snap()).rows && old(Snap()).rows[k].id == id
      ensures Snap() == if found && id >= 0 then AfterDelete(old(Snap()), id) else old(Snap())
      ensures id >= 0 ==> id !in Live(history)
    {
      hide Sane, Between, Sound, Live, Issued, FiredDeeper;
      ghost var s := Snap();
      Timers();
      var te := timeEventHead;
      while te != null && te.id != id
        invariant te != null ==> On(te)
        invariant forall k :: k in timers && (te != null ==> k > te.serial) ==> timers[k].id != id
        decreases if te == null then -1 else te.serial as int
      {
        assert Joined(te.serial);
        te := te.next;
      }
      if te == null {
        return false;
      }
      ghost var k := te.serial;
      assert s.rows[k].id == id;
      history := if te.id == DELETED_EVENT_ID then history else history + [Deleted(k)];
      te.id := DELETED_EVENT_ID;
      DeleteKeeps(s, k);
      assert Snap() == AfterDelete(s, k);
      assert id < 0 ==> AfterDelete(s, k).rows == s.rows;
      return true;
    }

    /** The body of a callback running inside `depth` passes. */
    method RunActions(answer: Answer, ghost depth: nat)
      requires Valid()
      modifies this, timers.Values
      ensures Valid() && NothingElse()
      ensures Between(old(Snap()), Snap()) && FiredDeeper(history, |old(history)|, depth)
      decreases answer, 0
    {
      hide Sane, Between, Sound, Live, Issued, FiredDeeper, Linked, FiredAt;
      BetweenRefl(Snap());
      Quiet(history, history, depth);
      for i := 0 to |answer.actions|
        invariant Valid() && NothingElse()
        invariant Between(old(Snap()), Snap()) && FiredDeeper(history, |old(history)|, depth)
      {
        ghost var s := Snap();
        match answer.actions[i] {
          case Tick(elapsed) =>
            clock := clock + elapsed;
            TickKeeps(s, elapsed);
            assert Snap() == AfterTick(s, elapsed);
          case Create(delay) =>
            var id := CreateTimeEvent(delay);
            CreateKeeps(s, timers[id], delay);
          case Delete(id) =>
            var found := DeleteTimeEvent(id);
            if found && id >= 0 {
              DeleteKeeps(s, id);
            } else {
              BetweenRefl(s);
            }
          case Process(nested) =>
            var processed, fired := ProcessTimeEvents(nested, depth);
        }
        if !answer.actions[i].Process? {
          Quiet(s.history, history, depth);
        }
        BetweenExtends(s, Snap());
        BetweenExtends(old(Snap()), s);
        BetweenTrans(old(Snap()), s, Snap());
        FiredDeeperTrans(old(history), s.history, history, depth);
      }
    }

    /** A timer deleted and not in use by a callback leaves the list. */
    method Free(te: TimeEvent)
      requires Valid() && On(te) && te.id == DELETED_EVENT_ID && te.refcount == 0
      modifies this`timeEventHead, this`timers, timers.Values`prev, timers.Values`next
      ensures Valid() && Snap() == AfterFree(old(Snap()), te.serial) && timers == old(timers) - {te.serial}
    {
      hide Sane, Between, Sound, Live, Issued, Linked;
      FreeKeeps(Snap(), te.serial);
      Unlink(te);
      assert Snap() == AfterFree(old(Snap()), te.serial);
    }

    method Enter(te: TimeEvent, ghost depth: nat)
      requires Valid() && On(te) && te.id != DELETED_EVENT_ID
      modifies te`refcount, this`history
      ensures Valid() && Snap() == AfterEnter(old(Snap()), te.serial, depth)
    {
      hide Sane, Between, Sound, Live, Issued, FiredDeeper, Linked, FiredAt;
      Timers();
      EnterKeeps(Snap(), te.serial, depth);
      te.refcount := te.refcount + 1;
      history := history + [Fired(te.serial, depth)];
      assert Snap() == AfterEnter(old(Snap()), te.serial, depth);
    }

    method Return(te: TimeEvent, retval: int)
      requires Valid() && On(te) && te.refcount > 0
      modifies te`refcount, te`when, te`id, this`history
      ensures Valid() && Snap() == AfterReturn(old(Snap()), te.serial, retval)
    {
      hide Sane, Between, Sound, Live, Issued, FiredDeeper, Linked, FiredAt;
      Timers();
      ReturnKeeps(Snap(), te.serial, retval);
      te.refcount := te.refcount - 1;
      var now := clock;
      if retval != NOMORE {
        te.when := now + retval * 1000;
      } else {
        history := if te.id == DELETED_EVENT_ID then history else history + [Deleted(te.serial)];
        te.id := DELETED_EVENT_ID;
      }
      assert Snap() == AfterReturn(old(Snap()), te.serial, retval);
    }

    /** Timer `te` fires; `inside` is the state its callback leaves behind. It is due again the returned number of
        milliseconds after the callback returned, unless that is the mark for no more or the timer was deleted. */
    method Fire(te: TimeEvent, answer: Answer, ghost depth: nat) returns (ghost inside: State)
      requires Valid() && On(te) && te.id != DELETED_EVENT_ID && te.when <= clock
      modifies this, timers.Values
      ensures Valid() && NothingElse() && On(te)
      ensures answer.retval != -1 ==> te.when == clock + answer.retval * 1000
      ensures answer.retval == -1 ==> te.id == DELETED_EVENT_ID
      ensures answer.retval != -1 && te.serial in inside.rows ==> te.id == inside.rows[te.serial].id
      ensures Sane(inside) && Between(AfterEnter(old(Snap()), te.serial, depth), inside)
      ensures FiredDeeper(inside.history, |old(history)| + 1, depth + 1)
      ensures te.serial in inside.rows && inside.rows[te.serial].refs > 0
      ensures Snap() == AfterReturn(inside, te.serial, answer.retval)
      decreases answer, 1
    {
      hide Sane, Between, Sound, Live, Issued, FiredDeeper, Linked, FiredAt;
      ghost var s := Snap();
      ghost var k := te.serial;
      Enter(te, depth);
      RunActions(answer, depth + 1);
      inside := Snap();
      FiringKeeps(s, k, depth, inside, answer.retval);
      assert timers[k] == inside.rows[k].node == te;
      Return(te, answer.retval);
    }

    /** A pass. Finalizers leave the event loop alone. */
    method ProcessTimeEvents(pass: Pass, ghost depth: nat) returns (processed: nat, ghost fired: seq<nat>)
      requires Valid()
      modifies this, timers.Values
      ensures Valid() && NothingElse()
      ensures processed == |fired| && Walked(old(Snap()), Snap(), -1, fired, depth)
      ensures Between(old(Snap()), Snap()) && FiredDeeper(history, |old(history)|, depth)
      decreases pass, 2
    {
      hide Sane, Between, Sound, Live, Issued, FiredDeeper, Linked, FiredAt, Walked, Served, Swept, NoneBetween;
      processed, fired := 0, [];
      var te := timeEventHead;
      var maxId := timeEventNextId - 1;
      var now := clock;
      ghost var s0 := Snap();
      ghost var cursor := if te == null then -1 else te.serial;
      HeadIsFirst();
      WalkStarts(s0, cursor, depth);
      while te != null
        invariant Valid() && NothingElse()
        invariant cursor == (if te == null then -1 else te.serial)
        invariant te != null ==> On(te)
        invariant cursor <= maxId == s0.nextId - 1
        invariant now == clock
        invariant processed == |fired| && Walked(s0, Snap(), cursor, fired, depth)
        decreases cursor
      {
        ghost var s := Snap();
        ghost var k := te.serial;
        Timers();
        NextIsBelow(k);
        if te.id == DELETED_EVENT_ID {
          var next := te.next;
          if te.refcount > 0 {
            cursor := if next == null then -1 else next.serial;
            WalkPasses(s0, s, k, cursor, fired, depth);
            te := next;
            continue;
          }
          Free(te);
          cursor := if next == null then -1 else next.serial;
          WalkFrees(s0, s, k, cursor, fired, depth);
          te := next;
          continue;
        }
        if te.id > maxId {
          assert false;
        } else if te.when <= now {
          var answer := if processed < |pass.answers| then pass.answers[processed] else pass.last;
          ghost var inside := Fire(te, answer, depth);
          processed := processed + 1;
          now := clock;
          WalkFires(s0, s, k, fired, depth, inside, answer.retval);
          fired := fired + [k];
          NextIsBelow(k);
          cursor := if te.next == null then -1 else te.next.serial;
          WalkLeaps(s0, Snap(), k, cursor, fired, depth);
        } else {
          cursor := if te.next == null then -1 else te.next.serial;
          WalkPasses(s0, s, k, cursor, fired, depth);
        }
        te := te.next;
      }
      WalkedKeeps(s0, Snap(), cursor, fired, depth);
    }
  }
}
