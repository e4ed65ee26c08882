// blocked.c: serving one client that waits for a key; and which writes leave no waiting client forgotten.
module BlockedServe {
  import opened BlockedIndex
  import opened BlockedClients

  // ---------------------------------------------------------------- the clients' commands

  function Popped(items: seq<Value>, from: End): Value
    requires items != []
  {
    if from.Head? then items[0] else items[|items| - 1]
  }

  function AfterPop(items: seq<Value>, from: End): seq<Value>
    requires items != []
  {
    if from.Head? then items[1..] else items[..|items| - 1]
  }

  function Pushed(items: seq<Value>, v: Value, to: End): seq<Value> {
    if to.Head? then [v] + items else items + [v]
  }

  function ItemsAt(d: Dict, k: Key): seq<Value> {
    if k in d && d[k].ListObj? then d[k].items else []
  }

  function MembersAt(d: Dict, k: Key): seq<Value> {
    if k in d && d[k].ZsetObj? then d[k].members else []
  }

  /** An empty list or sorted set is no key. */
  function Trim(d: Dict, k: Key): Dict {
    if k in d && (d[k] == ListObj([]) || d[k] == ZsetObj([])) then d - {k} else d
  }

  predicate WrongDst(d: Dict, dst: Key) {
    dst in d && !d[dst].ListObj?
  }

  /** LPOP or RPOP, LMOVE, ZPOPMIN or ZPOPMAX, as a replica runs them. */
  function RunCommand(d: Dict, cmd: Command): Dict {
    match cmd
    case Pop(k, from) =>
      if ItemsAt(d, k) == [] then d else Trim(d[k := ListObj(AfterPop(ItemsAt(d, k), from))], k)
    case Move(k, from, dst, to) =>
      if ItemsAt(d, k) == [] || WrongDst(d, dst) then d
      else
        var d1 := d[k := ListObj(AfterPop(ItemsAt(d, k), from))];
        Trim(d1[dst := ListObj(Pushed(ItemsAt(d1, dst), Popped(ItemsAt(d, k), from), to))], k)
    case ZPop(k, from) =>
      if MembersAt(d, k) == [] then d else Trim(d[k := ZsetObj(AfterPop(MembersAt(d, k), from))], k)
  }

  function Replay(d: Dict, cmds: seq<Command>): Dict {
    if cmds == [] then d else RunCommand(Replay(d, cmds[..|cmds| - 1]), cmds[|cmds| - 1])
  }

  /** The non-blocking form of what the client waits to do on `k`. */
  function CommandOf(cl: Client, k: Key): Command {
    if cl.btype.OnZset? then ZPop(k, cl.wherefrom)
    else if cl.target.Some? then Move(k, cl.wherefrom, cl.target.value, cl.whereto)
    else Pop(k, cl.wherefrom)
  }

  predicate Fails(d: Dict, cmd: Command) {
    cmd.Move? && WrongDst(d, cmd.dst)
  }

  function AnswerOf(d: Dict, cmd: Command): Answer {
    if Fails(d, cmd) then WrongType
    else if cmd.ZPop? then Data(if MembersAt(d, cmd.key) == [] then "" else Popped(MembersAt(d, cmd.key), cmd.from))
    else Data(if ItemsAt(d, cmd.key) == [] then "" else Popped(ItemsAt(d, cmd.key), cmd.from))
  }

  // ---------------------------------------------------------------- running the commands of a queue

  /** The clients of type `t` in the queue, in order. */
  function Chosen(q: seq<Node>, cs: Clients, t: BlockType): seq<ClientId> {
    if q == [] then []
    else
      var n := q[|q| - 1];
      Chosen(q[..|q| - 1], cs, t) + if n.client in cs && cs[n.client].btype == t then [n.client] else []
  }

  /** The nodes of the other clients. */
  function Others(q: seq<Node>, cs: Clients, t: BlockType): seq<Node> {
    if q == [] then []
    else
      var n := q[|q| - 1];
      Others(q[..|q| - 1], cs, t) + if n.client in cs && cs[n.client].btype == t then [] else [n]
  }

  function CommandsOf(cs: Clients, k: Key, served: seq<ClientId>): seq<Command> {
    if served == [] then []
    else
      var c := served[|served| - 1];
      CommandsOf(cs, k, served[..|served| - 1]) + if c in cs then [CommandOf(cs[c], k)] else []
  }

  function Answers(d: Dict, cs: Clients, k: Key, served: seq<ClientId>): seq<Reply>
    decreases |served|
  {
    if served == [] then []
    else
      var c, before := served[|served| - 1], served[..|served| - 1];
      Answers(d, cs, k, before) +
      if c in cs then [Reply(c, k, AnswerOf(Replay(d, CommandsOf(cs, k, before)), CommandOf(cs[c], k)))] else []
  }

  /** The commands that did not fail. */
  function Effective(d: Dict, cmds: seq<Command>): seq<Command>
    decreases |cmds|
  {
    if cmds == [] then []
    else
      var cmd, before := cmds[|cmds| - 1], cmds[..|cmds| - 1];
      Effective(d, before) + if Fails(Replay(d, before), cmd) then [] else [cmd]
  }

  lemma FailureDoesNothing(d: Dict, cmd: Command)
    requires Fails(d, cmd)
    ensures RunCommand(d, cmd) == d
  {
  }

  lemma ReplaySnoc(d: Dict, cmds: seq<Command>, cmd: Command)
    ensures Replay(d, cmds + [cmd]) == RunCommand(Replay(d, cmds), cmd)
  {
    hide RunCommand;
    var all := cmds + [cmd];
    assert all[..|all| - 1] == cmds;
  }

  /** What is propagated leaves a replica with the same dataset. */
  lemma {:induction false} EffectiveReplays(d: Dict, cmds: seq<Command>)
    ensures Replay(d, Effective(d, cmds)) == Replay(d, cmds)
    decreases |cmds|
  {
    hide RunCommand;
    if cmds != [] {
      var cmd, before := cmds[|cmds| - 1], cmds[..|cmds| - 1];
      EffectiveReplays(d, before);
      if Fails(Replay(d, before), cmd) {
        FailureDoesNothing(Replay(d, before), cmd);
        assert Effective(d, cmds) == Effective(d, before);
      } else {
        ReplaySnoc(d, Effective(d, before), cmd);
      }
    }
  }

  lemma {:induction false} ReplayAppend(d: Dict, xs: seq<Command>, ys: seq<Command>)
    ensures Replay(d, xs + ys) == Replay(Replay(d, xs), ys)
    decreases |ys|
  {
    hide RunCommand;
    if ys == [] {
      assert xs + ys == xs;
    } else {
      var before, y := ys[..|ys| - 1], ys[|ys| - 1];
      assert xs + ys == (xs + before) + [y];
      ReplaySnoc(d, xs + before, y);
      ReplayAppend(d, xs, before);
    }
  }

  // ---------------------------------------------------------------- no client waits in vain

  /** No waiting client could take anything from `k`: lists and sorted sets only. */
  ghost predicate Idle(cs: Clients, w: Waiting, d: Dict, k: Key) {
    k in d && (d[k].ListObj? || d[k].ZsetObj?) ==>
      forall i :: 0 <= i < |ListOf(w, k)| ==>
                  ListOf(w, k)[i].client in cs ==> cs[ListOf(w, k)[i].client].btype != BlockedTypeOf(d[k])
  }

  /** Every key with something to take and a client that waits for it is queued, `except` aside. */
  ghost predicate AllPending(cs: Clients, w: Waiting, d: Dict, ready: set<Key>, except: Option<Key>) {
    forall k :: Idle(cs, w, d, k) || k in ready || except == Some(k)
  }

  /** Unblocking a client makes no key wait. */
  lemma PendingAfterRelease(cs: Clients, w: Waiting, w': Waiting, d: Dict, ready: set<Key>, except: Option<Key>,
                            c: ClientId)
    requires AllPending(cs, w, d, ready, except) && c in cs
    requires forall k :: ListOf(w', k) == Drop(ListOf(w, k), c)
    ensures AllPending(cs[c := Released(cs[c])], w', d, ready, except)
  {
    forall k ensures Idle(cs[c := Released(cs[c])], w', d, k) || k in ready || except == Some(k) {
      DropIsPart(ListOf(w, k), c);
    }
  }

  lemma {:induction false} DropIsPart(list: seq<Node>, c: ClientId)
    ensures forall n :: n in Drop(list, c) ==> n in list && n.client != c
  {
    if list != [] {
      DropIsPart(list[1..], c);
      assert forall n :: n in list[1..] ==> n in list;
    }
  }

  /** A type nobody waits for leaves every key of that type idle. */
  lemma IdleWithoutWaiters(cs: Clients, w: Waiting, next: int, d: Dict, k: Key)
    requires Indexed(cs, w, next) && AllSane(cs)
    requires k !in w || (k in d && OfType(cs, BlockedTypeOf(d[k])) == {})
    ensures Idle(cs, w, d, k)
  {
    if k in w && k in d {
      forall i | 0 <= i < |w[k]| && w[k][i].client in cs
        ensures cs[w[k][i].client].btype != BlockedTypeOf(d[k]) || BlockedTypeOf(d[k]) == NotBlocked
      {
        assert Sane(cs[w[k][i].client]);
        assert w[k][i].client !in OfType(cs, BlockedTypeOf(d[k]));
      }
    }
  }

  /** dbAdd: a new key of a type that somebody waits for is signalled. */
  method DbAdd(s: Server, k: Key, o: Object)
    requires s.Valid() && k !in s.dict
    modifies s`dict, s`readyKeys, s`readySet
    ensures s.Valid() && s.dict == old(s.dict)[k := o]
    ensures s.readyKeys == old(s.readyKeys) || s.readyKeys == old(s.readyKeys) + [k]
    ensures s.readySet == old(s.readySet) || s.readySet == old(s.readySet) + {k}
    ensures k in s.readySet <==>
            k in old(s.readySet) || (k in s.waiting && exists c :: c in s.clients && Awaits(s.clients[c], o))
    ensures forall e :: AllPending(s.clients, s.waiting, old(s.dict), old(s.readySet), e) ==>
                        AllPending(s.clients, s.waiting, s.dict, s.readySet, e)
  {
    hide Indexed, GoodList, Listed, Lists, Counted, OfType, UnblockedSet, AllSane;
    s.dict := s.dict[k := o];
    s.SignalKeyAsReady(k, o);
    forall e | AllPending(s.clients, s.waiting, old(s.dict), old(s.readySet), e)
      ensures AllPending(s.clients, s.waiting, s.dict, s.readySet, e)
    {
      forall l ensures Idle(s.clients, s.waiting, s.dict, l) || l in s.readySet || e == Some(l) {
        assert Idle(s.clients, s.waiting, old(s.dict), l) || l in old(s.readySet) || e == Some(l);
        if l == k && k !in s.readySet {
          IdleWithoutWaiters(s.clients, s.waiting, s.nextNode, s.dict, k);
        }
      }
    }
  }

  // ---------------------------------------------------------------- the writes of other commands

  /** Some client waits on `k` for a value of the type of `o`. */
  ghost predicate Wanted(cs: Clients, w: Waiting, k: Key, o: Object) {
    && (o.ListObj? || o.ZsetObj?)
    && exists i :: 0 <= i < |ListOf(w, k)| && ListOf(w, k)[i].client in cs
                   && cs[ListOf(w, k)[i].client].btype == BlockedTypeOf(o)
  }

  lemma OverwritePending(cs: Clients, w: Waiting, d: Dict, ready: set<Key>, k: Key, o: Object)
    requires AllPending(cs, w, d, ready, None)
    ensures AllPending(cs, w, d[k := o], ready, None) <==> k in ready || !Wanted(cs, w, k, o)
  {
    var after := d[k := o];
    assert Idle(cs, w, after, k) <==> !Wanted(cs, w, k, o);
    forall l | l != k ensures Idle(cs, w, after, l) || l in ready {
      assert Idle(cs, w, d, l) || l in ready || Option<Key>.None == Some(l);
    }
    if AllPending(cs, w, after, ready, None) {
      assert Idle(cs, w, after, k) || k in ready || Option<Key>.None == Some(k);
    }
  }

  /** genericSetKey. An existing key is overwritten by dbOverwrite, which signals nothing: a client is then forgotten
      exactly when the key is not queued yet and the client waits for a value of the new type. */
  method GenericSetKey(s: Server, k: Key, o: Object)
    requires s.Valid()
    modifies s`dict, s`readyKeys, s`readySet
    ensures s.Valid() && s.dict == old(s.dict)[k := o]
    ensures if k in old(s.dict) then s.readyKeys == old(s.readyKeys) && s.readySet == old(s.readySet)
            else k in s.readySet <==>
                 k in old(s.readySet) || (k in s.waiting && exists c :: c in s.clients && Awaits(s.clients[c], o))
    ensures AllPending(s.clients, s.waiting, old(s.dict), old(s.readySet), None) ==>
              (AllPending(s.clients, s.waiting, s.dict, s.readySet, None) <==>
               k !in old(s.dict) || k in old(s.readySet) || !Wanted(s.clients, s.waiting, k, o))
  {
    hide Indexed, Lists, Counted, OfType, UnblockedSet, AllSane, AllPending, Wanted;
    if k !in s.dict {
      DbAdd(s, k, o);
    } else {
      if AllPending(s.clients, s.waiting, s.dict, s.readySet, None) {
        OverwritePending(s.clients, s.waiting, s.dict, s.readySet, k, o);
      }
      s.dict := s.dict[k := o];
    }
  }

  /** A value that changes without changing its type forgets nobody. */
  lemma ChangeKeepsPending(cs: Clients, w: Waiting, d: Dict, ready: set<Key>, k: Key, o: Object)
    requires AllPending(cs, w, d, ready, None) && k in d && BlockedTypeOf(d[k]) == BlockedTypeOf(o)
    ensures AllPending(cs, w, d[k := o], ready, None)
  {
    OverwritePending(cs, w, d, ready, k, o);
    assert Idle(cs, w, d, k) || k in ready || Option<Key>.None == Some(k);
  }

  /** Neither does a deletion. */
  lemma DeleteKeepsPending(cs: Clients, w: Waiting, d: Dict, ready: set<Key>, k: Key)
    requires AllPending(cs, w, d, ready, None)
    ensures AllPending(cs, w, d - {k}, ready, None)
  {
    forall l ensures Idle(cs, w, d - {k}, l) || l in ready {
      assert Idle(cs, w, d, l) || l in ready || Option<Key>.None == Some(l);
    }
  }

  /** A client that waits on `k` for a list while a string stands there is not told of the list that overwrites it. */
  lemma OverwriteForgets(k: Key)
    ensures var cs := map[1 := Client(true, false, OnList, map[k := 0], None, Head, Head)];
            var w, d := map[k := [Node(0, 1)]], map[k := OtherObj];
            && AllPending(cs, w, d, {}, None)
            && !AllPending(cs, w, d[k := ListObj(["v"])], {}, None)
  {
    var cs := map[1 := Client(true, false, OnList, map[k := 0], None, Head, Head)];
    var w, d := map[k := [Node(0, 1)]], map[k := OtherObj];
    OverwritePending(cs, w, d, {}, k, ListObj(["v"]));
    assert ListOf(w, k)[0].client == 1;
  }

  // ---------------------------------------------------------------- serving one list key

  /** Pushing to a list, or changing the key in service, makes no other key wait. */
  lemma PendingAfterWrite(cs: Clients, w: Waiting, d: Dict, ready: set<Key>, k: Key, l: Key, o: Object)
    requires AllPending(cs, w, d, ready, Some(k))
    requires l == k || (l in d && BlockedTypeOf(d[l]) == BlockedTypeOf(o))
    ensures AllPending(cs, w, d[l := o], ready, Some(k))
  {
    forall m ensures Idle(cs, w, d[l := o], m) || m in ready || Some(k) == Some(m) {
      assert Idle(cs, w, d, m) || m in ready || Some(k) == Some(m);
    }
  }

  lemma PendingAfterChange(cs: Clients, w: Waiting, d: Dict, d': Dict, ready: set<Key>, k: Key)
    requires AllPending(cs, w, d, ready, Some(k))
    requires d' - {k} == d - {k}
    ensures AllPending(cs, w, d', ready, Some(k))
  {
    forall m ensures Idle(cs, w, d', m) || m in ready || Some(k) == Some(m) {
      assert Idle(cs, w, d, m) || m in ready || Some(k) == Some(m);
      if m != k {
        assert m in d <==> m in d - {k};
        assert m in d' <==> m in d' - {k};
        assert m in d ==> d[m] == (d - {k})[m];
        assert m in d' ==> d'[m] == (d' - {k})[m];
      }
    }
  }

  // The destination is written while the receiver is still blocked, so its key is signalled if new.
  method ServeClientBlockedOnList(s: Server, receiver: ClientId, k: Key, dst: Option<Key>, value: Value, from: End,
                                  to: End)
    returns (ok: bool)
    requires s.Valid() && k in s.dict && s.dict[k].ListObj?
    modifies s`dict, s`readyKeys, s`readySet, s`propagated, s`replies
    ensures s.Valid()
    ensures ok == !(dst.Some? && WrongDst(old(s.dict), dst.value))
    ensures s.dict == if ok && dst.Some?
                      then old(s.dict)[dst.value := ListObj(Pushed(ItemsAt(old(s.dict), dst.value), value, to))]
                      else old(s.dict)
    ensures s.replies == old(s.replies) + [Reply(receiver, k, if ok then Data(value) else WrongType)]
    ensures s.propagated == old(s.propagated) +
                            if !ok then []
                            else if dst.Some? then [Move(k, from, dst.value, to)] else [Pop(k, from)]
    ensures old(s.readyKeys) <= s.readyKeys
    ensures k in s.readySet <==> k in old(s.readySet)
    ensures AllPending(s.clients, s.waiting, old(s.dict), old(s.readySet), Some(k)) ==>
            AllPending(s.clients, s.waiting, s.dict, s.readySet, Some(k))
  {
    hide Indexed, GoodList, Listed, Lists, Counted, OfType, UnblockedSet, AllSane, AllPending;
    match dst
    case None =>
      s.propagated := s.propagated + [Pop(k, from)];
      s.replies := s.replies + [Reply(receiver, k, Data(value))];
      return true;
    case Some(d) =>
      if d in s.dict && !s.dict[d].ListObj? {
        s.replies := s.replies + [Reply(receiver, k, WrongType)];
        return false;
      }
      if d !in s.dict {
        DbAdd(s, d, ListObj([]));
      }
      if AllPending(s.clients, s.waiting, s.dict, s.readySet, Some(k)) {
        PendingAfterWrite(s.clients, s.waiting, s.dict, s.readySet, k, d, ListObj(Pushed(s.dict[d].items, value, to)));
      }
      s.dict := s.dict[d := ListObj(Pushed(s.dict[d].items, value, to))];
      s.propagated := s.propagated + [Move(k, from, d, to)];
      s.replies := s.replies + [Reply(receiver, k, Data(value))];
      return true;
  }

  /** A failed serve puts the element back where it was. */
  lemma PopThenPush(items: seq<Value>, from: End)
    requires items != []
    ensures Pushed(AfterPop(items, from), Popped(items, from), from) == items
  {
  }

  // ---------------------------------------------------------------- what a client is owed, in its own terms

  ghost predicate HoldsList(d: Dict, k: Key, items: seq<Value>) {
    if items == [] then k !in d else k in d && d[k] == ListObj(items)
  }

  ghost predicate HoldsZset(d: Dict, k: Key, members: seq<Value>) {
    if members == [] then k !in d else k in d && d[k] == ZsetObj(members)
  }

  /** A list client takes the element at the end it named. Without a target it is answered with it, and the pop at that
      end is sent; with one, the element also goes to the end of the target that the client named, and the move between
      these ends is sent. A target of another type changes nothing. */
  ghost predicate ListServed(cl: Client, k: Key, d: Dict, d': Dict, answer: Answer, sent: seq<Command>) {
    && k in d && d[k].ListObj? && d[k].items != []
    && var items := d[k].items;
       var x := if cl.wherefrom == Head then items[0] else items[|items| - 1];
       var rest := if cl.wherefrom == Head then items[1..] else items[..|items| - 1];
       if cl.target == None then
         && answer == Data(x) && sent == [Pop(k, cl.wherefrom)]
         && HoldsList(d', k, rest) && d' - {k} == d - {k}
       else
         var dst := cl.target.value;
         if dst in d && !d[dst].ListObj? then answer == WrongType && sent == [] && d' == d
         else
           var there := if dst == k then rest else if dst in d then d[dst].items else [];
           && answer == Data(x) && sent == [Move(k, cl.wherefrom, dst, cl.whereto)]
           && HoldsList(d', dst, if cl.whereto == Head then [x] + there else there + [x])
           && (dst != k ==> HoldsList(d', k, rest)) && d' - {k, dst} == d - {k, dst}
  }

  /** A sorted-set client takes the member with the lowest score (BZPOPMIN) or the highest (BZPOPMAX). */
  ghost predicate ZsetServed(cl: Client, k: Key, d: Dict, d': Dict, answer: Answer, sent: seq<Command>) {
    && k in d && d[k].ZsetObj? && d[k].members != []
    && var members := d[k].members;
       && answer == Data(if cl.wherefrom == Head then members[0] else members[|members| - 1])
       && sent == [ZPop(k, cl.wherefrom)]
       && HoldsZset(d', k, if cl.wherefrom == Head then members[1..] else members[..|members| - 1])
       && d' - {k} == d - {k}
  }

  lemma ListCommandServes(d: Dict, cl: Client, k: Key)
    requires cl.btype.OnList? && k in d && d[k].ListObj? && d[k].items != []
    ensures var cmd := CommandOf(cl, k);
            ListServed(cl, k, d, RunCommand(d, cmd), AnswerOf(d, cmd), if Fails(d, cmd) then [] else [cmd])
  {
    var items := d[k].items;
    var rest := AfterPop(items, cl.wherefrom);
    var d1 := d[k := ListObj(rest)];
    TrimIs(d1, k);
    assert d1 - {k} == d - {k};
    if cl.target.Some? && !WrongDst(d, cl.target.value) {
      var dst, x := cl.target.value, Popped(items, cl.wherefrom);
      var there := if dst == k then rest else if dst in d then d[dst].items else [];
      var d2 := d1[dst := ListObj(Pushed(there, x, cl.whereto))];
      TrimIs(d2, k);
      assert RunCommand(d, CommandOf(cl, k)) == Trim(d2, k);
      assert d2 - {k, dst} == d - {k, dst} == (d2 - {k}) - {k, dst};
    }
  }

  lemma TrimIs(d: Dict, k: Key)
    requires k in d
    ensures Trim(d, k) == if d[k] == ListObj([]) || d[k] == ZsetObj([]) then d - {k} else d
    ensures (d - {k}) - {k} == d - {k}
  {
  }

  lemma ZsetCommandServes(d: Dict, cl: Client, k: Key)
    requires cl.btype.OnZset? && k in d && d[k].ZsetObj? && d[k].members != []
    ensures ZsetServed(cl, k, d, RunCommand(d, CommandOf(cl, k)), AnswerOf(d, CommandOf(cl, k)), [CommandOf(cl, k)])
  {
    var d1 := d[k := ZsetObj(AfterPop(d[k].members, cl.wherefrom))];
    TrimIs(d1, k);
    assert d1 - {k} == d - {k};
  }

  /** The pop for one waiter, and the delivery of the element; a failed delivery puts it back. */
  method PopAndServe(s: Server, k: Key, r: ClientId, cl: Client)
    returns (ghost answer: Answer, ghost sent: seq<Command>)
    requires s.Valid() && k in s.dict && s.dict[k].ListObj? && s.dict[k].items != [] && cl.btype.OnList?
    modifies s`dict, s`readyKeys, s`readySet, s`propagated, s`replies
    ensures s.Valid()
    ensures k in s.dict && s.dict[k].ListObj?
    ensures s.replies == old(s.replies) + [Reply(r, k, answer)] && s.propagated == old(s.propagated) + sent
    ensures ListServed(cl, k, old(s.dict), Trim(s.dict, k), answer, sent)
    // As a command that a replica runs.
    ensures Trim(s.dict, k) == RunCommand(old(s.dict), CommandOf(cl, k))
    ensures answer == AnswerOf(old(s.dict), CommandOf(cl, k))
    ensures sent == if Fails(old(s.dict), CommandOf(cl, k)) then [] else [CommandOf(cl, k)]
    ensures old(s.readyKeys) <= s.readyKeys
    ensures k in s.readySet <==> k in old(s.readySet)
    ensures AllPending(s.clients, s.waiting, old(s.dict), old(s.readySet), Some(k)) ==>
            AllPending(s.clients, s.waiting, s.dict, s.readySet, Some(k))
  {
    hide Indexed, GoodList, Listed, Lists, Counted, OfType, UnblockedSet, AllSane, AllPending, ListServed;
    ListCommandServes(s.dict, cl, k);
    answer := AnswerOf(s.dict, CommandOf(cl, k));
    sent := if Fails(s.dict, CommandOf(cl, k)) then [] else [CommandOf(cl, k)];
    var items := s.dict[k].items;
    ghost var pending := AllPending(s.clients, s.waiting, s.dict, s.readySet, Some(k));
    if pending {
      PendingAfterWrite(s.clients, s.waiting, s.dict, s.readySet, k, k, ListObj(AfterPop(items, cl.wherefrom)));
    }
    var value := Popped(items, cl.wherefrom);
    s.dict := s.dict[k := ListObj(AfterPop(items, cl.wherefrom))];
    var ok := ServeClientBlockedOnList(s, r, k, cl.target, value, cl.wherefrom, cl.whereto);
    if !ok {
      if pending {
        PendingAfterWrite(s.clients, s.waiting, s.dict, s.readySet, k, k,
                          ListObj(Pushed(s.dict[k].items, value, cl.wherefrom)));
      }
      s.dict := s.dict[k := ListObj(Pushed(s.dict[k].items, value, cl.wherefrom))];
      PopThenPush(items, cl.wherefrom);
      assert s.dict == old(s.dict);
    }
  }

  /** One waiter is served: its command takes effect, once, and it is no longer blocked. */
  method ServeListWaiter(s: Server, k: Key, r: ClientId) returns (ghost answer: Answer, ghost sent: seq<Command>)
    requires s.Valid() && k in s.dict && s.dict[k].ListObj? && s.dict[k].items != []
    requires r in s.clients && s.clients[r].btype.OnList?
    modifies s
    ensures s.Valid()
    ensures k in s.dict && s.dict[k].ListObj?
    ensures s.replies == old(s.replies) + [Reply(r, k, answer)] && s.propagated == old(s.propagated) + sent
    ensures ListServed(old(s.clients)[r], k, old(s.dict), Trim(s.dict, k), answer, sent)
    // As a command that a replica runs.
    ensures Trim(s.dict, k) == RunCommand(old(s.dict), CommandOf(old(s.clients)[r], k))
    ensures answer == AnswerOf(old(s.dict), CommandOf(old(s.clients)[r], k))
    ensures sent ==
            if Fails(old(s.dict), CommandOf(old(s.clients)[r], k)) then [] else [CommandOf(old(s.clients)[r], k)]
    ensures s.clients == old(s.clients)[r := Released(old(s.clients)[r])]
    ensures forall l :: ListOf(s.waiting, l) == Drop(ListOf(old(s.waiting), l), r)
    ensures s.blockedClients == old(s.blockedClients) - 1
    ensures s.unblocked == old(s.unblocked) + if r in old(s.unblocked) then [] else [r]
    ensures old(s.readyKeys) <= s.readyKeys && s.draining == old(s.draining)
    ensures k in s.readySet <==> k in old(s.readySet)
    ensures AllPending(old(s.clients), old(s.waiting), old(s.dict), old(s.readySet), Some(k)) ==>
            AllPending(s.clients, s.waiting, s.dict, s.readySet, Some(k))
  {
    hide Indexed, GoodList, Listed, Lists, Counted, OfType, BlockedSet, UnblockedSet, AllPending, Drop,
         Trim, RunCommand, CommandOf, AnswerOf, Fails, Released, ListOf, ListServed;
    ghost var cs, w := s.clients, s.waiting;
    assert s.clients[r].blocked by { assert Sane(s.clients[r]); }
    answer, sent := PopAndServe(s, k, r, s.clients[r]);
    s.UnblockClient(r);
    if AllPending(cs, w, s.dict, s.readySet, Some(k)) {
      PendingAfterRelease(cs, w, s.waiting, s.dict, s.readySet, Some(k), r);
    }
  }

  /** genericZpopCommand for one waiter: one member goes, and an empty sorted set goes too. */
  method ServeZsetWaiter(s: Server, k: Key, r: ClientId) returns (ghost answer: Answer, ghost sent: seq<Command>)
    requires s.Valid() && k in s.dict && s.dict[k].ZsetObj? && s.dict[k].members != []
    requires r in s.clients && s.clients[r].btype.OnZset?
    modifies s
    ensures s.Valid()
    ensures s.replies == old(s.replies) + [Reply(r, k, answer)] && s.propagated == old(s.propagated) + sent
    ensures ZsetServed(old(s.clients)[r], k, old(s.dict), s.dict, answer, sent)
    // As a command that a replica runs.
    ensures s.dict == RunCommand(old(s.dict), CommandOf(old(s.clients)[r], k))
    ensures answer == AnswerOf(old(s.dict), CommandOf(old(s.clients)[r], k))
    ensures sent == [CommandOf(old(s.clients)[r], k)]
    ensures s.clients == old(s.clients)[r := Released(old(s.clients)[r])]
    ensures forall l :: ListOf(s.waiting, l) == Drop(ListOf(old(s.waiting), l), r)
    ensures s.blockedClients == old(s.blockedClients) - 1
    ensures s.unblocked == old(s.unblocked) + if r in old(s.unblocked) then [] else [r]
    ensures s.readyKeys == old(s.readyKeys) && s.readySet == old(s.readySet) && s.draining == old(s.draining)
    ensures |MembersAt(s.dict, k)| == |old(s.dict[k].members)| - 1 && s.dict == Trim(s.dict, k)
    ensures if |old(s.dict[k].members)| > 1 then k in s.dict && s.dict[k].ZsetObj? else k !in s.dict
    ensures AllPending(old(s.clients), old(s.waiting), old(s.dict), old(s.readySet), Some(k)) ==>
            AllPending(s.clients, s.waiting, s.dict, s.readySet, Some(k))
  {
    hide Indexed, GoodList, Listed, Lists, Counted, OfType, BlockedSet, UnblockedSet, AllPending, Drop, RunCommand,
         ListOf, ZsetServed;
    ZsetCommandServes(s.dict, s.clients[r], k);
    answer := AnswerOf(s.dict, CommandOf(s.clients[r], k));
    sent := [CommandOf(s.clients[r], k)];
    var cl, members := s.clients[r], s.dict[k].members;
    ghost var cs, w, d := s.clients, s.waiting, s.dict;
    assert cl.blocked by { assert Sane(s.clients[r]); }
    s.replies := s.replies + [Reply(r, k, Data(Popped(members, cl.wherefrom)))];
    var rest := AfterPop(members, cl.wherefrom);
    s.dict := if rest == [] then s.dict - {k} else s.dict[k := ZsetObj(rest)];
    s.UnblockClient(r);
    s.propagated := s.propagated + [ZPop(k, cl.wherefrom)];
    if AllPending(cs, w, d, s.readySet, Some(k)) {
      PendingAfterChange(cs, w, d, s.dict, s.readySet, k);
      PendingAfterRelease(cs, w, s.waiting, s.dict, s.readySet, Some(k), r);
    }
    ZPopIs(d, k, cl.wherefrom);
  }

  lemma ZPopIs(d: Dict, k: Key, from: End)
    requires k in d && d[k].ZsetObj? && d[k].members != []
    ensures var rest := AfterPop(d[k].members, from);
            RunCommand(d, ZPop(k, from)) == if rest == [] then d - {k} else d[k := ZsetObj(rest)]
  {
    assert d[k := ZsetObj([])] - {k} == d - {k};
  }
}
