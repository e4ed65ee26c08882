// blocked.c: the loops that serve a key's waiting clients in order, and the loop over the ready keys.
module BlockedLoop {
  import opened BlockedIndex
  import opened BlockedClients
  import opened BlockedServe

  // ---------------------------------------------------------------- how far a queue was served

  function ReleaseAll(cs: Clients, served: seq<ClientId>): Clients {
    if served == [] then cs
    else
      var c, before := served[|served| - 1], ReleaseAll(cs, served[..|served| - 1]);
      if c in before then before[c := Released(before[c])] else before
  }

  function DropAll(list: seq<Node>, served: seq<ClientId>): seq<Node>
    decreases |served|
  {
    if served == [] then list else Drop(DropAll(list, served[..|served| - 1]), served[|served| - 1])
  }

  function Requeued(q: seq<ClientId>, served: seq<ClientId>): seq<ClientId>
    decreases |served|
  {
    if served == [] then q
    else
      var c, before := served[|served| - 1], Requeued(q, served[..|served| - 1]);
      before + if c in before then [] else [c]
  }

  /** The first `v` nodes of the queue were visited: those of type `t` are gone, the others went to the back. */
  ghost predicate QueueAt(queue: seq<Node>, v: int, cs0: Clients, w0: Waiting, cs: Clients, w: Waiting, k: Key,
                          t: BlockType) {
    && 0 <= v <= |queue|
    && ListOf(w, k) == queue[v..] + Others(queue[..v], cs0, t)
    && cs == ReleaseAll(cs0, Chosen(queue[..v], cs0, t))
    && forall l :: l != k ==> ListOf(w, l) == DropAll(ListOf(w0, l), Chosen(queue[..v], cs0, t))
  }

  lemma {:induction false} ReleaseAllAt(cs: Clients, served: seq<ClientId>)
    ensures ReleaseAll(cs, served).Keys == cs.Keys
    ensures forall c :: c in cs ==> ReleaseAll(cs, served)[c] == if c in served then Released(cs[c]) else cs[c]
  {
    if served != [] {
      var c, before := served[|served| - 1], served[..|served| - 1];
      assert served == before + [c];
      ReleaseAllAt(cs, before);
    }
  }

  /** The head of the live list is the next node of the queue, and its client is as it was. */
  lemma HeadIsNext(queue: seq<Node>, v: int, cs0: Clients, w0: Waiting, cs: Clients, w: Waiting, next: int, k: Key,
                   t: BlockType)
    requires QueueAt(queue, v, cs0, w0, cs, w, k, t) && v < |queue| && Indexed(cs, w, next)
    ensures k in w && w[k] != [] && w[k][0] == queue[v]
    ensures queue[v].client in cs && queue[v].client in cs0 && cs[queue[v].client] == cs0[queue[v].client]
    ensures k in cs[queue[v].client].keys
  {
    hide Others, Chosen, ReleaseAll, DropAll, Listed;
    assert ListOf(w, k)[0] == queue[v];
    assert GoodList(cs, k, w[k], next);
    assert Stored(cs, k, w[k][0]);
    ReleaseAllAt(cs0, Chosen(queue[..v], cs0, t));
  }

  lemma OneMore(queue: seq<Node>, v: int, cs: Clients, t: BlockType)
    requires 0 <= v < |queue| && queue[v].client in cs
    ensures Chosen(queue[..v + 1], cs, t) ==
            Chosen(queue[..v], cs, t) + if cs[queue[v].client].btype == t then [queue[v].client] else []
    ensures Others(queue[..v + 1], cs, t) ==
            Others(queue[..v], cs, t) + if cs[queue[v].client].btype == t then [] else [queue[v]]
    ensures queue[v..] == [queue[v]] + queue[v + 1..]
  {
    assert queue[..v + 1][..v] == queue[..v];
  }

  lemma Skipped(queue: seq<Node>, v: int, cs0: Clients, w0: Waiting, cs: Clients, w: Waiting, k: Key, t: BlockType)
    requires QueueAt(queue, v, cs0, w0, cs, w, k, t) && v < |queue| && k in w
    requires queue[v].client in cs0 && cs0[queue[v].client].btype != t
    ensures w[k] != [] && QueueAt(queue, v + 1, cs0, w0, cs, w[k := w[k][1..] + [w[k][0]]], k, t)
    ensures Chosen(queue[..v + 1], cs0, t) == Chosen(queue[..v], cs0, t)
  {
    hide DropAll, ReleaseAll, Chosen, Others;
    OneMore(queue, v, cs0, t);
    var list, w' := w[k], w[k := w[k][1..] + [w[k][0]]];
    assert list == ListOf(w, k);
    assert list[0] == queue[v] && list[1..] == queue[v + 1..] + Others(queue[..v], cs0, t);
    assert w'[k] == queue[v + 1..] + (Others(queue[..v], cs0, t) + [queue[v]]);
    assert Chosen(queue[..v + 1], cs0, t) == Chosen(queue[..v], cs0, t);
    assert forall l :: l != k ==> ListOf(w', l) == ListOf(w, l);
  }

  lemma ReleaseOneMore(cs: Clients, served: seq<ClientId>, c: ClientId)
    requires c in ReleaseAll(cs, served)
    ensures ReleaseAll(cs, served + [c]) == ReleaseAll(cs, served)[c := Released(ReleaseAll(cs, served)[c])]
  {
    assert (served + [c])[..|served|] == served;
  }

  lemma DropOneMore(list: seq<Node>, served: seq<ClientId>, c: ClientId)
    ensures DropAll(list, served + [c]) == Drop(DropAll(list, served), c)
  {
    assert (served + [c])[..|served|] == served;
  }

  /** The head's client is dropped: it is nowhere else in the list. */
  lemma DropsHead(cs: Clients, k: Key, list: seq<Node>, next: int)
    requires GoodList(cs, k, list, next)
    ensures Drop(list, list[0].client) == list[1..]
  {
    var rest := list[1..];
    forall i | 0 <= i < |rest| ensures rest[i].client != list[0].client {
      assert rest[i] == list[i + 1];
    }
    DropNothing(rest, list[0].client);
  }

  lemma Taken(queue: seq<Node>, v: int, cs0: Clients, w0: Waiting, cs: Clients, w: Waiting, w': Waiting, next: int,
              k: Key, t: BlockType)
    requires QueueAt(queue, v, cs0, w0, cs, w, k, t) && v < |queue| && Indexed(cs, w, next)
    requires queue[v].client in cs && queue[v].client in cs0 && cs0[queue[v].client].btype == t
    requires forall l :: ListOf(w', l) == Drop(ListOf(w, l), queue[v].client)
    ensures QueueAt(queue, v + 1, cs0, w0, cs[queue[v].client := Released(cs[queue[v].client])], w', k, t)
    ensures Chosen(queue[..v + 1], cs0, t) == Chosen(queue[..v], cs0, t) + [queue[v].client]
  {
    hide DropAll, ReleaseAll, Chosen, Others, Drop, Listed, GoodList, Without;
    OneMore(queue, v, cs0, t);
    var c, served, list := queue[v].client, Chosen(queue[..v], cs0, t), ListOf(w, k);
    ReleaseOneMore(cs0, served, c);
    assert list[0] == queue[v] && list[1..] == queue[v + 1..] + Others(queue[..v], cs0, t);
    assert GoodList(cs, k, list, next);
    DropsHead(cs, k, list, next);
    assert ListOf(w', k) == queue[v + 1..] + Others(queue[..v + 1], cs0, t);
    forall l | l != k ensures ListOf(w', l) == DropAll(ListOf(w0, l), Chosen(queue[..v + 1], cs0, t)) {
      DropOneMore(ListOf(w0, l), served, c);
    }
  }

  /** Rotating a list leaves the index as it is. */
  lemma RotationKeepsIndex(cs: Clients, w: Waiting, next: int, k: Key)
    requires Indexed(cs, w, next) && k in w
    ensures w[k] != [] && Indexed(cs, w[k := w[k][1..] + [w[k][0]]], next)
  {
    assert GoodList(cs, k, w[k], next);
    var w' := w[k := w[k][1..] + [w[k][0]]];
    forall l | l in w' ensures GoodList(cs, l, w'[l], next) {
      assert GoodList(cs, l, w[l], next);
      if l == k { RotatedGoodList(cs, k, w[k], next); }
    }
    assert forall n :: n in w[k] ==> n in w'[k] by {
      assert w[k] == [w[k][0]] + w[k][1..];
    }
    forall c | c in cs ensures Listed(cs, w', c) {
      assert Listed(cs, w, c);
    }
  }

  lemma RotatedGoodList(cs: Clients, k: Key, list: seq<Node>, next: int)
    requires GoodList(cs, k, list, next)
    ensures GoodList(cs, k, list[1..] + [list[0]], next)
  {
    var r := list[1..] + [list[0]];
    forall i | 0 <= i < |r| ensures Stored(cs, k, r[i]) && r[i].id < next {
      assert r[i] == list[if i < |list| - 1 then i + 1 else 0];
    }
    forall i, j | 0 <= i < j < |r| ensures r[i].client != r[j].client && r[i].id != r[j].id {
      assert r[i] == list[i + 1];
      assert r[j] == list[if j < |list| - 1 then j + 1 else 0];
    }
  }

  lemma PendingAfterRotation(cs: Clients, w: Waiting, d: Dict, ready: set<Key>, k: Key, list: seq<Node>)
    requires AllPending(cs, w, d, ready, Some(k))
    ensures AllPending(cs, w[k := list], d, ready, Some(k))
  {
    forall m ensures Idle(cs, w[k := list], d, m) || m in ready || m == k {
      assert Idle(cs, w, d, m) || m in ready || Some(k) == Some(m);
      if m != k { assert ListOf(w[k := list], m) == ListOf(w, m); }
    }
  }

  // What serving does outside the index: the parts of the server's state that it changes.
  datatype Books = Books(dict: Dict, replies: seq<Reply>, propagated: seq<Command>, unblocked: seq<ClientId>,
                         blocked: int)

  /** The clients `served`, in this order, each ran its command on `k` and was released. */
  ghost predicate Effect(b0: Books, b: Books, cs0: Clients, k: Key, served: seq<ClientId>) {
    && b.dict == Replay(b0.dict, CommandsOf(cs0, k, served))
    && b.replies == b0.replies + Answers(b0.dict, cs0, k, served)
    && b.propagated == b0.propagated + Effective(b0.dict, CommandsOf(cs0, k, served))
    && b.unblocked == Requeued(b0.unblocked, served)
    && b.blocked == b0.blocked - |served|
  }

  lemma EffectOneMore(b0: Books, b: Books, b': Books, cs0: Clients, k: Key, served: seq<ClientId>, c: ClientId)
    requires Effect(b0, b, cs0, k, served) && c in cs0
    requires b'.dict == RunCommand(b.dict, CommandOf(cs0[c], k))
    requires b'.replies == b.replies + [Reply(c, k, AnswerOf(b.dict, CommandOf(cs0[c], k)))]
    requires b'.propagated == b.propagated + if Fails(b.dict, CommandOf(cs0[c], k)) then [] else [CommandOf(cs0[c], k)]
    requires b'.unblocked == b.unblocked + if c in b.unblocked then [] else [c]
    requires b'.blocked == b.blocked - 1
    ensures Effect(b0, b', cs0, k, served + [c])
  {
    hide RunCommand, AnswerOf, CommandOf, Fails;
    var served', cmd := served + [c], CommandOf(cs0[c], k);
    assert served'[..|served|] == served;
    var cmds, cmds' := CommandsOf(cs0, k, served), CommandsOf(cs0, k, served');
    assert cmds' == cmds + [cmd];
    assert cmds'[..|cmds|] == cmds;
    ReplaySnoc(b0.dict, cmds, cmd);
    assert Answers(b0.dict, cs0, k, served') == Answers(b0.dict, cs0, k, served) + [Reply(c, k, AnswerOf(b.dict, cmd))];
    assert Effective(b0.dict, cmds') == Effective(b0.dict, cmds) + if Fails(b.dict, cmd) then [] else [cmd];
  }

  lemma NothingServed(b0: Books, cs0: Clients, k: Key)
    ensures Effect(b0, b0, cs0, k, [])
  {
  }

  // One client served: its record as it waited, and the books before and after.
  datatype Service = Service(id: ClientId, client: Client, key: Key, before: Books, after: Books)

  /** The client got one answer and was released, and dataset, answer and propagation are what its record asks for. */
  ghost predicate Correct(x: Service) {
    var b, b' := x.before, x.after;
    && b'.unblocked == b.unblocked + (if x.id in b.unblocked then [] else [x.id]) && b'.blocked == b.blocked - 1
    && b.replies <= b'.replies && |b'.replies| == |b.replies| + 1 && b.propagated <= b'.propagated
    && var reply, sent := b'.replies[|b.replies|], b'.propagated[|b.propagated|..];
       && reply.client == x.id && reply.key == x.key
       && if x.client.btype.OnList? then ListServed(x.client, x.key, b.dict, b'.dict, reply.answer, sent)
          else if x.client.btype.OnZset? then ZsetServed(x.client, x.key, b.dict, b'.dict, reply.answer, sent)
          else x.client.btype.OnStream? && reply.answer == StreamData && sent == [] && b'.dict == b.dict
  }

  /** From `b0` to `b` by these services, one after the other. */
  ghost predicate Ran(b0: Books, run: seq<Service>, b: Books) {
    && (run == [] ==> b == b0)
    && (run != [] ==> run[0].before == b0 && run[|run| - 1].after == b)
    && (forall i :: 0 <= i < |run| ==> Correct(run[i]))
    && (forall i :: 0 < i < |run| ==> run[i].before == run[i - 1].after)
  }

  /** The services of `run` are those of the clients `served`, who waited on `k` as `cs` says. */
  ghost predicate Serves(run: seq<Service>, cs: Clients, k: Key, served: seq<ClientId>) {
    && |run| == |served|
    && forall i :: 0 <= i < |run| ==>
         run[i].id == served[i] && served[i] in cs && run[i].client == cs[served[i]] && run[i].key == k
  }

  function Ids(run: seq<Service>): set<ClientId> {
    set i | 0 <= i < |run| :: run[i].id
  }

  /** Each client was served at most once, as it waited, and exactly the clients served were released. */
  ghost predicate Once(cs0: Clients, run: seq<Service>, cs: Clients) {
    && cs.Keys == cs0.Keys
    && (forall i :: 0 <= i < |run| ==> run[i].id in cs0 && run[i].client == cs0[run[i].id])
    && (forall i, j :: 0 <= i < j < |run| ==> run[i].id != run[j].id)
    && (forall c :: c in cs0 ==> cs[c] == if c in Ids(run) then Released(cs0[c]) else cs0[c])
  }

  lemma IdsGrow(run: seq<Service>, x: Service)
    ensures Ids(run + [x]) == Ids(run) + {x.id}
  {
    var more := run + [x];
    assert forall i :: 0 <= i < |run| ==> more[i].id == run[i].id;
    assert more[|run|].id == x.id;
  }

  lemma OnceMore(cs0: Clients, run: seq<Service>, cs: Clients, x: Service)
    requires Once(cs0, run, cs) && x.id in cs && x.client == cs[x.id] && x.client.btype != NotBlocked
    ensures Once(cs0, run + [x], cs[x.id := Released(cs[x.id])])
  {
    hide Ids;
    IdsGrow(run, x);
    assert x.id !in Ids(run);
    forall i | 0 <= i < |run| ensures run[i].id != x.id {
      IdOf(run, i);
    }
  }

  lemma IdOf(run: seq<Service>, i: int)
    requires 0 <= i < |run|
    ensures run[i].id in Ids(run)
  {
  }

  lemma {:induction false} OnceTrans(cs0: Clients, run: seq<Service>, cs1: Clients, more: seq<Service>, cs2: Clients)
    requires Once(cs0, run, cs1) && Once(cs1, more, cs2)
    requires forall i :: 0 <= i < |more| ==> Correct(more[i])
    ensures Once(cs0, run + more, cs2)
  {
    hide Correct, Ids;
    BothIds(run, more);
    forall i | 0 <= i < |more| ensures more[i].id !in Ids(run) {
      WaitedForSomething(more[i]);
    }
    forall i, j | 0 <= i < j < |run + more| ensures (run + more)[i].id != (run + more)[j].id {
      if i < |run| { IdOf(run, i); }
    }
    forall c | c in cs0 && c in Ids(more) ensures c !in Ids(run) {
      var i := IndexOfId(more, c);
    }
  }

  lemma IndexOfId(run: seq<Service>, c: ClientId) returns (i: int)
    requires c in Ids(run)
    ensures 0 <= i < |run| && run[i].id == c
  {
    i :| 0 <= i < |run| && run[i].id == c;
  }

  lemma BothIds(run: seq<Service>, more: seq<Service>)
    ensures Ids(run + more) == Ids(run) + Ids(more)
  {
    var all := run + more;
    forall c | c in Ids(run) + Ids(more) ensures c in Ids(all) {
      if c in Ids(run) {
        var i := IndexOfId(run, c);
        IdOf(all, i);
      } else {
        var i := IndexOfId(more, c);
        assert all[|run| + i].id == c;
        IdOf(all, |run| + i);
      }
    }
  }

  lemma WaitedForSomething(x: Service)
    requires Correct(x)
    ensures x.client.btype != NotBlocked
  {
  }

  lemma RanOn(b0: Books, run: seq<Service>, b1: Books, more: seq<Service>, b2: Books)
    requires Ran(b0, run, b1) && Ran(b1, more, b2)
    ensures Ran(b0, run + more, b2)
  {
    hide Correct;
  }

  lemma Answered(x: Service, answer: Answer, sent: seq<Command>)
    requires x.after.unblocked == x.before.unblocked + if x.id in x.before.unblocked then [] else [x.id]
    requires x.after.blocked == x.before.blocked - 1
    requires x.after.replies == x.before.replies + [Reply(x.id, x.key, answer)]
    requires x.after.propagated == x.before.propagated + sent
    requires if x.client.btype.OnList? then ListServed(x.client, x.key, x.before.dict, x.after.dict, answer, sent)
             else if x.client.btype.OnZset? then ZsetServed(x.client, x.key, x.before.dict, x.after.dict, answer, sent)
             else x.client.btype.OnStream? && answer == StreamData && sent == [] && x.after.dict == x.before.dict
    ensures Correct(x)
  {
    hide ListServed, ZsetServed;
    assert x.after.propagated[|x.before.propagated|..] == sent;
  }

  /** What a list or a sorted set holds. */
  function Held(o: Object): seq<Value> {
    if o.ListObj? then o.items else if o.ZsetObj? then o.members else []
  }

  function HeldAt(d: Dict, k: Key): seq<Value> {
    if k in d then Held(d[k]) else []
  }

  /** A client that only takes: BLPOP, BRPOP, BZPOPMIN, BZPOPMAX. */
  predicate Takes(x: Service, k: Key, t: BlockType) {
    x.key == k && x.client.btype == t && (t.OnZset? || (t.OnList? && x.client.target == None))
  }

  function CommandAt(t: BlockType, k: Key, from: End): Command {
    if t.OnZset? then ZPop(k, from) else Pop(k, from)
  }

  lemma TakesOne(x: Service, k: Key, t: BlockType)
    requires Correct(x) && Takes(x, k, t)
    ensures var held, front := HeldAt(x.before.dict, k), x.client.wherefrom == Head;
            && held != []
            && HeldAt(x.after.dict, k) == (if front then held[1..] else held[..|held| - 1])
            && x.after.replies == x.before.replies +
                                  [Reply(x.id, k, Data(if front then held[0] else held[|held| - 1]))]
            && x.after.propagated == x.before.propagated + [CommandAt(t, k, x.client.wherefrom)]
  {
    var b, b' := x.before, x.after;
    assert b'.replies == b.replies + [b'.replies[|b.replies|]];
    assert b'.propagated == b.propagated + b'.propagated[|b.propagated|..];
  }

  /** How many of them took from the front. */
  function Fronts(run: seq<Service>): (n: nat)
    ensures n <= |run|
  {
    if run == [] then 0
    else Fronts(run[..|run| - 1]) + if run[|run| - 1].client.wherefrom == Head then 1 else 0
  }

  /** The n-th element from the front, or from the back. */
  function NthFrom(held: seq<Value>, from: End, n: nat): Value
    requires n < |held|
  {
    if from == Head then held[n] else held[|held| - 1 - n]
  }

  /** The j-th client served was answered with the next element from its own end, and its own command was propagated. */
  ghost predicate InTurn(b0: Books, run: seq<Service>, b: Books, k: Key, t: BlockType, j: nat) {
    && j < |run| && |b0.replies| + j < |b.replies| && |b0.propagated| + j < |b.propagated|
    && var from, fronts := run[j].client.wherefrom, Fronts(run[..j]);
       var n := if from == Head then fronts else j - fronts;
       && n < |HeldAt(b0.dict, k)|
       && b.replies[|b0.replies| + j] == Reply(run[j].id, k, Data(NthFrom(HeldAt(b0.dict, k), from, n)))
       && b.propagated[|b0.propagated| + j] == CommandAt(t, k, from)
  }

  /** What is left when `fronts` of `n` elements were taken from the front and the others from the back. */
  function Middle(held: seq<Value>, fronts: nat, n: nat): seq<Value>
    requires fronts <= n <= |held|
  {
    held[fronts..|held| - (n - fronts)]
  }

  lemma MiddleNext(held: seq<Value>, fronts: nat, n: nat)
    requires fronts <= n < |held|
    ensures var m := Middle(held, fronts, n);
            && m != [] && m[0] == NthFrom(held, Head, fronts) && m[|m| - 1] == NthFrom(held, Tail, n - fronts)
            && m[1..] == Middle(held, fronts + 1, n + 1) && m[..|m| - 1] == Middle(held, fronts, n + 1)
  {
  }

  lemma StillInTurn(b0: Books, init: seq<Service>, b1: Books, x: Service, b: Books, k: Key, t: BlockType, j: nat)
    requires InTurn(b0, init, b1, k, t, j) && b1.replies <= b.replies && b1.propagated <= b.propagated
    ensures InTurn(b0, init + [x], b, k, t, j)
  {
    assert (init + [x])[..j] == init[..j];
  }

  lemma RanInit(b0: Books, run: seq<Service>, b: Books)
    requires Ran(b0, run, b) && run != []
    ensures var last := run[|run| - 1];
            Ran(b0, run[..|run| - 1], last.before) && Correct(last) && last.after == b
  {
    hide Correct;
    assert |run| > 1 ==> run[|run| - 1].before == run[|run| - 2].after;
  }

  /** Of clients that only take, each gets the next element from its own end, in the order they are served, and what is
      left are the elements in the middle. */
  lemma {:induction false} TakenInOrder(b0: Books, run: seq<Service>, b: Books, k: Key, t: BlockType)
    requires Ran(b0, run, b) && forall i :: 0 <= i < |run| ==> Takes(run[i], k, t)
    ensures |run| <= |HeldAt(b0.dict, k)| && HeldAt(b.dict, k) == Middle(HeldAt(b0.dict, k), Fronts(run), |run|)
    ensures |b.replies| == |b0.replies| + |run| && |b.propagated| == |b0.propagated| + |run|
    ensures forall j :: 0 <= j < |run| ==> InTurn(b0, run, b, k, t, j)
    decreases |run|
  {
    hide Correct, Ran, HeldAt, InTurn, Middle;
    if run == [] {
      NoneTaken(b0, run, b, k);
    } else {
      var init, last := run[..|run| - 1], run[|run| - 1];
      RanInit(b0, run, b);
      TakenInOrder(b0, init, last.before, k, t);
      TakesOne(last, k, t);
      LastInTurn(b0, init, last, k, t);
      assert init + [last] == run;
      forall j | 0 <= j < |init| ensures InTurn(b0, run, b, k, t, j) {
        StillInTurn(b0, init, last.before, last, b, k, t, j);
      }
    }
  }

  lemma NoneTaken(b0: Books, run: seq<Service>, b: Books, k: Key)
    requires Ran(b0, run, b) && run == []
    ensures b == b0 && HeldAt(b.dict, k) == Middle(HeldAt(b0.dict, k), 0, 0)
  {
  }

  lemma {:induction false} LastInTurn(b0: Books, init: seq<Service>, x: Service, k: Key, t: BlockType)
    requires Correct(x) && Takes(x, k, t) && |init| <= |HeldAt(b0.dict, k)|
    requires HeldAt(x.before.dict, k) == Middle(HeldAt(b0.dict, k), Fronts(init), |init|)
    requires |x.before.replies| == |b0.replies| + |init| && |x.before.propagated| == |b0.propagated| + |init|
    ensures |init| < |HeldAt(b0.dict, k)|
    ensures HeldAt(x.after.dict, k) == Middle(HeldAt(b0.dict, k), Fronts(init + [x]), |init| + 1)
    ensures InTurn(b0, init + [x], x.after, k, t, |init|)
  {
    hide Correct, HeldAt, Middle;
    TakesOne(x, k, t);
    MoreLeft(HeldAt(b0.dict, k), Fronts(init), |init|);
    MiddleNext(HeldAt(b0.dict, k), Fronts(init), |init|);
    assert (init + [x])[..|init|] == init;
  }

  lemma MoreLeft(held: seq<Value>, fronts: nat, n: nat)
    requires fronts <= n <= |held| && Middle(held, fronts, n) != []
    ensures n < |held|
  {
  }

  /** All that is kept of the services on one key, while the clients went from `cs0` to `cs`. */
  ghost predicate Recorded(b0: Books, run: seq<Service>, b: Books, k: Key, served: seq<ClientId>, cs0: Clients,
                           cs: Clients)
  {
    Ran(b0, run, b) && Serves(run, cs0, k, served) && Once(cs0, run, cs)
  }

  lemma RecordedMore(b0: Books, run: seq<Service>, x: Service, k: Key, served: seq<ClientId>, cs0: Clients, cs: Clients,
                     answer: Answer, sent: seq<Command>)
    requires Recorded(b0, run, x.before, k, served, cs0, cs)
    requires x.id in cs && x.id in cs0 && x.client == cs[x.id] == cs0[x.id] && x.key == k
    requires x.after.unblocked == x.before.unblocked + if x.id in x.before.unblocked then [] else [x.id]
    requires x.after.blocked == x.before.blocked - 1
    requires x.after.replies == x.before.replies + [Reply(x.id, k, answer)]
    requires x.after.propagated == x.before.propagated + sent
    requires if x.client.btype.OnList? then ListServed(x.client, k, x.before.dict, x.after.dict, answer, sent)
             else if x.client.btype.OnZset? then ZsetServed(x.client, k, x.before.dict, x.after.dict, answer, sent)
             else x.client.btype.OnStream? && answer == StreamData && sent == [] && x.after.dict == x.before.dict
    ensures Recorded(b0, run + [x], x.after, k, served + [x.id], cs0, cs[x.id := Released(cs[x.id])])
  {
    hide Correct, ListServed, ZsetServed, Once, Released;
    Answered(x, answer, sent);
    OnceMore(cs0, run, cs, x);
  }

  lemma RecordSays(b0: Books, run: seq<Service>, b: Books, k: Key, served: seq<ClientId>, cs0: Clients, cs: Clients)
    requires Recorded(b0, run, b, k, served, cs0, cs)
    ensures Ran(b0, run, b) && Once(cs0, run, cs) && forall i :: 0 <= i < |run| ==> run[i].key == k
  {
  }

  lemma NothingRecorded(b0: Books, cs: Clients, k: Key)
    ensures Recorded(b0, [], b0, k, [], cs, cs)
  {
  }

  lemma NoService(b0: Books, cs: Clients)
    ensures Ran(b0, [], b0) && Once(cs, [], cs)
  {
  }

  ghost function BooksOf(s: Server, k: Key): Books
    reads s
  {
    Books(Trim(s.dict, k), s.replies, s.propagated, s.unblocked, s.blockedClients)
  }

  lemma QueueAtStart(cs: Clients, w: Waiting, k: Key, t: BlockType)
    ensures QueueAt(ListOf(w, k), 0, cs, w, cs, w, k, t)
  {
    assert Chosen(ListOf(w, k)[..0], cs, t) == [];
  }

  /** When every waiter was visited, nobody left waits for what the key holds. */
  lemma VisitedAll(queue: seq<Node>, cs0: Clients, w0: Waiting, cs: Clients, w: Waiting, next: int, d: Dict, k: Key,
                   t: BlockType)
    requires QueueAt(queue, |queue|, cs0, w0, cs, w, k, t)
    requires forall i :: 0 <= i < |queue| ==> queue[i].client in cs0
    requires k in d ==> BlockedTypeOf(d[k]) == t && t != NotBlocked
    ensures Idle(cs, w, d, k)
  {
    assert queue[..|queue|] == queue;
    NoneChosenLeft(queue, cs0, t);
    ReleaseAllAt(cs0, Chosen(queue, cs0, t));
  }

  lemma {:induction false} NoneChosenLeft(queue: seq<Node>, cs: Clients, t: BlockType)
    requires forall i :: 0 <= i < |queue| ==> queue[i].client in cs
    ensures forall n :: n in Others(queue, cs, t) ==> n.client in cs && cs[n.client].btype != t
  {
    if queue != [] {
      NoneChosenLeft(queue[..|queue| - 1], cs, t);
    }
  }

  lemma NoneChosenYet(queue: seq<Node>, cs: Clients, t: BlockType)
    ensures Chosen(queue[..0], cs, t) == []
  {
  }

  lemma EffectCounts(b0: Books, b: Books, cs0: Clients, k: Key, served: seq<ClientId>)
    requires Effect(b0, b, cs0, k, served)
    ensures b.blocked == b0.blocked - |served|
  {
  }

  lemma QueueClientsKnown(cs: Clients, w: Waiting, next: int, k: Key)
    requires Indexed(cs, w, next)
    ensures forall i :: 0 <= i < |ListOf(w, k)| ==> ListOf(w, k)[i].client in cs
  {
    if k in w {
      assert GoodList(cs, k, w[k], next);
      assert forall i :: 0 <= i < |w[k]| ==> Stored(cs, k, w[k][i]);
    }
  }

  /** The key in service is dealt with: it is gone, or its waiters were all visited. */
  lemma FinalPending(queue: seq<Node>, v: int, cs0: Clients, w0: Waiting, next: int, cs: Clients, w: Waiting, d: Dict,
                     ready: set<Key>, k: Key, t: BlockType)
    requires queue == ListOf(w0, k) && Indexed(cs0, w0, next)
    requires QueueAt(queue, v, cs0, w0, cs, w, k, t)
    requires AllPending(cs, w, d, ready, Some(k))
    requires v == |queue| || Trim(d, k) == d - {k}
    requires k in d ==> BlockedTypeOf(d[k]) == t && t != NotBlocked
    ensures AllPending(cs, w, Trim(d, k), ready, None)
  {
    hide QueueAt;
    QueueClientsKnown(cs0, w0, next, k);
    if v == |queue| { VisitedAll(queue, cs0, w0, cs, w, next, d, k, t); }
    forall m ensures Idle(cs, w, Trim(d, k), m) || m in ready {
      assert Idle(cs, w, d, m) || m in ready || Some(k) == Some(m);
    }
  }

  /** listRotateHeadToTail on the queue of the key in service. */
  method Rotate(s: Server, ghost queue: seq<Node>, ghost v: int, ghost cs0: Clients, ghost w0: Waiting, k: Key,
                ghost t: BlockType)
    requires s.Valid() && k in s.waiting && s.waiting[k] != []
    requires QueueAt(queue, v, cs0, w0, s.clients, s.waiting, k, t) && v < |queue|
    requires queue[v].client in cs0 && cs0[queue[v].client].btype != t
    modifies s`waiting
    ensures s.Valid()
    ensures s.waiting == old(s.waiting)[k := old(s.waiting)[k][1..] + [old(s.waiting)[k][0]]]
    ensures QueueAt(queue, v + 1, cs0, w0, s.clients, s.waiting, k, t)
    ensures Chosen(queue[..v + 1], cs0, t) == Chosen(queue[..v], cs0, t)
    ensures AllPending(s.clients, old(s.waiting), s.dict, s.readySet, Some(k)) ==>
            AllPending(s.clients, s.waiting, s.dict, s.readySet, Some(k))
  {
    hide Indexed, GoodList, Listed, Lists, Counted, OfType, UnblockedSet, AllPending, QueueAt, Chosen;
    RotationKeepsIndex(s.clients, s.waiting, s.nextNode, k);
    Skipped(queue, v, cs0, w0, s.clients, s.waiting, k, t);
    if AllPending(s.clients, s.waiting, s.dict, s.readySet, Some(k)) {
      PendingAfterRotation(s.clients, s.waiting, s.dict, s.readySet, k, s.waiting[k][1..] + [s.waiting[k][0]]);
    }
    s.waiting := s.waiting[k := s.waiting[k][1..] + [s.waiting[k][0]]];
  }

  /** A key's waiters are served first come, first served, until the list runs out; the others go to the back. */
  method ServeClientsBlockedOnListKey(s: Server, k: Key) returns (ghost v: int, ghost run: seq<Service>)
    requires s.Valid() && k in s.dict && s.dict[k].ListObj? && s.dict[k].items != []
    modifies s
    ensures s.Valid() && s.draining == old(s.draining) && 0 <= v <= |ListOf(old(s.waiting), k)|
    ensures QueueAt(ListOf(old(s.waiting), k), v, old(s.clients), old(s.waiting), s.clients, s.waiting, k, OnList)
    ensures Recorded(old(BooksOf(s, k)), run, BooksOf(s, k), k,
                     Chosen(ListOf(old(s.waiting), k)[..v], old(s.clients), OnList), old(s.clients), s.clients)
    ensures Effect(old(BooksOf(s, k)), BooksOf(s, k), old(s.clients), k,
                   Chosen(ListOf(old(s.waiting), k)[..v], old(s.clients), OnList))
    ensures v == |ListOf(old(s.waiting), k)| || k !in s.dict
    ensures s.dict == Trim(s.dict, k)
    ensures old(s.readyKeys) <= s.readyKeys && (k in s.readySet <==> k in old(s.readySet))
    ensures s.blockedClients == old(s.blockedClients) ==> s.readyKeys == old(s.readyKeys)
    ensures AllPending(old(s.clients), old(s.waiting), old(s.dict), old(s.readySet), Some(k)) ==>
            AllPending(s.clients, s.waiting, s.dict, s.readySet, None)
  {
    hide Indexed, GoodList, Listed, Lists, Counted, OfType, BlockedSet, UnblockedSet, AllPending, Drop, QueueAt, Effect,
         Chosen, RunCommand, CommandOf, AnswerOf, Fails, Released, Recorded, ListServed;
    ghost var queue, cs0, w0, b0 := ListOf(s.waiting, k), s.clients, s.waiting, BooksOf(s, k);
    ghost var pending := AllPending(s.clients, s.waiting, s.dict, s.readySet, Some(k));
    v := 0;
    QueueAtStart(cs0, w0, k, OnList);
    assert Chosen(queue[..0], cs0, OnList) == [] by { NoneChosenYet(queue, cs0, OnList); }
    NothingServed(b0, cs0, k);
    run := [];
    NothingRecorded(b0, cs0, k);
    if k in s.waiting {
      var numclients := |s.waiting[k]|;
      while numclients > 0
        invariant v >= 0 && numclients >= 0 && v + numclients == |queue|
        invariant s.Valid() && s.draining == old(s.draining)
        invariant k in s.dict && s.dict[k].ListObj?
        invariant QueueAt(queue, v, cs0, w0, s.clients, s.waiting, k, OnList)
        invariant Effect(b0, BooksOf(s, k), cs0, k, Chosen(queue[..v], cs0, OnList))
        invariant Recorded(b0, run, BooksOf(s, k), k, Chosen(queue[..v], cs0, OnList), cs0, s.clients)
        invariant old(s.readyKeys) <= s.readyKeys && (k in s.readySet <==> k in old(s.readySet))
        invariant Chosen(queue[..v], cs0, OnList) == [] ==> s.readyKeys == old(s.readyKeys)
        invariant pending ==> AllPending(s.clients, s.waiting, s.dict, s.readySet, Some(k))
        decreases numclients
      {
        HeadIsNext(queue, v, cs0, w0, s.clients, s.waiting, s.nextNode, k, OnList);
        numclients := numclients - 1;
        var receiver := s.waiting[k][0].client;
        if s.clients[receiver].btype != OnList {
          Rotate(s, queue, v, cs0, w0, k, OnList);
        } else if s.dict[k].items != [] {
          ghost var cs, w, next, b := s.clients, s.waiting, s.nextNode, BooksOf(s, k);
          NothingToTrim(s.dict, k);
          ghost var answer, sent := ServeListWaiter(s, k, receiver);
          Taken(queue, v, cs0, w0, cs, w, s.waiting, next, k, OnList);
          EffectOneMore(b0, b, BooksOf(s, k), cs0, k, Chosen(queue[..v], cs0, OnList), receiver);
          ghost var x := Service(receiver, cs0[receiver], k, b, BooksOf(s, k));
          RecordedMore(b0, run, x, k, Chosen(queue[..v], cs0, OnList), cs0, cs, answer, sent);
          run := run + [x];
        } else {
          break;
        }
        v := v + 1;
      }
    }
    EffectCounts(b0, BooksOf(s, k), cs0, k, Chosen(queue[..v], cs0, OnList));
    if pending {
      FinalPending(queue, v, cs0, w0, old(s.nextNode), s.clients, s.waiting, s.dict, s.readySet, k, OnList);
    }
    if s.dict[k].items == [] {
      s.dict := s.dict - {k};
    }
  }

  method ServeClientsBlockedOnSortedSetKey(s: Server, k: Key) returns (ghost v: int, ghost run: seq<Service>)
    requires s.Valid() && k in s.dict && s.dict[k].ZsetObj? && s.dict[k].members != []
    modifies s
    ensures s.Valid() && s.draining == old(s.draining) && 0 <= v <= |ListOf(old(s.waiting), k)|
    ensures QueueAt(ListOf(old(s.waiting), k), v, old(s.clients), old(s.waiting), s.clients, s.waiting, k, OnZset)
    ensures Recorded(old(BooksOf(s, k)), run, BooksOf(s, k), k,
                     Chosen(ListOf(old(s.waiting), k)[..v], old(s.clients), OnZset), old(s.clients), s.clients)
    ensures Effect(old(BooksOf(s, k)), BooksOf(s, k), old(s.clients), k,
                   Chosen(ListOf(old(s.waiting), k)[..v], old(s.clients), OnZset))
    ensures v == |ListOf(old(s.waiting), k)| || k !in s.dict
    ensures s.dict == Trim(s.dict, k)
    ensures s.readyKeys == old(s.readyKeys) && s.readySet == old(s.readySet)
    ensures AllPending(old(s.clients), old(s.waiting), old(s.dict), old(s.readySet), Some(k)) ==>
            AllPending(s.clients, s.waiting, s.dict, s.readySet, None)
  {
    hide Indexed, GoodList, Listed, Lists, Counted, OfType, BlockedSet, UnblockedSet, AllPending, Drop, QueueAt, Effect,
         Chosen, RunCommand, CommandOf, AnswerOf, Fails, Released, Trim, Recorded, ZsetServed;
    ghost var queue, cs0, w0, b0 := ListOf(s.waiting, k), s.clients, s.waiting, BooksOf(s, k);
    ghost var pending := AllPending(s.clients, s.waiting, s.dict, s.readySet, Some(k));
    v := 0;
    QueueAtStart(cs0, w0, k, OnZset);
    NoneChosenYet(queue, cs0, OnZset);
    NothingServed(b0, cs0, k);
    run := [];
    NothingRecorded(b0, cs0, k);
    NothingToTrim(s.dict, k);
    if k in s.waiting {
      var numclients, zcard := |s.waiting[k]|, |s.dict[k].members|;
      while numclients > 0 && zcard > 0
        invariant v >= 0 && numclients >= 0 && v + numclients == |queue| && zcard >= 0
        invariant s.Valid() && s.draining == old(s.draining)
        invariant zcard == |MembersAt(s.dict, k)| && s.dict == Trim(s.dict, k)
        invariant if zcard > 0 then k in s.dict && s.dict[k].ZsetObj? else k !in s.dict
        invariant QueueAt(queue, v, cs0, w0, s.clients, s.waiting, k, OnZset)
        invariant Effect(b0, BooksOf(s, k), cs0, k, Chosen(queue[..v], cs0, OnZset))
        invariant Recorded(b0, run, BooksOf(s, k), k, Chosen(queue[..v], cs0, OnZset), cs0, s.clients)
        invariant s.readyKeys == old(s.readyKeys) && s.readySet == old(s.readySet)
        invariant pending ==> AllPending(s.clients, s.waiting, s.dict, s.readySet, Some(k))
        decreases numclients
      {
        HeadIsNext(queue, v, cs0, w0, s.clients, s.waiting, s.nextNode, k, OnZset);
        numclients := numclients - 1;
        var receiver := s.waiting[k][0].client;
        if s.clients[receiver].btype != OnZset {
          Rotate(s, queue, v, cs0, w0, k, OnZset);
        } else {
          ghost var cs, w, next, b := s.clients, s.waiting, s.nextNode, BooksOf(s, k);
          ghost var answer, sent := ServeZsetWaiter(s, k, receiver);
          zcard := zcard - 1;
          Taken(queue, v, cs0, w0, cs, w, s.waiting, next, k, OnZset);
          NeverFails(b.dict, cs[receiver], k);
          EffectOneMore(b0, b, BooksOf(s, k), cs0, k, Chosen(queue[..v], cs0, OnZset), receiver);
          ghost var x := Service(receiver, cs0[receiver], k, b, BooksOf(s, k));
          RecordedMore(b0, run, x, k, Chosen(queue[..v], cs0, OnZset), cs0, cs, answer, sent);
          run := run + [x];
        }
        v := v + 1;
      }
    }
    if pending {
      FinalPending(queue, v, cs0, w0, old(s.nextNode), s.clients, s.waiting, s.dict, s.readySet, k, OnZset);
    }
  }

  lemma NothingToTrim(d: Dict, k: Key)
    requires k in d && d[k] != ListObj([]) && d[k] != ZsetObj([])
    ensures Trim(d, k) == d
  {
  }

  lemma NeverFails(d: Dict, cl: Client, k: Key)
    requires cl.btype.OnZset?
    ensures CommandOf(cl, k).ZPop? && CommandOf(cl, k).key == k && !Fails(d, CommandOf(cl, k))
  {
  }

  predicate IsDue(cs: Clients, due: set<ClientId>, n: Node) {
    n.client in cs && cs[n.client].btype.OnStream? && n.client in due
  }

  lemma {:induction false} DropsAt(list: seq<Node>, i: int)
    requires 0 <= i < |list| && forall i, j :: 0 <= i < j < |list| ==> list[i].client != list[j].client
    ensures Drop(list, list[i].client) == list[..i] + list[i + 1..]
    decreases i
  {
    var rest := list[1..];
    assert forall j :: 0 <= j < |rest| ==> rest[j] == list[j + 1];
    if i == 0 {
      DropNothing(rest, list[0].client);
    } else {
      assert rest[i - 1] == list[i];
      DropsAt(rest, i - 1);
      CutBehindFirst(list, i);
    }
  }

  lemma CutBehindFirst<T>(list: seq<T>, i: int)
    requires 0 < i < |list|
    ensures var rest := list[1..]; list[..i] + list[i + 1..] == [list[0]] + (rest[..i - 1] + rest[i..])
  {
  }

  /** The clients of the queue that are due, in order. */
  function DueIn(q: seq<Node>, cs: Clients, due: set<ClientId>): seq<ClientId> {
    if q == [] then []
    else DueIn(q[..|q| - 1], cs, due) + if IsDue(cs, due, q[|q| - 1]) then [q[|q| - 1].client] else []
  }

  lemma DueInNext(q: seq<Node>, v: int, cs: Clients, due: set<ClientId>)
    requires 0 <= v < |q|
    ensures DueIn(q[..v + 1], cs, due) == DueIn(q[..v], cs, due) + if IsDue(cs, due, q[v]) then [q[v].client] else []
  {
    assert q[..v + 1][..v] == q[..v];
  }

  ghost predicate NoneDue(cs: Clients, due: set<ClientId>, list: seq<Node>, n: int) {
    0 <= n <= |list| && forall i :: 0 <= i < n ==> !IsDue(cs, due, list[i])
  }

  lemma NoneDueNext(cs: Clients, due: set<ClientId>, list: seq<Node>, n: int)
    requires NoneDue(cs, due, list, n) && n < |list| && !IsDue(cs, due, list[n])
    ensures NoneDue(cs, due, list, n + 1)
  {
  }

  /** A client that was served is due no more. */
  lemma NoneDueStill(cs: Clients, due: set<ClientId>, list: seq<Node>, n: int)
    requires NoneDue(cs, due, list, n) && n < |list| && list[n].client in cs
    ensures NoneDue(cs[list[n].client := Released(cs[list[n].client])], due, list[..n] + list[n + 1..], n)
  {
    var rest := list[..n] + list[n + 1..];
    forall i | 0 <= i < n ensures !IsDue(cs[list[n].client := Released(cs[list[n].client])], due, rest[i]) {
      assert rest[i] == list[i] && !IsDue(cs, due, list[i]);
    }
  }

  /** The live list from `i` on is the queue from `v` on. */
  ghost predicate Level(live: seq<Node>, i: int, queue: seq<Node>, v: int) {
    0 <= i <= |live| && 0 <= v <= |queue| && live[i..] == queue[v..]
  }

  lemma LevelStarts(queue: seq<Node>, cs: Clients, due: set<ClientId>)
    ensures Level(queue, 0, queue, 0) && DueIn(queue[..0], cs, due) == [] && NoneDue(cs, due, queue, 0)
  {
  }

  lemma LevelNext(live: seq<Node>, i: int, queue: seq<Node>, v: int)
    requires Level(live, i, queue, v) && i < |live|
    ensures v < |queue| && live[i] == queue[v]
    ensures Level(live, i + 1, queue, v + 1) && Level(live[..i] + live[i + 1..], i, queue, v + 1)
  {
    assert live[i..][0] == live[i] && live[i + 1..] == live[i..][1..] && queue[v + 1..] == queue[v..][1..];
    assert (live[..i] + live[i + 1..])[i..] == live[i + 1..];
  }

  lemma LevelEnds(live: seq<Node>, i: int, queue: seq<Node>, v: int, cs: Clients, due: set<ClientId>)
    requires Level(live, i, queue, v) && i == |live| && NoneDue(cs, due, live, i)
    ensures v == |queue| && queue[..v] == queue
    ensures forall j :: 0 <= j < |live| ==> !IsDue(cs, due, live[j])
  {
    assert |live[i..]| == 0 == |queue[v..]|;
  }

  /** The answer to one stream waiter, and its release. */
  method ServeStreamWaiter(s: Server, k: Key, r: ClientId)
    requires s.Valid() && r in s.clients && s.clients[r].btype.OnStream?
    modifies s`clients, s`waiting, s`blockedClients, s`blockedByType, s`unblocked, s`paused, s`replies
    ensures s.Valid()
    ensures s.replies == old(s.replies) + [Reply(r, k, StreamData)]
    ensures s.clients == old(s.clients)[r := Released(old(s.clients)[r])]
    ensures forall l :: ListOf(s.waiting, l) == Drop(ListOf(old(s.waiting), l), r)
    ensures s.blockedClients == old(s.blockedClients) - 1
    ensures s.unblocked == old(s.unblocked) + if r in old(s.unblocked) then [] else [r]
    ensures AllPending(old(s.clients), old(s.waiting), s.dict, s.readySet, Some(k)) ==>
            AllPending(s.clients, s.waiting, s.dict, s.readySet, Some(k))
  {
    hide Indexed, GoodList, Listed, Lists, Counted, OfType, BlockedSet, UnblockedSet, AllPending, Drop, Released;
    ghost var cs, w := s.clients, s.waiting;
    assert s.clients[r].blocked by { assert Sane(s.clients[r]); }
    s.replies := s.replies + [Reply(r, k, StreamData)];
    s.UnblockClient(r);
    if AllPending(cs, w, s.dict, s.readySet, Some(k)) {
      PendingAfterRelease(cs, w, s.waiting, s.dict, s.readySet, Some(k), r);
    }
  }

  /** The queue is walked once, from its head, while nodes are taken out of it. `due` is the set of the clients whose
      last seen id turns out to be smaller than the stream's, or whose group is gone, when they are reached. */
  method ServeClientsBlockedOnStreamKey(s: Server, k: Key, due: set<ClientId>)
    returns (ghost served: seq<ClientId>, ghost run: seq<Service>)
    requires s.Valid()
    modifies s`clients, s`waiting, s`blockedClients, s`blockedByType, s`unblocked, s`paused, s`replies
    ensures s.Valid()
    ensures s.clients == ReleaseAll(old(s.clients), served)
    ensures served == DueIn(ListOf(old(s.waiting), k), old(s.clients), due)
    ensures Recorded(old(BooksOf(s, k)), run, BooksOf(s, k), k, served, old(s.clients), s.clients)
    ensures forall c :: c in served ==> c in due && c in old(s.clients) && old(s.clients)[c].btype.OnStream?
    ensures forall l :: ListOf(s.waiting, l) == DropAll(ListOf(old(s.waiting), l), served)
    ensures DueServed(old(s.clients), run, k, due)
    // Nobody in the queue who is due is left there.
    ensures forall i :: 0 <= i < |ListOf(s.waiting, k)| ==> !IsDue(s.clients, due, ListOf(s.waiting, k)[i])
    ensures s.blockedClients == old(s.blockedClients) - |served|
    ensures s.unblocked == Requeued(old(s.unblocked), served)
    ensures AllPending(old(s.clients), old(s.waiting), s.dict, s.readySet, Some(k)) ==>
            AllPending(s.clients, s.waiting, s.dict, s.readySet, Some(k))
  {
    hide Indexed, GoodList, Listed, Lists, Counted, OfType, BlockedSet, UnblockedSet, AllPending, Drop, DropAll,
         ReleaseAll, Requeued, Released, Recorded, Trim, NoneDue, Level, DueIn, Dropped;
    ghost var cs0, w0, b0, queue, v := s.clients, s.waiting, BooksOf(s, k), ListOf(s.waiting, k), 0;
    served, run := [], [];
    NobodyDropped(cs0, w0, s.unblocked);
    NothingRecorded(b0, cs0, k);
    LevelStarts(queue, cs0, due);
    var i := 0;
    while k in s.waiting && i < |s.waiting[k]|
      invariant 0 <= i <= |ListOf(s.waiting, k)|
      invariant s.Valid()
      invariant 0 <= v <= |queue|
      invariant Level(ListOf(s.waiting, k), i, queue, v) && served == DueIn(queue[..v], cs0, due)
      invariant Recorded(b0, run, BooksOf(s, k), k, served, cs0, s.clients)
      invariant forall c :: c in served ==> c in due && c in cs0 && cs0[c].btype.OnStream?
      invariant Dropped(cs0, w0, old(s.unblocked), served, s.clients, s.waiting, s.unblocked)
      invariant NoneDue(s.clients, due, ListOf(s.waiting, k), i)
      invariant s.blockedClients == old(s.blockedClients) - |served|
      invariant AllPending(cs0, w0, s.dict, s.readySet, Some(k)) ==>
                AllPending(s.clients, s.waiting, s.dict, s.readySet, Some(k))
      decreases |ListOf(s.waiting, k)| - i
    {
      NodeInList(s.clients, s.waiting, s.nextNode, k, i);
      var receiver := s.waiting[k][i].client;
      LevelNext(ListOf(s.waiting, k), i, queue, v);
      NotServedYet(b0, run, BooksOf(s, k), k, served, cs0, s.clients, receiver);
      DueInNext(queue, v, cs0, due);
      if s.clients[receiver].btype.OnStream? && receiver in due {
        ghost var cs, w := s.clients, s.waiting;
        ghost var b := BooksOf(s, k);
        ServeStreamWaiter(s, k, receiver);
        NoneDueStill(cs, due, w[k], i);
        DroppedMore(cs0, w0, old(s.unblocked), served, cs, w, b.unblocked, s.waiting, s.unblocked, receiver);
        ghost var x := Service(receiver, cs0[receiver], k, b, BooksOf(s, k));
        RecordedMore(b0, run, x, k, served, cs0, cs, StreamData, []);
        served, run := served + [receiver], run + [x];
      } else {
        NoneDueNext(s.clients, due, s.waiting[k], i);
        i := i + 1;
      }
      v := v + 1;
    }
    LevelEnds(ListOf(s.waiting, k), i, queue, v, s.clients, due);
    DroppedSays(cs0, w0, old(s.unblocked), served, s.clients, s.waiting, s.unblocked);
    DueAreServed(b0, run, BooksOf(s, k), k, served, cs0, s.clients, w0, old(s.nextNode), s.waiting, s.nextNode, due);
  }

  /** Of the stream clients that waited on `k`, those that are due were served, and nobody else. */
  ghost predicate DueServed(cs: Clients, run: seq<Service>, k: Key, due: set<ClientId>) {
    forall c :: c in Ids(run) <==> c in cs && cs[c].btype.OnStream? && k in cs[c].keys && c in due
  }

  lemma DueAreServed(b0: Books, run: seq<Service>, b: Books, k: Key, served: seq<ClientId>, cs0: Clients, cs: Clients,
                     w0: Waiting, next0: int, w: Waiting, next: int, due: set<ClientId>)
    requires Recorded(b0, run, b, k, served, cs0, cs) && Indexed(cs0, w0, next0) && Indexed(cs, w, next)
    requires forall c :: c in served ==> c in due && c in cs0 && cs0[c].btype.OnStream?
    requires served == DueIn(ListOf(w0, k), cs0, due)
    requires forall i :: 0 <= i < |ListOf(w, k)| ==> !IsDue(cs, due, ListOf(w, k)[i])
    ensures DueServed(cs0, run, k, due)
  {
    hide Ran, Once, Recorded, Indexed, DueIn, IsDue, Ids;
    ServedIds(b0, run, b, k, served, cs0, cs);
    forall c | c in served ensures k in cs0[c].keys { ServedWaited(cs0, w0, next0, k, due, c); }
    forall c | c in cs0 && cs0[c].btype.OnStream? && k in cs0[c].keys && c in due ensures c in served {
      if c !in served {
        NotServedStillDue(b0, run, b, k, served, cs0, cs, w, next, due, c);
      }
    }
  }

  lemma ServedIds(b0: Books, run: seq<Service>, b: Books, k: Key, served: seq<ClientId>, cs0: Clients, cs: Clients)
    requires Recorded(b0, run, b, k, served, cs0, cs)
    ensures forall c :: c in Ids(run) <==> c in served
  {
    hide Ran, Once;
    forall c | c in served ensures c in Ids(run) {
      var i :| 0 <= i < |served| && served[i] == c;
      IdOf(run, i);
    }
    forall c | c in Ids(run) ensures c in served {
      var i := IndexOfId(run, c);
    }
  }

  lemma {:induction false} DueInQueue(q: seq<Node>, cs: Clients, due: set<ClientId>, c: ClientId)
    requires c in DueIn(q, cs, due)
    ensures exists i :: 0 <= i < |q| && q[i].client == c
    decreases |q|
  {
    if q[|q| - 1].client != c {
      DueInQueue(q[..|q| - 1], cs, due, c);
      var i :| 0 <= i < |q| - 1 && q[..|q| - 1][i].client == c;
      assert q[i].client == c;
    }
  }

  lemma ServedWaited(cs: Clients, w: Waiting, next: int, k: Key, due: set<ClientId>, c: ClientId)
    requires Indexed(cs, w, next) && c in DueIn(ListOf(w, k), cs, due)
    ensures c in cs && k in cs[c].keys
  {
    hide DueIn, Listed;
    DueInQueue(ListOf(w, k), cs, due, c);
    var i :| 0 <= i < |ListOf(w, k)| && ListOf(w, k)[i].client == c;
    assert GoodList(cs, k, w[k], next) && Stored(cs, k, w[k][i]);
  }

  lemma NotServedStillDue(b0: Books, run: seq<Service>, b: Books, k: Key, served: seq<ClientId>, cs0: Clients,
                          cs: Clients, w: Waiting, next: int, due: set<ClientId>, c: ClientId)
    requires Recorded(b0, run, b, k, served, cs0, cs) && Indexed(cs, w, next) && c !in served
    requires c in cs0 && cs0[c].btype.OnStream? && k in cs0[c].keys && c in due
    ensures exists i :: 0 <= i < |ListOf(w, k)| && IsDue(cs, due, ListOf(w, k)[i])
  {
    hide Ran, Ids, GoodList;
    ServedIds(b0, run, b, k, served, cs0, cs);
    assert cs[c] == cs0[c];
    assert Listed(cs, w, c);
    var i :| 0 <= i < |w[k]| && w[k][i] == Node(cs[c].keys[k], c);
    assert IsDue(cs, due, ListOf(w, k)[i]);
  }

  /** A client on the list of a key was not served before: it would wait for nothing. */
  lemma NotServedYet(b0: Books, run: seq<Service>, b: Books, k: Key, served: seq<ClientId>, cs0: Clients, cs: Clients,
                     c: ClientId)
    requires Recorded(b0, run, b, k, served, cs0, cs) && c in cs && k in cs[c].keys
    ensures c in cs0 && cs0[c] == cs[c]
  {
  }

  /** The clients `served` were released, taken out of every list and queued for reprocessing, one after the other. */
  ghost predicate Dropped(cs0: Clients, w0: Waiting, q0: seq<ClientId>, served: seq<ClientId>,
                          cs: Clients, w: Waiting, q: seq<ClientId>)
  {
    && cs == ReleaseAll(cs0, served)
    && (forall l :: ListOf(w, l) == DropAll(ListOf(w0, l), served))
    && q == Requeued(q0, served)
  }

  lemma NobodyDropped(cs: Clients, w: Waiting, q: seq<ClientId>)
    ensures Dropped(cs, w, q, [], cs, w, q)
  {
  }

  lemma DroppedMore(cs0: Clients, w0: Waiting, q0: seq<ClientId>, served: seq<ClientId>,
                    cs: Clients, w: Waiting, q: seq<ClientId>, w': Waiting, q': seq<ClientId>, c: ClientId)
    requires Dropped(cs0, w0, q0, served, cs, w, q) && c in cs
    requires forall l :: ListOf(w', l) == Drop(ListOf(w, l), c)
    requires q' == q + if c in q then [] else [c]
    ensures Dropped(cs0, w0, q0, served + [c], cs[c := Released(cs[c])], w', q')
  {
    assert (served + [c])[..|served|] == served;
  }

  lemma DroppedSays(cs0: Clients, w0: Waiting, q0: seq<ClientId>, served: seq<ClientId>,
                    cs: Clients, w: Waiting, q: seq<ClientId>)
    requires Dropped(cs0, w0, q0, served, cs, w, q)
    ensures cs == ReleaseAll(cs0, served) && q == Requeued(q0, served)
    ensures forall l :: ListOf(w, l) == DropAll(ListOf(w0, l), served)
  {
  }

  lemma NodeInList(cs: Clients, w: Waiting, next: int, k: Key, i: int)
    requires Indexed(cs, w, next) && k in w && 0 <= i < |w[k]|
    ensures w[k][i].client in cs && k in cs[w[k][i].client].keys
    ensures Drop(w[k], w[k][i].client) == w[k][..i] + w[k][i + 1..]
  {
    assert GoodList(cs, k, w[k], next);
    assert Stored(cs, k, w[k][i]);
    DropsAt(w[k], i);
  }

  // ---------------------------------------------------------------- the ready keys

  predicate Solid(d: Dict) {
    forall k :: k in d ==> d[k] != ListObj([]) && d[k] != ZsetObj([])
  }

  lemma RunKeepsSolid(d: Dict, cmd: Command)
    requires Solid(d)
    ensures Solid(RunCommand(d, cmd))
  {
  }

  lemma {:induction false} ReplayKeepsSolid(d: Dict, cmds: seq<Command>)
    requires Solid(d)
    ensures Solid(Replay(d, cmds))
    decreases |cmds|
  {
    hide RunCommand;
    if cmds != [] {
      ReplayKeepsSolid(d, cmds[..|cmds| - 1]);
      RunKeepsSolid(Replay(d, cmds[..|cmds| - 1]), cmds[|cmds| - 1]);
    }
  }

  /** What was propagated since `p0` takes the dataset from `d0` to `d`. */
  ghost predicate Replicates(p0: seq<Command>, d0: Dict, p: seq<Command>, d: Dict) {
    p0 <= p && d == Replay(d0, p[|p0|..])
  }

  lemma EffectReplicates(b0: Books, b: Books, cs: Clients, k: Key, served: seq<ClientId>)
    requires Effect(b0, b, cs, k, served)
    ensures Replicates(b0.propagated, b0.dict, b.propagated, b.dict)
  {
    EffectiveReplays(b0.dict, CommandsOf(cs, k, served));
    assert b.propagated[|b0.propagated|..] == Effective(b0.dict, CommandsOf(cs, k, served));
  }

  lemma ReplicatesOn(p0: seq<Command>, d0: Dict, p1: seq<Command>, d1: Dict, p2: seq<Command>, d2: Dict)
    requires Replicates(p0, d0, p1, d1) && Replicates(p1, d1, p2, d2)
    ensures Replicates(p0, d0, p2, d2)
  {
    ReplayAppend(d0, p1[|p0|..], p2[|p1|..]);
    assert p2[|p0|..] == p1[|p0|..] + p2[|p1|..];
  }

  ghost function BooksHeld(s: Server): Books
    reads s
  {
    Books(s.dict, s.replies, s.propagated, s.unblocked, s.blockedClients)
  }

  /** The switch on the type of the key in service, which was taken off the ready keys. */
  method ServeByType(s: Server, k: Key, due: set<ClientId>) returns (ghost run: seq<Service>)
    requires s.Valid() && Solid(s.dict) && k in s.dict
    modifies s
    ensures s.Valid() && s.draining == old(s.draining)
    ensures Ran(old(BooksHeld(s)), run, BooksHeld(s)) && Once(old(s.clients), run, s.clients)
    ensures forall i :: 0 <= i < |run| ==> run[i].key == k
    ensures old(s.dict)[k].StreamObj? ==> DueServed(old(s.clients), run, k, due)
    ensures old(s.readyKeys) <= s.readyKeys
    ensures k in s.readySet <==> k in old(s.readySet)
    ensures s.blockedClients <= old(s.blockedClients)
    ensures s.blockedClients == old(s.blockedClients) ==> s.readyKeys == old(s.readyKeys)
    ensures Replicates(old(s.propagated), old(s.dict), s.propagated, s.dict)
    ensures AllPending(old(s.clients), old(s.waiting), old(s.dict), old(s.readySet), Some(k)) ==>
            AllPending(s.clients, s.waiting, s.dict, s.readySet, None)
  {
    hide Indexed, GoodList, Listed, Lists, Counted, OfType, BlockedSet, UnblockedSet, AllPending, QueueAt, Effect,
         Chosen, Replay, ReleaseAll, DropAll, Requeued, Solid, Replicates, Idle, Ran, Once, Recorded, DueServed;
    ghost var b0, cs0, queue := BooksOf(s, k), s.clients, ListOf(s.waiting, k);
    ghost var pending := AllPending(s.clients, s.waiting, s.dict, s.readySet, Some(k));
    NothingReplicates(s.propagated, s.dict);
    run := [];
    NoService(BooksHeld(s), s.clients);
    SolidAt(s.dict, k);
    ghost var v, served := 0, [];
    match s.dict[k]
    case ListObj(_) =>
      v, run := ServeClientsBlockedOnListKey(s, k);
      served := Chosen(queue[..v], cs0, OnList);
      EffectReplicates(b0, BooksOf(s, k), cs0, k, served);
      EffectCounts(b0, BooksOf(s, k), cs0, k, served);
      RecordSays(b0, run, BooksOf(s, k), k, served, cs0, s.clients);
    case ZsetObj(_) =>
      v, run := ServeClientsBlockedOnSortedSetKey(s, k);
      served := Chosen(queue[..v], cs0, OnZset);
      EffectReplicates(b0, BooksOf(s, k), cs0, k, served);
      EffectCounts(b0, BooksOf(s, k), cs0, k, served);
      RecordSays(b0, run, BooksOf(s, k), k, served, cs0, s.clients);
    case StreamObj =>
      served, run := ServeClientsBlockedOnStreamKey(s, k, due);
      RecordSays(b0, run, BooksOf(s, k), k, served, cs0, s.clients);
      if pending { NothingToTake(s.clients, s.waiting, s.dict, s.readySet, k); }
    case OtherObj =>
      if pending { NothingToTake(s.clients, s.waiting, s.dict, s.readySet, k); }
  }

  /** One entry of the list being drained. */
  method ServeReadyKey(s: Server, k: Key, due: set<ClientId>) returns (ghost run: seq<Service>)
    requires s.Valid() && Solid(s.dict) && s.draining != [] && k == s.draining[0]
    modifies s
    ensures s.Valid() && Solid(s.dict)
    ensures s.draining == old(s.draining)[1..]
    ensures Ran(old(BooksHeld(s)), run, BooksHeld(s)) && Once(old(s.clients), run, s.clients)
    ensures forall i :: 0 <= i < |run| ==> run[i].key == k
    ensures k in old(s.dict) && old(s.dict)[k].StreamObj? ==> DueServed(old(s.clients), run, k, due)
    ensures old(s.readyKeys) <= s.readyKeys
    // The key is not queued again while it is served.
    ensures k !in s.readySet
    ensures s.blockedClients <= old(s.blockedClients)
    ensures s.blockedClients == old(s.blockedClients) ==> s.readyKeys == old(s.readyKeys)
    ensures Replicates(old(s.propagated), old(s.dict), s.propagated, s.dict)
    ensures AllPending(old(s.clients), old(s.waiting), old(s.dict), old(s.readySet), None) ==>
            AllPending(s.clients, s.waiting, s.dict, s.readySet, None)
  {
    hide Indexed, GoodList, Listed, Lists, Counted, OfType, BlockedSet, UnblockedSet, AllPending, Replay, Solid,
         Replicates, Idle, Ran, Once, DueServed;
    ghost var d0, p0, pending := s.dict, s.propagated, AllPending(s.clients, s.waiting, s.dict, s.readySet, None);
    Dequeued(s.draining, s.readyKeys, s.readySet);
    s.readySet := s.readySet - {k};
    s.draining := s.draining[1..];
    if pending {
      TakenAside(s.clients, s.waiting, s.dict, old(s.readySet), k);
    }
    NothingReplicates(p0, d0);
    run := [];
    NoService(BooksHeld(s), s.clients);
    if k in s.dict {
      run := ServeByType(s, k, due);
    } else if pending {
      NothingToTake(s.clients, s.waiting, s.dict, s.readySet, k);
    }
    ReplicatesKeepsSolid(p0, d0, s.propagated, s.dict);
  }

  lemma Dequeued(draining: seq<Key>, readyKeys: seq<Key>, ready: set<Key>)
    requires draining != [] && Lists(draining + readyKeys, ready)
    ensures Lists(draining[1..] + readyKeys, ready - {draining[0]})
  {
    FirstOf(draining + readyKeys, ready);
    assert (draining + readyKeys)[1..] == draining[1..] + readyKeys;
  }

  lemma TakenAside(cs: Clients, w: Waiting, d: Dict, ready: set<Key>, k: Key)
    requires AllPending(cs, w, d, ready, None)
    ensures AllPending(cs, w, d, ready - {k}, Some(k))
  {
    forall m ensures Idle(cs, w, d, m) || m in ready - {k} || m == k {
      assert Idle(cs, w, d, m) || m in ready || Option<Key>.None == Some(m);
    }
  }

  lemma NothingToTake(cs: Clients, w: Waiting, d: Dict, ready: set<Key>, k: Key)
    requires AllPending(cs, w, d, ready, Some(k)) && (k in d ==> !d[k].ListObj? && !d[k].ZsetObj?)
    ensures AllPending(cs, w, d, ready, None)
  {
    forall m ensures Idle(cs, w, d, m) || m in ready {
      assert Idle(cs, w, d, m) || m in ready || Some(k) == Some(m);
    }
  }

  lemma NothingReplicates(p: seq<Command>, d: Dict)
    ensures Replicates(p, d, p, d)
  {
    assert p[|p|..] == [];
  }

  lemma SolidAt(d: Dict, k: Key)
    requires Solid(d) && k in d
    ensures d[k] != ListObj([]) && d[k] != ZsetObj([]) && Trim(d, k) == d
  {
  }

  lemma ReplicatesKeepsSolid(p0: seq<Command>, d0: Dict, p: seq<Command>, d: Dict)
    requires Solid(d0) && Replicates(p0, d0, p, d)
    ensures Solid(d)
  {
    ReplayKeepsSolid(d0, p[|p0|..]);
  }

  /** A client that blocks on keys with nothing for it waits in vain for none of them. */
  lemma BlockingKeepsPending(cs: Clients, w: Waiting, cs': Clients, w': Waiting, d: Dict, ready: set<Key>, c: ClientId)
    requires AllPending(cs, w, d, ready, None) && c in cs && c in cs' && cs' == cs[c := cs'[c]]
    requires forall k :: ListOf(w', k) ==
                         ListOf(w, k) + if k in cs'[c].keys then [Node(cs'[c].keys[k], c)] else []
    requires forall k :: k in cs'[c].keys && k in d ==> BlockedTypeOf(d[k]) != cs'[c].btype
    requires forall k, i :: 0 <= i < |ListOf(w, k)| ==> ListOf(w, k)[i].client != c
    ensures AllPending(cs', w', d, ready, None)
  {
    forall k ensures Idle(cs', w', d, k) || k in ready {
      assert Idle(cs, w, d, k) || k in ready || Option<Key>.None == Some(k);
    }
  }

  /** Whoever waited for a stream that was ready, and is due there, was served. */
  ghost predicate StreamDone(cs: Clients, d: Dict, run: seq<Service>, k: Key, due: set<ClientId>) {
    k in d && d[k].StreamObj? ==>
      forall c :: c in cs && cs[c].btype.OnStream? && k in cs[c].keys && c in due ==> c in Ids(run)
  }

  lemma StreamDoneNext(cs0: Clients, d0: Dict, p0: seq<Command>, run: seq<Service>, cs: Clients, d: Dict,
                       p: seq<Command>, more: seq<Service>, k: Key, due: set<ClientId>)
    requires Once(cs0, run, cs) && Replicates(p0, d0, p, d)
    requires k in d && d[k].StreamObj? ==> DueServed(cs, more, k, due)
    ensures StreamDone(cs0, d0, run + more, k, due)
  {
    hide Ids;
    BothIds(run, more);
    if k in d0 && d0[k].StreamObj? {
      StreamStays(d0, p[|p0|..], k);
    }
  }

  lemma StreamDoneStill(cs: Clients, d: Dict, run: seq<Service>, more: seq<Service>, k: Key, due: set<ClientId>)
    requires StreamDone(cs, d, run, k, due)
    ensures StreamDone(cs, d, run + more, k, due)
  {
    hide Ids;
    BothIds(run, more);
  }

  lemma {:induction false} StreamStays(d: Dict, cmds: seq<Command>, k: Key)
    requires k in d && d[k].StreamObj?
    ensures k in Replay(d, cmds) && Replay(d, cmds)[k].StreamObj?
    decreases |cmds|
  {
    if cmds != [] {
      StreamStays(d, cmds[..|cmds| - 1], k);
    }
  }

  /** Every ready key is served, and those that serving made ready; this ends, because a client is unblocked for each of
      those. A replica that runs what was propagated has the same dataset, and no client waits for what is there. */
  method HandleClientsBlockedOnKeys(s: Server, due: Key -> set<ClientId>) returns (ghost run: seq<Service>)
    requires s.Valid() && Solid(s.dict) && s.draining == []
    modifies s
    ensures s.Valid() && Solid(s.dict) && s.draining == []
    ensures s.readyKeys == [] && s.readySet == {}
    ensures s.blockedClients <= old(s.blockedClients)
    ensures Ran(old(BooksHeld(s)), run, BooksHeld(s)) && Once(old(s.clients), run, s.clients)
    ensures Replicates(old(s.propagated), old(s.dict), s.propagated, s.dict)
    ensures AllPending(old(s.clients), old(s.waiting), old(s.dict), old(s.readySet), None) ==>
            forall k :: Idle(s.clients, s.waiting, s.dict, k)
    ensures forall k :: k in old(s.readyKeys) ==> StreamDone(old(s.clients), old(s.dict), run, k, due(k))
  {
    hide Indexed, GoodList, Listed, Lists, Counted, OfType, BlockedSet, UnblockedSet, AllPending, Replay, Solid,
         Replicates, Idle, Ran, Once, DueServed, StreamDone;
    ghost var d0, p0, pending := s.dict, s.propagated, AllPending(s.clients, s.waiting, s.dict, s.readySet, None);
    ghost var b0, cs0 := BooksHeld(s), s.clients;
    run := [];
    NoService(b0, cs0);
    NothingReplicates(p0, d0);
    CountIsNatural(s.clients, s.blockedClients, s.blockedByType);
    while s.readyKeys != []
      invariant s.Valid() && Solid(s.dict) && s.draining == []
      invariant 0 <= s.blockedClients <= old(s.blockedClients)
      invariant Ran(b0, run, BooksHeld(s)) && Once(cs0, run, s.clients) && Replicates(p0, d0, s.propagated, s.dict)
      invariant pending ==> AllPending(s.clients, s.waiting, s.dict, s.readySet, None)
      invariant forall k :: k in old(s.readyKeys) ==> k in s.readyKeys || StreamDone(cs0, d0, run, k, due(k))
      decreases s.blockedClients, |s.readyKeys|
    {
      var l := s.readyKeys;
      s.readyKeys := [];
      s.draining := l;
      assert l + [] == [] + l;
      ghost var blocked := s.blockedClients;
      while l != []
        invariant s.Valid() && Solid(s.dict) && s.draining == l
        invariant 0 <= s.blockedClients <= blocked
        invariant s.blockedClients == blocked ==> s.readyKeys == []
        invariant Ran(b0, run, BooksHeld(s)) && Once(cs0, run, s.clients) && Replicates(p0, d0, s.propagated, s.dict)
        invariant pending ==> AllPending(s.clients, s.waiting, s.dict, s.readySet, None)
        invariant forall k :: k in old(s.readyKeys) ==>
                              k in l || k in s.readyKeys || StreamDone(cs0, d0, run, k, due(k))
        decreases |l|
      {
        ghost var p1, d1 := s.propagated, s.dict;
        ghost var b1, cs1 := BooksHeld(s), s.clients;
        ghost var more := ServeReadyKey(s, l[0], due(l[0]));
        StreamDoneNext(cs0, d0, p0, run, cs1, d1, p1, more, l[0], due(l[0]));
        forall k | StreamDone(cs0, d0, run, k, due(k)) ensures StreamDone(cs0, d0, run + more, k, due(k)) {
          StreamDoneStill(cs0, d0, run, more, k, due(k));
        }
        RanOn(b0, run, b1, more, BooksHeld(s));
        AllCorrect(b1, more, BooksHeld(s));
        OnceTrans(cs0, run, cs1, more, s.clients);
        run := run + more;
        ReplicatesOn(p0, d0, p1, d1, s.propagated, s.dict);
        CountIsNatural(s.clients, s.blockedClients, s.blockedByType);
        l := l[1..];
      }
    }
    AllTaken(s.clients, s.waiting, s.dict, s.readySet);
  }

  lemma AllCorrect(b0: Books, run: seq<Service>, b: Books)
    requires Ran(b0, run, b)
    ensures forall i :: 0 <= i < |run| ==> Correct(run[i])
  {
  }

  lemma CountIsNatural(cs: Clients, n: int, byType: map<BlockType, int>)
    requires Counted(cs, n, byType)
    ensures n >= 0
  {
  }

  lemma AllTaken(cs: Clients, w: Waiting, d: Dict, ready: set<Key>)
    requires Lists<Key>([] + [], ready)
    ensures ready == {}
    ensures AllPending(cs, w, d, ready, None) ==> forall k :: Idle(cs, w, d, k)
  {
    assert forall k :: k in ready ==> k in [] + [];
    if AllPending(cs, w, d, ready, None) {
      forall k ensures Idle(cs, w, d, k) {
        assert Idle(cs, w, d, k) || k in ready || Option<Key>.None == Some(k);
      }
    }
  }
}
