// blocked.c: blocking and unblocking one client, and signalling a key, on the server's state.
module BlockedClients {
  import opened BlockedIndex

  type Value = string

  // A key's value. A sorted set is its members in score order.
  datatype Object = ListObj(items: seq<Value>) | ZsetObj(members: seq<Value>) | StreamObj | OtherObj

  type Dict = map<Key, Object>

  function BlockedTypeOf(o: Object): BlockType {
    match o
    case ListObj(_) => OnList
    case ZsetObj(_) => OnZset
    case StreamObj => OnStream
    case OtherObj => NotBlocked
  }

  /** The client is blocked on keys that hold values of the object's type. */
  predicate Awaits(cl: Client, o: Object) {
    cl.blocked && if o.ListObj? then cl.btype.OnList? else if o.ZsetObj? then cl.btype.OnZset?
                  else o.StreamObj? && cl.btype.OnStream?
  }

  datatype Answer = Data(value: Value) | WrongType | StreamData
  datatype Reply = Reply(client: ClientId, key: Key, answer: Answer)

  // A command sent to the replicas and to the append only file.
  datatype Command =
    | Pop(key: Key, from: End)
    | Move(key: Key, from: End, dst: Key, to: End)
    | ZPop(key: Key, from: End)

  // ---------------------------------------------------------------- the invariant

  ghost function BlockedSet(cs: Clients): set<ClientId> {
    set c | c in cs && cs[c].blocked
  }

  ghost function OfType(cs: Clients, t: BlockType): set<ClientId> {
    set c | c in cs && cs[c].blocked && cs[c].btype == t
  }

  ghost function UnblockedSet(cs: Clients): set<ClientId> {
    set c | c in cs && cs[c].unblocked
  }

  /** The counters are the numbers of blocked clients, in all and by type. */
  ghost predicate Counted(cs: Clients, n: int, byType: map<BlockType, int>) {
    n == |BlockedSet(cs)| && forall t: BlockType :: t in byType && byType[t] == |OfType(cs, t)|
  }

  predicate Sane(cl: Client) {
    && (cl.blocked <==> cl.btype != NotBlocked)
    && (WaitsForData(cl.btype) <==> cl.keys != map[])
    && (!WaitsForData(cl.btype) ==> cl.target == None)
  }

  ghost predicate AllSane(cs: Clients) {
    forall c :: c in cs ==> Sane(cs[c])
  }

  /** The queue holds exactly the members of `s`, each once. */
  ghost predicate Lists<T(!new)>(q: seq<T>, s: set<T>) {
    && (forall i :: 0 <= i < |q| ==> q[i] in s)
    && (forall x :: x in s ==> x in q)
    && (forall i, j :: 0 <= i < j < |q| ==> q[i] != q[j])
  }

  lemma SetGrows(cs: Clients, c: ClientId, cl: Client, t: BlockType)
    requires c in cs && !cs[c].blocked && cl.blocked
    ensures |BlockedSet(cs[c := cl])| == |BlockedSet(cs)| + 1
    ensures |OfType(cs[c := cl], t)| == |OfType(cs, t)| + if t == cl.btype then 1 else 0
  {
    assert BlockedSet(cs[c := cl]) == BlockedSet(cs) + {c};
    if t == cl.btype {
      assert OfType(cs[c := cl], t) == OfType(cs, t) + {c};
    } else {
      assert OfType(cs[c := cl], t) == OfType(cs, t);
    }
  }

  lemma CountedUp(cs: Clients, n: int, byType: map<BlockType, int>, c: ClientId, cl: Client)
    requires Counted(cs, n, byType) && c in cs && !cs[c].blocked && cl.blocked
    ensures cl.btype in byType
    ensures Counted(cs[c := cl], n + 1, byType[cl.btype := byType[cl.btype] + 1])
  {
    hide BlockedSet, OfType;
    var cs', byType' := cs[c := cl], byType[cl.btype := byType[cl.btype] + 1];
    SetGrows(cs, c, cl, cl.btype);
    forall t: BlockType ensures t in byType' && byType'[t] == |OfType(cs', t)| {
      SetGrows(cs, c, cl, t);
      assert t in byType && byType[t] == |OfType(cs, t)|;
    }
  }

  lemma CountedDown(cs: Clients, n: int, byType: map<BlockType, int>, c: ClientId, cl: Client)
    requires Counted(cs, n, byType) && c in cs && cs[c].blocked && !cl.blocked
    ensures cs[c].btype in byType
    ensures Counted(cs[c := cl], n - 1, byType[cs[c].btype := byType[cs[c].btype] - 1])
  {
    hide BlockedSet, OfType;
    var cs', byType' := cs[c := cl], byType[cs[c].btype := byType[cs[c].btype] - 1];
    assert cs'[c := cs[c]] == cs;
    SetGrows(cs', c, cs[c], cs[c].btype);
    forall t: BlockType ensures t in byType' && byType'[t] == |OfType(cs', t)| {
      SetGrows(cs', c, cs[c], t);
      assert t in byType && byType[t] == |OfType(cs, t)|;
    }
  }

  lemma CountedSame(cs: Clients, n: int, byType: map<BlockType, int>, c: ClientId, cl: Client)
    requires Counted(cs, n, byType) && c in cs && cs[c].blocked == cl.blocked && cs[c].btype == cl.btype
    ensures Counted(cs[c := cl], n, byType)
  {
    var cs' := cs[c := cl];
    assert BlockedSet(cs') == BlockedSet(cs);
    forall t: BlockType ensures OfType(cs', t) == OfType(cs, t) {
      SameOfType(cs, c, cl, t);
    }
  }

  lemma UnblockedSetAt(cs: Clients, c: ClientId, cl: Client)
    requires c in cs
    ensures c in UnblockedSet(cs) <==> cs[c].unblocked
    ensures cl.unblocked == cs[c].unblocked ==> UnblockedSet(cs[c := cl]) == UnblockedSet(cs)
    ensures UnblockedSet(cs[c := cl]) == if cl.unblocked then UnblockedSet(cs) + {c} else UnblockedSet(cs) - {c}
  {
  }

  lemma OfTypeAt(cs: Clients, c: ClientId, cl: Client, t: BlockType)
    requires c in cs
    ensures c in OfType(cs, t) <==> cs[c].blocked && cs[c].btype == t
    ensures OfType(cs[c := cl], t) ==
            if cl.blocked && cl.btype == t then OfType(cs, t) + {c} else OfType(cs, t) - {c}
  {
  }

  lemma StillSane(cs: Clients, c: ClientId, cl: Client)
    requires AllSane(cs) && Sane(cl)
    ensures AllSane(cs[c := cl])
  {
  }

  lemma SomeoneAwaits(cs: Clients, o: Object)
    requires AllSane(cs)
    ensures OfType(cs, BlockedTypeOf(o)) != {} <==> exists c :: c in cs && Awaits(cs[c], o)
  {
    var some := OfType(cs, BlockedTypeOf(o));
    forall c ensures c in some <==> c in cs && Awaits(cs[c], o) {
      if c in cs { assert Sane(cs[c]); }
    }
    if forall c :: c in cs ==> !Awaits(cs[c], o) {
      assert some == {};
    }
  }

  lemma SameOfType(cs: Clients, c: ClientId, cl: Client, t: BlockType)
    requires c in cs && cs[c].blocked == cl.blocked && cs[c].btype == cl.btype
    ensures OfType(cs[c := cl], t) == OfType(cs, t)
  {
  }

  /** The index only looks at the keys. */
  lemma SameKeys(cs: Clients, cs': Clients, w: Waiting, next: int)
    requires Indexed(cs, w, next)
    requires cs'.Keys == cs.Keys && forall c :: c in cs ==> cs'[c].keys == cs[c].keys
    ensures Indexed(cs', w, next)
  {
    forall k | k in w ensures GoodList(cs', k, w[k], next) {
      assert GoodList(cs, k, w[k], next);
      assert forall i :: 0 <= i < |w[k]| ==> Stored(cs, k, w[k][i]);
    }
    forall c | c in cs' ensures Listed(cs', w, c) {
      assert Listed(cs, w, c);
    }
  }

  lemma TwoWrites(cs: Clients, c: ClientId, a: Client, b: Client)
    ensures cs[c := a][c := b] == cs[c := b]
    ensures cs[c := a][c] == a
    ensures c in cs ==> cs[c := cs[c]] == cs
  {
  }

  /** The waiting list without the client's nodes. */
  function Drop(list: seq<Node>, c: ClientId): seq<Node> {
    if list == [] then []
    else (if list[0].client == c then [] else [list[0]]) + Drop(list[1..], c)
  }

  lemma {:induction false} DropNothing(list: seq<Node>, c: ClientId)
    requires forall i :: 0 <= i < |list| ==> list[i].client != c
    ensures Drop(list, c) == list
  {
    if list != [] {
      assert list[1..] == list[1..];
      forall i | 0 <= i < |list[1..]| ensures list[1..][i].client != c { assert list[1..][i] == list[i + 1]; }
      DropNothing(list[1..], c);
    }
  }

  /** A client has one node in a list, so removing that node removes the client. */
  lemma {:induction false} DropsOneNode(list: seq<Node>, n: Node)
    requires n in list && forall i, j :: 0 <= i < j < |list| ==> list[i].client != list[j].client
    ensures Without(list, n) == Drop(list, n.client)
  {
    var rest := list[1..];
    assert forall i :: 0 <= i < |rest| ==> rest[i] == list[i + 1];
    if list[0] == n {
      DropNothing(rest, n.client);
    } else {
      assert n in rest;
      DropsOneNode(rest, n);
    }
  }

  /** The client after unblockClient. */
  function Released(cl: Client): Client {
    cl.(blocked := false, unblocked := true, btype := NotBlocked, keys := map[], target := None)
  }

  function Remove(q: seq<ClientId>, c: ClientId): seq<ClientId> {
    if q == [] then [] else if q[0] == c then q[1..] else [q[0]] + Remove(q[1..], c)
  }

  lemma AppendLists<T(!new)>(q: seq<T>, s: set<T>, x: T)
    requires Lists(q, s) && x !in s
    ensures Lists(q + [x], s + {x})
  {
    assert forall y :: y in q ==> y in q + [x];
    assert x in q + [x];
  }

  lemma FirstOf<T(!new)>(q: seq<T>, s: set<T>)
    requires Lists(q, s) && q != []
    ensures q[0] in s && Lists(q[1..], s - {q[0]})
  {
    var rest := q[1..];
    assert forall i :: 0 <= i < |rest| ==> rest[i] == q[i + 1];
    assert q == [q[0]] + rest;
  }

  lemma PrependLists(x: ClientId, q: seq<ClientId>, s: set<ClientId>)
    requires Lists(q, s) && x !in s
    ensures Lists([x] + q, s + {x})
  {
    var all := [x] + q;
    assert forall i :: 0 < i < |all| ==> all[i] == q[i - 1];
    assert all[0] == x && forall y :: y in q ==> y in all;
  }

  lemma {:induction false} RemoveLists(q: seq<ClientId>, s: set<ClientId>, c: ClientId)
    requires Lists(q, s) && c in s
    ensures Lists(Remove(q, c), s - {c})
  {
    FirstOf(q, s);
    if q[0] != c {
      hide Lists;
      RemoveLists(q[1..], s - {q[0]}, c);
      PrependLists(q[0], Remove(q[1..], c), s - {q[0]} - {c});
      assert s - {q[0]} - {c} + {q[0]} == s - {c};
    }
  }

  lemma UnblockedAreClients(cs: Clients)
    ensures UnblockedSet(cs) <= cs.Keys
  {
  }

  class Server {
    var clients: Clients
    var waiting: Waiting                    // db->blocking_keys
    var nextNode: int
    var blockedClients: int
    var blockedByType: map<BlockType, int>
    var unblocked: seq<ClientId>            // server.unblocked_clients
    var paused: seq<ClientId>               // server.paused_clients
    var dict: Dict
    var readyKeys: seq<Key>                 // server.ready_keys
    var readySet: set<Key>                  // db->ready_keys
    var propagated: seq<Command>
    var replies: seq<Reply>                 // to blocked clients, in the order sent
    // The entries of the list being drained that were not taken yet.
    ghost var draining: seq<Key>

    ghost predicate ValidBut(c: ClientId)
      reads this
    {
      && Indexed(clients, waiting, nextNode)
      && (forall d :: d in clients && d != c ==> Sane(clients[d]))
      && Counted(clients, blockedClients, blockedByType)
      && Lists(unblocked, UnblockedSet(clients))
      && Lists(paused, OfType(clients, OnPause))
      && Lists(draining + readyKeys, readySet)
    }

    ghost predicate Valid()
      reads this
    {
      && Indexed(clients, waiting, nextNode)
      && AllSane(clients)
      && Counted(clients, blockedClients, blockedByType)
      && Lists(unblocked, UnblockedSet(clients))
      && Lists(paused, OfType(clients, OnPause))
      && Lists(draining + readyKeys, readySet)
    }

    constructor ()
      ensures Valid() && clients == map[] && dict == map[] && readyKeys == [] && draining == []
    {
      clients, waiting, nextNode, blockedClients := map[], map[], 0, 0;
      blockedByType := map[NotBlocked := 0, OnList := 0, OnZset := 0, OnStream := 0, OnWait := 0, OnPause := 0];
      unblocked, paused, dict, readyKeys, readySet, propagated, replies, draining := [], [], map[], [], {}, [], [], [];
      new;
      assert BlockedSet(clients) == {};
      forall t: BlockType ensures t in blockedByType && blockedByType[t] == |OfType(clients, t)| {
        assert OfType(clients, t) == {};
        match t
        case NotBlocked =>
        case OnList =>
        case OnZset =>
        case OnStream =>
        case OnWait =>
        case OnPause =>
      }
    }

    method BlockClient(c: ClientId, btype: BlockType)
      requires ValidBut(c) && c in clients && !clients[c].blocked && clients[c].btype == NotBlocked
      requires Sane(clients[c].(blocked := true, btype := btype)) && btype != NotBlocked
      modifies `clients, `blockedClients, `blockedByType, `paused
      ensures Valid()
      ensures clients == old(clients)[c := old(clients)[c].(blocked := true, btype := btype)]
      ensures paused == old(paused) + if btype == OnPause then [c] else []
    {
      hide Indexed, GoodList, Listed, Counted, Lists, BlockedSet, OfType, UnblockedSet;
      ghost var cs, cl := clients, clients[c].(blocked := true, btype := btype);
      CountedUp(cs, blockedClients, blockedByType, c, cl);
      SameKeys(cs, cs[c := cl], waiting, nextNode);
      UnblockedSetAt(cs, c, cl);
      OfTypeAt(cs, c, cl, OnPause);
      clients := clients[c := clients[c].(blocked := true, btype := btype)];
      blockedClients := blockedClients + 1;
      blockedByType := blockedByType[btype := blockedByType[btype] + 1];
      assert UnblockedSet(clients) == UnblockedSet(cs);
      if btype == OnPause {
        AppendLists(paused, OfType(cs, OnPause), c);
        paused := paused + [c];
      } else {
        assert OfType(clients, OnPause) == OfType(cs, OnPause);
      }
    }

    // The loop of blockForKeys: a key given twice counts once.
    method EnlistOnKeys(c: ClientId, ks: seq<Key>) returns (keys: map<Key, int>)
      requires Indexed(clients, waiting, nextNode) && c in clients && clients[c].keys == map[]
      modifies `waiting, `nextNode
      ensures Indexed(clients[c := clients[c].(keys := keys)], waiting, nextNode)
      ensures keys.Keys == set k | k in ks
      ensures forall k :: ListOf(waiting, k) == ListOf(old(waiting), k) + if k in ks then [Node(keys[k], c)] else []
    {
      hide Indexed, GoodList, Listed, ListOf, WithWaiter, WithKeys;
      keys := map[];
      WithKeysIs(clients, c, keys);
      var j := 0;
      while j < |ks|
        invariant 0 <= j <= |ks|
        invariant forall k :: k in keys <==> k in ks[..j]
        invariant Indexed(WithKeys(clients, c, keys), waiting, nextNode)
        invariant forall k :: ListOf(waiting, k) ==
                              ListOf(old(waiting), k) + if k in keys then [Node(keys[k], c)] else []
      {
        assert ks[..j + 1] == ks[..j] + [ks[j]];
        if ks[j] !in keys {
          AddStep(clients, keys, waiting, nextNode, c, ks[j]);
          waiting := WithWaiter(waiting, ks[j], Node(nextNode, c));
          keys := keys[ks[j] := nextNode];
          nextNode := nextNode + 1;
        }
        j := j + 1;
      }
      assert ks[..|ks|] == ks;
      WithKeysIs(clients, c, keys);
    }

    method BlockForKeys(c: ClientId, btype: BlockType, ks: seq<Key>, target: Option<Key>, from: End, to: End)
      requires Valid() && c in clients && !clients[c].blocked && WaitsForData(btype) && ks != []
      modifies `clients, `waiting, `nextNode, `blockedClients, `blockedByType, `paused
      ensures Valid()
      ensures c in clients
      ensures clients == old(clients)[c := old(clients)[c].(blocked := true, btype := btype, target := target,
                                                            wherefrom := from, whereto := to, keys := clients[c].keys)]
      ensures clients[c].keys.Keys == set k | k in ks
      // Last in the queue of each of its keys, and in no other queue.
      ensures forall k :: ListOf(waiting, k) ==
                          ListOf(old(waiting), k) + if k in ks then [Node(clients[c].keys[k], c)] else []
      ensures paused == old(paused)
    {
      hide Indexed, GoodList, Listed, Counted, Lists, BlockedSet, OfType, UnblockedSet, ListOf;
      ghost var cs := clients;
      assert Sane(cs[c]);
      var keys := EnlistOnKeys(c, ks);
      assert ks[0] in keys;
      ghost var mid := cs[c].(target := target, wherefrom := from, whereto := to, keys := keys);
      SameKeys(cs[c := cs[c].(keys := keys)], cs[c := mid], waiting, nextNode);
      clients := clients[c := clients[c].(target := target, wherefrom := from, whereto := to, keys := keys)];
      OthersChanged(cs, c, mid, blockedClients, blockedByType);
      BlockClient(c, btype);
      TwoWrites(cs, c, mid, clients[c]);
    }

    method UnblockClientWaitingData(c: ClientId)
      requires Indexed(clients, waiting, nextNode) && c in clients && clients[c].keys != map[]
      modifies `clients, `waiting
      ensures clients == old(clients)[c := old(clients)[c].(keys := map[], target := None)]
      ensures Indexed(clients, waiting, nextNode)
      ensures forall k :: ListOf(waiting, k) == Drop(ListOf(old(waiting), k), c)
    {
      hide Indexed, GoodList, Listed, Drop, Without, ListOf, WithoutWaiter, WithKeys;
      ghost var w := waiting;
      var rest := clients[c].keys;
      DropsNowhereElse(clients, w, nextNode, c);
      WithKeysIs(clients, c, rest);
      while rest != map[]
        modifies `waiting
        invariant forall k :: k in rest ==> k in clients[c].keys
        invariant Indexed(WithKeys(clients, c, rest), waiting, nextNode)
        invariant forall k :: ListOf(waiting, k) == if k in rest then ListOf(w, k) else Drop(ListOf(w, k), c)
        decreases |rest|
      {
        var k :| k in rest;
        RemoveStep(clients, rest, waiting, nextNode, c, k);
        waiting := WithoutWaiter(waiting, k, Node(rest[k], c));
        rest := rest - {k};
      }
      WithKeysIs(clients, c, rest);
      ghost var mid := WithKeys(clients, c, rest);
      clients := clients[c := clients[c].(keys := map[], target := None)];
      SameKeys(mid, clients, waiting, nextNode);
    }

    method QueueClientForReprocessing(c: ClientId)
      requires c in clients && Lists(unblocked, UnblockedSet(clients))
      modifies `clients, `unblocked
      ensures clients == old(clients)[c := old(clients)[c].(unblocked := true)]
      ensures Lists(unblocked, UnblockedSet(clients))
      ensures unblocked == old(unblocked) + if c in old(unblocked) then [] else [c]
    {
      ghost var s := UnblockedSet(clients);
      assert c in s <==> clients[c].unblocked;
      if !clients[c].unblocked {
        AppendLists(unblocked, s, c);
        clients := clients[c := clients[c].(unblocked := true)];
        unblocked := unblocked + [c];
        assert UnblockedSet(clients) == s + {c};
      } else {
        assert clients == clients[c := clients[c].(unblocked := true)];
      }
    }

    // The switch of unblockClient. The panic on an unknown type is never reached: a blocked client has one.
    method Unlink(c: ClientId)
      requires Valid() && c in clients && clients[c].blocked
      modifies `clients, `waiting, `paused
      ensures clients == old(clients)[c := old(clients)[c].(keys := map[], target := None)]
      ensures Indexed(clients, waiting, nextNode)
      ensures forall k :: ListOf(waiting, k) == Drop(ListOf(old(waiting), k), c)
      ensures Lists(paused, OfType(old(clients), OnPause) - {c})
      ensures paused == if old(clients)[c].btype == OnPause then Remove(old(paused), c) else old(paused)
    {
      hide Indexed, GoodList, Listed, Counted, Drop, Remove, Lists, BlockedSet, OfType, UnblockedSet, ListOf;
      ghost var cs := clients;
      assert Sane(cs[c]);
      OfTypeAt(cs, c, cs[c], OnPause);
      if WaitsForData(clients[c].btype) {
        UnblockClientWaitingData(c);
        assert OfType(cs, OnPause) - {c} == OfType(cs, OnPause);
      } else {
        DropsNowhereElse(cs, waiting, nextNode, c);
        TwoWrites(cs, c, cs[c], cs[c]);
        if clients[c].btype == OnPause {
          RemoveLists(paused, OfType(cs, OnPause), c);
          paused := Remove(paused, c);
        } else {
          assert OfType(cs, OnPause) - {c} == OfType(cs, OnPause);
        }
      }
    }

    method UnblockClient(c: ClientId)
      requires Valid() && c in clients && clients[c].blocked
      modifies `clients, `waiting, `blockedClients, `blockedByType, `unblocked, `paused
      ensures Valid()
      ensures clients == old(clients)[c := Released(old(clients)[c])]
      ensures forall k :: ListOf(waiting, k) == Drop(ListOf(old(waiting), k), c)
      ensures blockedClients == old(blockedClients) - 1
      ensures unblocked == old(unblocked) + if c in old(unblocked) then [] else [c]
      ensures paused == if old(clients)[c].btype == OnPause then Remove(old(paused), c) else old(paused)
    {
      hide Indexed, GoodList, Listed, Counted, Drop, Remove, Lists, BlockedSet, OfType, UnblockedSet, ListOf, AllSane;
      ghost var cs, mid := clients, clients[c].(keys := map[], target := None);
      CountedDown(cs, blockedClients, blockedByType, c, Released(cs[c]));
      OfTypeAt(cs, c, Released(cs[c]), OnPause);
      StillSane(cs, c, Released(cs[c]));
      Unlink(c);
      blockedClients := blockedClients - 1;
      blockedByType := blockedByType[clients[c].btype := blockedByType[clients[c].btype] - 1];
      clients := clients[c := clients[c].(blocked := false, btype := NotBlocked)];
      TwoWrites(cs, c, mid, clients[c]);
      TwoWrites(cs, c, clients[c], Released(cs[c]));
      UnblockedSetAt(cs, c, clients[c]);
      SameKeys(cs[c := mid], cs[c := Released(cs[c])], waiting, nextNode);
      QueueClientForReprocessing(c);
    }

    // dictAdd(db->ready_keys) cannot fail: the key is not in it.
    method SignalKeyAsReady(k: Key, o: Object)
      requires Valid()
      modifies `readyKeys, `readySet
      ensures Valid()
      ensures readyKeys == old(readyKeys) || (k !in old(readySet) && readyKeys == old(readyKeys) + [k])
      ensures readySet == old(readySet) || readySet == old(readySet) + {k}
      // Exactly when a client waits for a value of that type, and some client waits for the key.
      ensures k in readySet <==>
              k in old(readySet) || (k in waiting && exists c :: c in clients && Awaits(clients[c], o))
      ensures k in readySet <==> k in old(readySet) || (OfType(clients, BlockedTypeOf(o)) != {} && k in waiting)
    {
      hide Indexed, GoodList, Listed, Lists;
      var btype := BlockedTypeOf(o);
      SomeoneAwaits(clients, o);
      assert btype == NotBlocked ==> OfType(clients, btype) == {} by {
        assert forall c :: c in OfType(clients, NotBlocked) ==> Sane(clients[c]);
      }
      if btype == NotBlocked { return; }
      if blockedByType[btype] == 0 { return; }
      if k !in waiting { return; }
      if k in readySet { return; }
      AppendLists(draining + readyKeys, readySet, k);
      assert draining + readyKeys + [k] == draining + (readyKeys + [k]);
      readyKeys := readyKeys + [k];
      readySet := readySet + {k};
    }

    // One step of processUnblockedClients: the client may now be served like any other.
    method NextUnblocked() returns (c: ClientId)
      requires Valid() && unblocked != []
      modifies `clients, `unblocked
      ensures Valid()
      ensures c == old(unblocked)[0] && unblocked == old(unblocked)[1..] && c in old(clients)
      ensures clients == old(clients)[c := old(clients)[c].(unblocked := false)]
    {
      hide Indexed, GoodList, Listed, Counted, BlockedSet, OfType, UnblockedSet, Lists;
      ghost var cs, s := clients, UnblockedSet(clients);
      c := unblocked[0];
      FirstOf(unblocked, s);
      UnblockedAreClients(cs);
      unblocked := unblocked[1..];
      clients := clients[c := clients[c].(unblocked := false)];
      SameKeys(cs, clients, waiting, nextNode);
      CountedSame(cs, blockedClients, blockedByType, c, clients[c]);
      UnblockedSetAt(cs, c, clients[c]);
      OfTypeAt(cs, c, clients[c], OnPause);
      assert OfType(clients, OnPause) == OfType(cs, OnPause);
    }
  }

  /** A client that does not wait for `k` has no node in its list. */
  lemma NotListed(cs: Clients, w: Waiting, next: int, c: ClientId, k: Key)
    requires Indexed(cs, w, next) && c in cs && k !in cs[c].keys
    ensures Drop(ListOf(w, k), c) == ListOf(w, k)
  {
    if k in w {
      assert GoodList(cs, k, w[k], next);
      assert forall i :: 0 <= i < |w[k]| ==> Stored(cs, k, w[k][i]);
      DropNothing(w[k], c);
    }
  }

  lemma DropsNowhereElse(cs: Clients, w: Waiting, next: int, c: ClientId)
    requires Indexed(cs, w, next) && c in cs
    ensures forall k :: k !in cs[c].keys ==> Drop(ListOf(w, k), c) == ListOf(w, k)
  {
    forall k | k !in cs[c].keys ensures Drop(ListOf(w, k), c) == ListOf(w, k) {
      NotListed(cs, w, next, c, k);
    }
  }

  lemma WithKeysIs(cs: Clients, c: ClientId, keys: map<Key, int>)
    requires c in cs
    ensures WithKeys(cs, c, keys) == cs[c := cs[c].(keys := keys)]
    ensures keys == cs[c].keys ==> WithKeys(cs, c, keys) == cs
  {
  }

  /** A change of what a client waits for leaves the counters and the queues as they are. */
  lemma OthersChanged(cs: Clients, c: ClientId, cl: Client, n: int, byType: map<BlockType, int>)
    requires c in cs && Counted(cs, n, byType)
    requires cs[c].blocked == cl.blocked && cs[c].btype == cl.btype && cs[c].unblocked == cl.unblocked
    ensures Counted(cs[c := cl], n, byType)
    ensures UnblockedSet(cs[c := cl]) == UnblockedSet(cs) && OfType(cs[c := cl], OnPause) == OfType(cs, OnPause)
  {
    CountedSame(cs, n, byType, c, cl);
    UnblockedSetAt(cs, c, cl);
    SameOfType(cs, c, cl, OnPause);
  }

  function WithKeys(cs: Clients, c: ClientId, keys: map<Key, int>): Clients
    requires c in cs
  {
    cs[c := cs[c].(keys := keys)]
  }

  lemma AddStep(cs: Clients, keys: map<Key, int>, w: Waiting, next: int, c: ClientId, k: Key)
    requires c in cs && Indexed(WithKeys(cs, c, keys), w, next) && k !in keys
    ensures Indexed(WithKeys(cs, c, keys[k := next]), WithWaiter(w, k, Node(next, c)), next + 1)
    ensures forall l :: ListOf(WithWaiter(w, k, Node(next, c)), l) ==
                        ListOf(w, l) + if l == k then [Node(next, c)] else []
  {
    hide Indexed;
    var cs0 := WithKeys(cs, c, keys);
    WaiterAdded(cs0, w, next, c, k);
    assert cs0[c := cs0[c].(keys := cs0[c].keys[k := next])] == WithKeys(cs, c, keys[k := next]);
  }

  lemma RemoveStep(cs: Clients, keys: map<Key, int>, w: Waiting, next: int, c: ClientId, k: Key)
    requires c in cs && Indexed(WithKeys(cs, c, keys), w, next) && k in keys
    ensures k in w
    ensures Indexed(WithKeys(cs, c, keys - {k}), WithoutWaiter(w, k, Node(keys[k], c)), next)
    ensures forall l :: ListOf(WithoutWaiter(w, k, Node(keys[k], c)), l) ==
                        if l == k then Drop(ListOf(w, k), c) else ListOf(w, l)
  {
    hide Indexed, Without, Drop, GoodList;
    var cs0 := WithKeys(cs, c, keys);
    WaiterRemoved(cs0, w, next, c, k);
    OneNode(cs0, w, next, c, k);
    assert cs0[c := cs0[c].(keys := cs0[c].keys - {k})] == WithKeys(cs, c, keys - {k});
  }

  lemma OneNode(cs: Clients, w: Waiting, next: int, c: ClientId, k: Key)
    requires Indexed(cs, w, next) && c in cs && k in cs[c].keys
    ensures Without(ListOf(w, k), Node(cs[c].keys[k], c)) == Drop(ListOf(w, k), c)
  {
    assert Listed(cs, w, c);
    assert GoodList(cs, k, w[k], next);
    DropsOneNode(w[k], Node(cs[c].keys[k], c));
  }
}
