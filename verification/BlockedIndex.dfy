// Blocked clients: the two-way index between clients and the keys they wait for, the counters,
// the queue of unblocked clients and the keys signalled as ready, as predicates on values.
module BlockedIndex {

  type ClientId = int
  datatype Key = Key(db: int, name: string)
  datatype Option<+T> = None | Some(value: T)

  // c->btype. BLOCKED_MODULE is not modelled.
  datatype BlockType = NotBlocked | OnList | OnZset | OnStream | OnWait | OnPause
  datatype End = Head | Tail

  // A list node of db->blocking_keys[key]; `id` is its address.
  datatype Node = Node(id: int, client: ClientId)

  datatype Client = Client(
    blocked: bool,          // CLIENT_BLOCKED
    unblocked: bool,        // CLIENT_UNBLOCKED
    btype: BlockType,
    keys: map<Key, int>,    // bpop.keys, with the address of the stored node
    target: Option<Key>,    // bpop.target
    wherefrom: End,         // bpop.listpos; for a sorted set, Head is BZPOPMIN
    whereto: End)

  type Clients = map<ClientId, Client>
  type Waiting = map<Key, seq<Node>>

  predicate WaitsForData(t: BlockType) {
    t.OnList? || t.OnZset? || t.OnStream?
  }

  // ---------------------------------------------------------------- the index

  /** The list for `k`: not empty; every node belongs to a client that waits for `k` and stores
      that node; no client and no node twice. */
  ghost predicate GoodList(cs: Clients, k: Key, list: seq<Node>, next: int) {
    && list != []
    && (forall i :: 0 <= i < |list| ==> Stored(cs, k, list[i]) && list[i].id < next)
    && (forall i, j :: 0 <= i < j < |list| ==> list[i].client != list[j].client && list[i].id != list[j].id)
  }

  predicate Stored(cs: Clients, k: Key, n: Node) {
    n.client in cs && k in cs[n.client].keys && cs[n.client].keys[k] == n.id
  }

  /** Every key that `c` waits for has its stored node in that key's list. */
  ghost predicate Listed(cs: Clients, w: Waiting, c: ClientId)
    requires c in cs
  {
    forall k :: k in cs[c].keys ==> k in w && Node(cs[c].keys[k], c) in w[k]
  }

  ghost predicate Indexed(cs: Clients, w: Waiting, next: int) {
    && (forall k :: k in w ==> GoodList(cs, k, w[k], next))
    && (forall c :: c in cs ==> Listed(cs, w, c))
  }

  function ListOf(w: Waiting, k: Key): seq<Node> {
    if k in w then w[k] else []
  }

  /** listAddNodeTail of a new node for `c`, and the other side of the index. */
  function WithWaiter(w: Waiting, k: Key, n: Node): Waiting {
    w[k := ListOf(w, k) + [n]]
  }

  lemma WaiterAdded(cs: Clients, w: Waiting, next: int, c: ClientId, k: Key)
    requires Indexed(cs, w, next) && c in cs && k !in cs[c].keys
    ensures Indexed(cs[c := cs[c].(keys := cs[c].keys[k := next])], WithWaiter(w, k, Node(next, c)), next + 1)
  {
    var cs', w', n := cs[c := cs[c].(keys := cs[c].keys[k := next])], WithWaiter(w, k, Node(next, c)), Node(next, c);
    forall l | l in w' ensures GoodList(cs', l, w'[l], next + 1) {
      if l in w {
        assert GoodList(cs, l, w[l], next);
        StillStored(cs, cs', c, l, w[l]);
      }
      if l == k { ListGrows(cs, cs', k, ListOf(w, k), n, next); }
    }
    forall d | d in cs' ensures Listed(cs', w', d) {
      assert Listed(cs, w, d);
      assert w'[k] == ListOf(w, k) + [n];
      assert n in w'[k];
    }
  }

  /** Nodes stay stored when their client gains a key, or loses another one. */
  lemma StillStored(cs: Clients, cs': Clients, c: ClientId, l: Key, list: seq<Node>)
    requires forall i :: 0 <= i < |list| ==> Stored(cs, l, list[i])
    requires c in cs && cs'.Keys == cs.Keys && forall d :: d in cs && d != c ==> cs'[d] == cs[d]
    requires l in cs[c].keys ==> l in cs'[c].keys && cs'[c].keys[l] == cs[c].keys[l]
    ensures forall i :: 0 <= i < |list| ==> Stored(cs', l, list[i])
  {
  }

  lemma ListGrows(cs: Clients, cs': Clients, k: Key, list: seq<Node>, n: Node, next: int)
    requires list == [] || GoodList(cs, k, list, next)
    requires forall i :: 0 <= i < |list| ==> Stored(cs', k, list[i])
    requires n.client in cs && k !in cs[n.client].keys && n.id == next && Stored(cs', k, n)
    ensures GoodList(cs', k, list + [n], next + 1)
  {
    assert forall i :: 0 <= i < |list| ==> Stored(cs, k, list[i]) && list[i].client != n.client;
  }

  /** listDelNode of the node that the client stores. */
  function Without(list: seq<Node>, n: Node): seq<Node> {
    if list == [] then []
    else if list[0] == n then list[1..]
    else [list[0]] + Without(list[1..], n)
  }

  /** The list without the node; a list that becomes empty goes. */
  function WithoutWaiter(w: Waiting, k: Key, n: Node): Waiting {
    var list := Without(ListOf(w, k), n);
    if list == [] then w - {k} else w[k := list]
  }

  lemma {:induction false} WithoutAt(list: seq<Node>, i: nat)
    requires i < |list| && forall j :: 0 <= j < i ==> list[j] != list[i]
    ensures Without(list, list[i]) == list[..i] + list[i + 1..]
    decreases i
  {
    if i > 0 {
      WithoutAt(list[1..], i - 1);
      assert [list[0]] + (list[1..i] + list[i + 1..]) == list[..i] + list[i + 1..];
      assert list[1..][..i - 1] == list[1..i] && list[1..][i..] == list[i + 1..];
    }
  }

  /** Where the removed node was, and where every other node went. */
  lemma WithoutParts(list: seq<Node>, n: Node) returns (at: nat)
    requires n in list
    requires forall i, j :: 0 <= i < j < |list| ==> list[i] != list[j]
    ensures at < |list| && list[at] == n
    ensures |Without(list, n)| == |list| - 1
    ensures forall i :: 0 <= i < at ==> Without(list, n)[i] == list[i]
    ensures forall i :: at <= i < |list| - 1 ==> Without(list, n)[i] == list[i + 1]
  {
    at :| 0 <= at < |list| && list[at] == n;
    WithoutAt(list, at);
  }

  lemma ListShrinks(cs: Clients, cs': Clients, k: Key, list: seq<Node>, n: Node, next: int)
    requires GoodList(cs, k, list, next) && n in list
    requires n.client in cs && cs'.Keys == cs.Keys && forall d :: d in cs && d != n.client ==> cs'[d] == cs[d]
    ensures Without(list, n) == [] || GoodList(cs', k, Without(list, n), next)
    ensures forall m :: m in list && m != n ==> m in Without(list, n)
  {
    hide Without;
    var at := WithoutParts(list, n);
    var rest := Without(list, n);
    forall i | 0 <= i < |rest| ensures Stored(cs', k, rest[i]) && rest[i].id < next {
      assert rest[i] == list[if i < at then i else i + 1];
      assert Stored(cs, k, list[if i < at then i else i + 1]);
    }
    forall i, j | 0 <= i < j < |rest| ensures rest[i].client != rest[j].client && rest[i].id != rest[j].id {
      assert rest[i] == list[if i < at then i else i + 1];
      assert rest[j] == list[if j < at then j else j + 1];
    }
    forall m | m in list && m != n ensures m in rest {
      var i :| 0 <= i < |list| && list[i] == m;
      assert rest[if i < at then i else i - 1] == m;
    }
  }

  lemma WaiterRemoved(cs: Clients, w: Waiting, next: int, c: ClientId, k: Key)
    requires Indexed(cs, w, next) && c in cs && k in cs[c].keys
    ensures k in w && Node(cs[c].keys[k], c) in w[k]
    ensures Indexed(cs[c := cs[c].(keys := cs[c].keys - {k})], WithoutWaiter(w, k, Node(cs[c].keys[k], c)), next)
  {
    var n := Node(cs[c].keys[k], c);
    var cs', w' := cs[c := cs[c].(keys := cs[c].keys - {k})], WithoutWaiter(w, k, n);
    assert Listed(cs, w, c);
    assert GoodList(cs, k, w[k], next);
    ListShrinks(cs, cs', k, w[k], n, next);
    forall l | l in w' ensures GoodList(cs', l, w'[l], next) {
      if l != k {
        assert GoodList(cs, l, w[l], next);
        StillStored(cs, cs', c, l, w[l]);
      }
    }
    forall d | d in cs' ensures Listed(cs', w', d) {
      assert Listed(cs, w, d);
    }
  }
}
