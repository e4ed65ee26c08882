// adlist.c: the doubly linked list, on heap nodes.
module Adlist {

  datatype Option<+T> = None | Some(value: T)

  class Node<V> {
    var prev: Node?<V>
    var next: Node?<V>
    var value: V

    constructor (v: V)
      ensures value == v && fresh(this)
    {
      value := v;
      prev, next := null, null;
    }
  }

  /** The i-th node; null beside the list. */
  ghost function At<V>(s: seq<Node<V>>, i: int): Node?<V> {
    if 0 <= i < |s| then s[i] else null
  }

  ghost predicate Distinct<V>(s: seq<Node<V>>) {
    forall i, j :: 0 <= i < j < |s| ==> s[i] != s[j]
  }

  ghost predicate Linked<V>(s: seq<Node<V>>)
    reads s
  {
    forall i :: 0 <= i < |s| ==> s[i].prev == At(s, i - 1) && s[i].next == At(s, i + 1)
  }

  ghost function ValuesOf<V>(s: seq<Node<V>>): (r: seq<V>)
    reads s
    ensures |r| == |s| && forall i :: 0 <= i < |s| ==> r[i] == s[i].value
  {
    if s == [] then [] else [s[0].value] + ValuesOf(s[1..])
  }

  ghost function Prevs<V>(s: seq<Node<V>>): (r: seq<Node?<V>>)
    reads s
    ensures |r| == |s| && forall i :: 0 <= i < |s| ==> r[i] == s[i].prev
  {
    if s == [] then [] else Prevs(s[..|s| - 1]) + [s[|s| - 1].prev]
  }

  ghost function Nexts<V>(s: seq<Node<V>>): (r: seq<Node?<V>>)
    reads s
    ensures |r| == |s| && forall i :: 0 <= i < |s| ==> r[i] == s[i].next
  {
    if s == [] then [] else Nexts(s[..|s| - 1]) + [s[|s| - 1].next]
  }

  /** The pointers of a well-formed list, as values. */
  ghost predicate Shape<V>(s: seq<Node<V>>, ps: seq<Node?<V>>, ns: seq<Node?<V>>) {
    |ps| == |ns| == |s| && forall i :: 0 <= i < |s| ==> ps[i] == At(s, i - 1) && ns[i] == At(s, i + 1)
  }

  lemma ShapeIs<V>(s: seq<Node<V>>)
    requires Linked(s)
    ensures Shape(s, Prevs(s), Nexts(s))
  {
  }

  lemma ShapeAt<V>(s: seq<Node<V>>, ps: seq<Node?<V>>, ns: seq<Node?<V>>, i: int)
    requires Shape(s, ps, ns) && 0 <= i < |s|
    ensures |ps| == |ns| == |s| && ps[i] == At(s, i - 1) && ns[i] == At(s, i + 1)
  {
  }

  lemma InsertedAt<T>(s: seq<T>, k: int, x: T)
    requires 0 <= k <= |s|
    ensures var t := s[..k] + [x] + s[k..];
            && t[k] == x && (forall j :: 0 <= j < k ==> t[j] == s[j]) && (forall j :: k < j < |t| ==> t[j] == s[j - 1])
  {
  }

  /** `s` without its i-th node, whose neighbours were joined. */
  lemma LinkedWithout<V>(s: seq<Node<V>>, ps: seq<Node?<V>>, ns: seq<Node?<V>>, i: int)
    requires Distinct(s) && 0 <= i < |s| && |ps| == |ns| == |s| && Shape(s, ps, ns)
    requires forall k :: 0 <= k < |s| && k != i ==>
               && s[k].prev == (if k == i + 1 then ps[i] else ps[k])
               && s[k].next == (if k == i - 1 then ns[i] else ns[k])
    ensures Linked(s[..i] + s[i + 1..]) && Distinct(s[..i] + s[i + 1..])
  {
    var t := s[..i] + s[i + 1..];
    forall k | 0 <= k < |t| ensures t[k].prev == At(t, k - 1) && t[k].next == At(t, k + 1) {
      assert t[k] == s[if k < i then k else k + 1];
    }
  }

  lemma DistinctWith<V>(s: seq<Node<V>>, k: int, node: Node<V>)
    requires Distinct(s) && 0 <= k <= |s| && node !in s
    ensures Distinct(s[..k] + [node] + s[k..])
  {
    var t := s[..k] + [node] + s[k..];
    InsertedAt(s, k, node);
    forall i, j | 0 <= i < j < |t| ensures t[i] != t[j] {
      assert t[i] == if i < k then s[i] else if i == k then node else s[i - 1];
      assert t[j] == if j < k then s[j] else if j == k then node else s[j - 1];
    }
  }

  lemma OnlyAt<V>(s: seq<Node<V>>, i: int, j: int)
    requires Distinct(s) && 0 <= i < |s| && 0 <= j < |s| && s[i] == s[j]
    ensures i == j
  {
  }

  lemma EndsWithout<V>(s: seq<Node<V>>, i: int)
    requires 0 <= i < |s|
    ensures var t := s[..i] + s[i + 1..];
            && At(t, 0) == (if i == 0 then At(s, 1) else At(s, 0))
            && At(t, |t| - 1) == (if i == |s| - 1 then At(s, i - 1) else At(s, |s| - 1))
  {
  }

  /** `s` with a node inserted before the k-th one. */
  lemma LinkedWith<V>(s: seq<Node<V>>, ps: seq<Node?<V>>, ns: seq<Node?<V>>, k: int, node: Node<V>)
    requires Distinct(s) && 0 <= k <= |s| && node !in s && |ps| == |ns| == |s| && Shape(s, ps, ns)
    requires node.prev == At(s, k - 1) && node.next == At(s, k)
    requires forall j :: 0 <= j < |s| ==>
               && s[j].prev == (if j == k then node else ps[j])
               && s[j].next == (if j == k - 1 then node else ns[j])
    ensures Linked(s[..k] + [node] + s[k..]) && Distinct(s[..k] + [node] + s[k..])
  {
    hide Distinct;
    DistinctWith(s, k, node);
    var t := s[..k] + [node] + s[k..];
    InsertedAt(s, k, node);
    forall j | 0 <= j < |t| ensures t[j].prev == At(t, j - 1) && t[j].next == At(t, j + 1) {
      if j < k {
        assert t[j] == s[j];
      } else if j > k {
        assert t[j] == s[j - 1];
      }
    }
  }

  /** Two lists, one behind the other. */
  lemma LinkedTogether<V>(s: seq<Node<V>>, ps: seq<Node?<V>>, ns: seq<Node?<V>>,
                          t: seq<Node<V>>, pt: seq<Node?<V>>, nt: seq<Node?<V>>)
    requires t != [] && |ps| == |ns| == |s| && |pt| == |nt| == |t| && Shape(s, ps, ns) && Shape(t, pt, nt)
    requires forall j :: 0 <= j < |s| ==>
               s[j].prev == ps[j] && s[j].next == (if j == |s| - 1 then t[0] else ns[j])
    requires forall j :: 0 <= j < |t| ==>
               t[j].next == nt[j] && t[j].prev == (if j == 0 then At(s, |s| - 1) else pt[j])
    ensures Linked(s + t)
  {
    forall j | 0 <= j < |s + t| ensures (s + t)[j].prev == At(s + t, j - 1) && (s + t)[j].next == At(s + t, j + 1) {
      if j >= |s| { assert (s + t)[j] == t[j - |s|]; }
    }
  }

  lemma HeadToTail<V>(s: seq<Node<V>>, ps: seq<Node?<V>>, ns: seq<Node?<V>>, n: int)
    requires Distinct(s) && n == |s| - 1 > 0 && |ps| == |ns| == |s| && Shape(s, ps, ns)
    requires forall k :: 0 <= k <= n ==>
               && s[k].prev == (if k == 0 then s[n] else if k == 1 then null else ps[k])
               && s[k].next == (if k == 0 then null else if k == n then s[0] else ns[k])
    ensures Linked(s[1..] + [s[0]]) && Distinct(s[1..] + [s[0]])
  {
    var t := s[1..] + [s[0]];
    forall k | 0 <= k <= n ensures t[k].prev == At(t, k - 1) && t[k].next == At(t, k + 1) {
      assert t[k] == s[if k < n then k + 1 else 0];
    }
  }

  lemma TailToHead<V>(s: seq<Node<V>>, ps: seq<Node?<V>>, ns: seq<Node?<V>>, n: int)
    requires Distinct(s) && n == |s| - 1 > 0 && |ps| == |ns| == |s| && Shape(s, ps, ns)
    requires forall k :: 0 <= k <= n ==>
               && s[k].prev == (if k == n then null else if k == 0 then s[n] else ps[k])
               && s[k].next == (if k == n then s[0] else if k == n - 1 then null else ns[k])
    ensures Linked([s[n]] + s[..n]) && Distinct([s[n]] + s[..n])
  {
    var t := [s[n]] + s[..n];
    forall k | 0 <= k <= n ensures t[k].prev == At(t, k - 1) && t[k].next == At(t, k + 1) {
      assert t[k] == s[if k > 0 then k - 1 else n];
    }
  }

  lemma NoneShared<V>(s: seq<Node<V>>, t: seq<Node<V>>)
    requires forall n :: n in s ==> n !in t
    ensures forall i, j :: 0 <= i < |s| && 0 <= j < |t| ==> s[i] != t[j]
    ensures Distinct(s) && Distinct(t) ==> Distinct(s + t)
  {
    forall i, j | 0 <= i < |s| && 0 <= j < |t| ensures s[i] != t[j] {
      assert s[i] in s && t[j] in t;
    }
    if Distinct(s) && Distinct(t) {
      forall i, j | 0 <= i < j < |s + t| ensures (s + t)[i] != (s + t)[j] {
        assert (s + t)[j] == if j < |s| then s[j] else t[j - |s|];
        assert (s + t)[i] == if i < |s| then s[i] else t[i - |s|];
      }
    }
  }

  lemma LinkedNone<V>(s: seq<Node<V>>)
    requires s == []
    ensures Linked(s)
  {
  }

  class List<V> {
    var head: Node?<V>
    var tail: Node?<V>
    var len: int
    // The nodes from head to tail.
    ghost var nodes: seq<Node<V>>

    ghost predicate Valid()
      reads this, nodes
    {
      && len == |nodes|
      && head == At(nodes, 0) && tail == At(nodes, |nodes| - 1)
      && Distinct(nodes) && Linked(nodes)
    }

    ghost function Values(): seq<V>
      reads this, nodes
    {
      ValuesOf(nodes)
    }

    // listCreate
    constructor ()
      ensures Valid() && nodes == []
    {
      head, tail, len := null, null, 0;
      nodes := [];
    }

    method AddNodeHead(value: V) returns (node: Node<V>)
      requires Valid()
      modifies this, nodes`prev, nodes`next
      ensures Valid() && fresh(node) && node.value == value
      ensures nodes == [node] + old(nodes)
    {
      hide Linked, ValuesOf, Shape, Prevs, Nexts;
      ghost var ps, ns := Prevs(nodes), Nexts(nodes);
      ShapeIs(nodes);
      node := new Node(value);
      if len == 0 {
        head := node;
        tail := node;
        node.prev := null;
        node.next := null;
      } else {
        node.prev := null;
        node.next := head;
        head.prev := node;
        head := node;
      }
      len := len + 1;
      LinkedWith(nodes, ps, ns, 0, node);
      assert nodes[..0] + [node] + nodes[0..] == [node] + nodes;
      nodes := [node] + nodes;
    }

    method AddNodeTail(value: V) returns (node: Node<V>)
      requires Valid()
      modifies this, nodes`prev, nodes`next
      ensures Valid() && fresh(node) && node.value == value
      ensures nodes == old(nodes) + [node]
      ensures Values() == old(Values()) + [value]
    {
      hide Linked, ValuesOf, Shape, Prevs, Nexts;
      ghost var ps, ns := Prevs(nodes), Nexts(nodes);
      ShapeIs(nodes);
      node := new Node(value);
      if len == 0 {
        head := node;
        tail := node;
        node.prev := null;
        node.next := null;
      } else {
        node.prev := tail;
        node.next := null;
        tail.next := node;
        tail := node;
      }
      len := len + 1;
      LinkedWith(nodes, ps, ns, |nodes|, node);
      assert nodes[..|nodes|] + [node] + nodes[|nodes|..] == nodes + [node];
      nodes := nodes + [node];
    }

    method InsertNode(oldNode: Node<V>, value: V, after: bool) returns (node: Node<V>, ghost k: int)
      requires Valid() && oldNode in nodes
      modifies this, nodes`prev, nodes`next
      ensures Valid() && fresh(node) && node.value == value
      ensures 0 <= k <= |old(nodes)| && nodes == old(nodes)[..k] + [node] + old(nodes)[k..]
      ensures if after then k > 0 && old(nodes)[k - 1] == oldNode else k < |old(nodes)| && old(nodes)[k] == oldNode
    {
      hide Linked, ValuesOf, Shape, Prevs, Nexts;
      ghost var i :| 0 <= i < |nodes| && nodes[i] == oldNode;
      k := if after then i + 1 else i;
      ghost var ps, ns := Prevs(nodes), Nexts(nodes);
      ShapeIs(nodes);
      ShapeAt(nodes, ps, ns, i);
      node := new Node(value);
      if after {
        node.prev := oldNode;
        node.next := oldNode.next;
        if tail == oldNode { tail := node; }
      } else {
        node.next := oldNode;
        node.prev := oldNode.prev;
        if head == oldNode { head := node; }
      }
      Splice(node, k);
    }

    // The end of listInsertNode: the new node's neighbours learn of it.
    method Splice(node: Node<V>, ghost k: int)
      requires len == |nodes| && Distinct(nodes) && Linked(nodes) && 0 <= k <= |nodes| && node !in nodes
      requires node.prev == At(nodes, k - 1) && node.next == At(nodes, k)
      requires head == if k == 0 then node else At(nodes, 0)
      requires tail == if k == |nodes| then node else At(nodes, |nodes| - 1)
      modifies this`len, this`nodes, nodes`prev, nodes`next
      ensures Valid() && nodes == old(nodes)[..k] + [node] + old(nodes)[k..]
    {
      hide Linked, ValuesOf, Shape, Prevs, Nexts;
      ghost var ps, ns := Prevs(nodes), Nexts(nodes);
      ShapeIs(nodes);
      if node.prev != null { node.prev.next := node; }
      if node.next != null { node.next.prev := node; }
      len := len + 1;
      LinkedWith(nodes, ps, ns, k, node);
      nodes := nodes[..k] + [node] + nodes[k..];
    }

    // The node itself is freed.
    method DelNode(node: Node<V>) returns (ghost i: int)
      requires Valid() && node in nodes
      modifies this, nodes`prev, nodes`next
      ensures Valid()
      ensures 0 <= i < |old(nodes)| && old(nodes)[i] == node && nodes == old(nodes)[..i] + old(nodes)[i + 1..]
    {
      hide Linked, ValuesOf, Shape, Prevs, Nexts;
      i :| 0 <= i < |nodes| && nodes[i] == node;
      ghost var ps, ns := Prevs(nodes), Nexts(nodes);
      ShapeIs(nodes);
      ShapeAt(nodes, ps, ns, i);
      if node.prev != null { node.prev.next := node.next; } else { head := node.next; }
      if node.next != null { node.next.prev := node.prev; } else { tail := node.prev; }
      len := len - 1;
      LinkedWithout(nodes, ps, ns, i);
      EndsWithout(nodes, i);
      nodes := nodes[..i] + nodes[i + 1..];
    }

    method RotateTailToHead()
      requires Valid()
      modifies this, nodes`prev, nodes`next
      ensures Valid()
      ensures nodes == if |old(nodes)| <= 1 then old(nodes)
              else [old(nodes)[|old(nodes)| - 1]] + old(nodes)[..|old(nodes)| - 1]
    {
      hide Linked, ValuesOf, Shape, Prevs, Nexts;
      if len <= 1 { return; }
      ghost var n, ps, ns := |nodes| - 1, Prevs(nodes), Nexts(nodes);
      ShapeIs(nodes);
      ShapeAt(nodes, ps, ns, n);
      var last := tail;
      tail := last.prev;
      tail.next := null;
      head.prev := last;
      last.prev := null;
      last.next := head;
      head := last;
      TailToHead(nodes, ps, ns, n);
      nodes := [nodes[n]] + nodes[..n];
    }

    method RotateHeadToTail()
      requires Valid()
      modifies this, nodes`prev, nodes`next
      ensures Valid()
      ensures nodes == if |old(nodes)| <= 1 then old(nodes) else old(nodes)[1..] + [old(nodes)[0]]
    {
      hide Linked, ValuesOf, Shape, Prevs, Nexts;
      if len <= 1 { return; }
      ghost var n, ps, ns := |nodes| - 1, Prevs(nodes), Nexts(nodes);
      ShapeIs(nodes);
      ShapeAt(nodes, ps, ns, 0);
      var first := head;
      head := first.next;
      head.prev := null;
      tail.next := first;
      first.next := null;
      first.prev := tail;
      tail := first;
      HeadToTail(nodes, ps, ns, n);
      nodes := nodes[1..] + [nodes[0]];
    }

    // listJoin(this, o)
    method Join(o: List<V>)
      requires Valid() && o.Valid() && o != this && forall n :: n in nodes ==> n !in o.nodes
      modifies this, nodes`prev, nodes`next, o, o.nodes`prev, o.nodes`next
      ensures Valid() && o.Valid()
      ensures nodes == old(nodes) + old(o.nodes) && o.nodes == []
    {
      hide Linked, ValuesOf, Shape, Prevs, Nexts;
      ghost var ps, ns, pt, nt := Prevs(nodes), Nexts(nodes), Prevs(o.nodes), Nexts(o.nodes);
      ShapeIs(nodes);
      ShapeIs(o.nodes);
      NoneShared(nodes, o.nodes);
      if o.len == 0 { return; }
      o.head.prev := tail;
      if tail != null { tail.next := o.head; } else { head := o.head; }
      tail := o.tail;
      len := len + o.len;
      LinkedTogether(nodes, ps, ns, o.nodes, pt, nt);
      nodes := nodes + o.nodes;
      o.head := null;
      o.tail := null;
      o.len := 0;
      o.nodes := [];
      LinkedNone(o.nodes);
    }

    // listEmpty; the nodes are freed.
    method Empty()
      requires Valid()
      modifies this
      ensures Valid() && nodes == []
    {
      var current, left := head, len;
      ghost var k := 0;
      while left > 0
        invariant 0 <= left && k + left == |nodes| && k >= 0 && current == At(nodes, k)
      {
        left := left - 1;
        current := current.next;
        k := k + 1;
      }
      head := null;
      tail := null;
      len := 0;
      nodes := [];
    }

    /** listNext, for an iterator on the k-th node, or past an end: that node is returned, and the iterator goes on to
        its neighbour in the iterator's direction, or past that end for good. */
    method ListNext(iter: Node?<V>, fromHead: bool, ghost k: int) returns (current: Node?<V>, next: Node?<V>)
      requires Valid() && -1 <= k <= |nodes| && iter == At(nodes, k)
      ensures current == At(nodes, k)
      ensures next == At(nodes, if current == null then k else if fromHead then k + 1 else k - 1)
    {
      hide Distinct, Linked;
      current, next := iter, iter;
      if current != null {
        NextOf(nodes, k);
        next := if fromHead then current.next else current.prev;
      }
    }

    // listIndex: from the head, or from the tail when negative.
    method Index(index: int) returns (n: Node?<V>)
      requires Valid()
      ensures n == At(nodes, if index >= 0 then index else |nodes| + index)
    {
      hide Distinct, Linked;
      var left: int;
      if index < 0 {
        left := -index - 1;
        n := tail;
        ghost var k := |nodes| - 1;
        while left != 0 && n != null
          invariant left >= 0 && n == At(nodes, k) && k - left == |nodes| + index && k < |nodes|
          decreases left
        {
          NextOf(nodes, k);
          n := n.prev;
          left := left - 1;
          k := k - 1;
        }
      } else {
        left := index;
        n := head;
        ghost var k := 0;
        while left != 0 && n != null
          invariant left >= 0 && n == At(nodes, k) && k + left == index && k >= 0
          decreases left
        {
          NextOf(nodes, k);
          n := n.next;
          left := left - 1;
          k := k + 1;
        }
      }
    }

    // listSearchKey: the first node that matches; without a match method, the one with an equal value.
    method SearchKey(key: V, same: (V, V) -> bool) returns (node: Node?<V>)
      requires Valid()
      ensures node == null ==> forall i :: 0 <= i < |nodes| ==> !same(nodes[i].value, key)
      ensures node != null ==> exists k :: 0 <= k < |nodes| && node == nodes[k] && same(node.value, key) &&
                                           forall i :: 0 <= i < k ==> !same(nodes[i].value, key)
    {
      hide Distinct, Linked;
      ghost var k := 0;
      var next: Node?<V>;
      node, next := ListNext(head, true, 0);
      while node != null
        invariant 0 <= k <= |nodes| && node == At(nodes, k) && next == At(nodes, if node == null then k else k + 1)
        invariant forall i :: 0 <= i < k ==> !same(nodes[i].value, key)
        decreases |nodes| - k
      {
        if same(node.value, key) { return; }
        node, next := ListNext(next, true, k + 1);
        k := k + 1;
      }
    }

    // listDup, with the optional dup method; the original is not modified.
    method Dup(dup: Option<V -> Option<V>>) returns (copy: List?<V>)
      requires Valid()
      ensures copy == null <==> dup.Some? && exists i :: 0 <= i < |Values()| && dup.value(Values()[i]).None?
      ensures copy != null ==>
              copy.Valid() && fresh(copy) && fresh(copy.nodes) && CopiedAll(Values(), copy.Values(), dup)
    {
      hide Distinct, Linked, ValuesOf, CopiedAll;
      ghost var vals := Values();
      var c := new List<V>();
      ghost var k := 0;
      NothingCopied(vals[..0], c.Values(), dup);
      var node, next := ListNext(head, true, 0);
      while node != null
        invariant 0 <= k <= |nodes| && node == At(nodes, k) && next == At(nodes, if node == null then k else k + 1)
        invariant c.Valid() && fresh(c) && fresh(c.nodes) && CopiedAll(vals[..k], c.Values(), dup)
        decreases |nodes| - k
      {
        assert node.value == vals[k];
        var value := if dup.Some? then dup.value(node.value) else Some(node.value);
        if value.None? {
          assert dup.value(Values()[k]).None?;
          return null;
        }
        CopiedOneMore(vals, k, c.Values(), dup, value.value);
        node, next := ListNext(next, true, k + 1);
        var added := c.AddNodeTail(value.value);
        k := k + 1;
      }
      assert vals[..k] == vals;
      EveryOneCopied(vals, c.Values(), dup);
      return c;
    }
  }

  ghost predicate CopiedAll<V>(vs: seq<V>, ws: seq<V>, dup: Option<V -> Option<V>>) {
    |ws| == |vs| && forall i :: 0 <= i < |vs| ==> Copied(vs[i], ws[i], dup)
  }

  lemma NothingCopied<V>(vs: seq<V>, ws: seq<V>, dup: Option<V -> Option<V>>)
    requires vs == [] && ws == []
    ensures CopiedAll(vs, ws, dup)
  {
  }

  lemma CopiedOneMore<V>(vs: seq<V>, k: int, ws: seq<V>, dup: Option<V -> Option<V>>, w: V)
    requires 0 <= k < |vs| && CopiedAll(vs[..k], ws, dup) && Copied(vs[k], w, dup)
    ensures CopiedAll(vs[..k + 1], ws + [w], dup)
  {
  }

  lemma EveryOneCopied<V>(vs: seq<V>, ws: seq<V>, dup: Option<V -> Option<V>>)
    requires CopiedAll(vs, ws, dup)
    ensures dup.Some? ==> forall i :: 0 <= i < |vs| ==> dup.value(vs[i]).Some?
  {
    assert forall i :: 0 <= i < |vs| ==> Copied(vs[i], ws[i], dup);
  }

  ghost predicate Copied<V>(v: V, w: V, dup: Option<V -> Option<V>>) {
    Some(w) == if dup.Some? then dup.value(v) else Some(v)
  }

  lemma NextOf<V>(s: seq<Node<V>>, k: int)
    requires Linked(s) && 0 <= k < |s|
    ensures s[k].next == At(s, k + 1) && s[k].prev == At(s, k - 1)
  {
  }

  /** An iterator that returned the k-th node goes on correctly when that node is deleted. */
  lemma DeletingTheReturnedNode<V>(s: seq<Node<V>>, k: int)
    requires 0 <= k < |s|
    ensures var t := s[..k] + s[k + 1..]; At(t, k) == At(s, k + 1) && At(t, k - 1) == At(s, k - 1)
  {
  }
}
