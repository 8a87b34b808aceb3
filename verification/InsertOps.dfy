/** Insertion, as the code does it: `btree_grow`, `split` and `btree_insert_level` call one another
    up the tree. */
module InsertOps {
  import opened Nodes
  import opened Memory
  import opened Trees
  import opened Find
  import opened Resplit
  import opened SplitProof
  import opened Slots
  import opened InsertProof

  /** The two halves of a split after `i` turns of its loop. */
  ghost function HalfNew(nd: seq<nat>, i: nat): (r: seq<nat>)
    requires i <= |nd|
    ensures |r| == |nd|
    ensures forall j {:trigger r[j]} :: 0 <= j < |nd| ==> r[j] == if j < i then nd[j] else 0
  {
    Front(nd, i)
  }

  ghost function HalfOld(nd: seq<nat>, h: nat, i: nat): (r: seq<nat>)
    requires i <= h && h + i <= |nd|
    ensures |r| == |nd|
    ensures forall j {:trigger r[j]} :: 0 <= j < |nd| ==> r[j] == if j < i then nd[j + h] else if h <= j < h + i
      then 0 else nd[j]
  {
    seq(|nd|, j requires 0 <= j < |nd| => if j < i then nd[j + h] else if h <= j < h + i then 0 else nd[j])
  }

  lemma HalfStep(nd: seq<nat>, h: nat, i: nat)
    requires i < h && h + h <= |nd|
    ensures HalfNew(nd, i)[i := HalfOld(nd, h, i)[i]] == HalfNew(nd, i + 1)
    ensures HalfOld(nd, h, i)[i := HalfOld(nd, h, i)[i + h]][i + h := 0] == HalfOld(nd, h, i + 1)
  {
    hide HalfNew, HalfOld;
  }

  lemma Overwrite(m: map<Ptr, Node>, q: Ptr, a: Node, a': Node, p: Ptr, b: Node, b': Node)
    requires p != q
    ensures m[q := a][p := b][q := a'][p := b'] == m[q := a'][p := b']
    ensures m[q := a][p := b][p := b'] == m[q := a][p := b']
  {
  }

  lemma HalfDone(nd: seq<nat>)
    requires |nd| > 1
    ensures var n, h := |nd|, |nd| / 2; var o := HalfOld(nd, h, h);
            && HalfNew(nd, h) == Front(nd, h)
            && (n % 2 == 0 ==> o == Back(nd, h))
            && (n % 2 == 1 ==> o[h := o[n - 1]][n - 1 := 0] == Back(nd, h))
  {
    hide HalfOld, Back;
  }

  /** The memory of a split after `i` turns of its loop. */
  ghost function HalfWay(m: map<Ptr, Node>, p: Ptr, q: Ptr, nd: Node, h: nat, i: nat): map<Ptr, Node>
    requires |nd.keys| == |nd.vals| && i <= h && h + i <= |nd.keys|
  {
    m[q := Node(HalfNew(nd.keys, i), HalfNew(nd.vals, i))][p := Node(HalfOld(nd.keys, h, i), HalfOld(nd.vals, h, i))]
  }

  /** One turn of the loop, on the pair of nodes. */
  ghost function Turn(m: map<Ptr, Node>, p: Ptr, q: Ptr, h: nat, i: nat): map<Ptr, Node>
    requires p in m && q in m && i < h
    requires |m[p].keys| == |m[p].vals| == |m[q].keys| == |m[q].vals| >= h + h
  {
    var o, e := m[p], m[q];
    m[q := Node(e.keys[i := o.keys[i]], e.vals[i := o.vals[i]])]
     [p := Node(o.keys[i := o.keys[i + h]][i + h := 0], o.vals[i := o.vals[i + h]][i + h := 0])]
  }

  lemma HalfWayTurn(m: map<Ptr, Node>, p: Ptr, q: Ptr, nd: Node, h: nat, i: nat)
    requires |nd.keys| == |nd.vals| && i < h && h + h <= |nd.keys| && p != q
    ensures p in HalfWay(m, p, q, nd, h, i) && q in HalfWay(m, p, q, nd, h, i)
    ensures Turn(HalfWay(m, p, q, nd, h, i), p, q, h, i) == HalfWay(m, p, q, nd, h, i + 1)
  {
    HalfStep(nd.keys, h, i);
    HalfStep(nd.vals, h, i);
    hide HalfNew, HalfOld;
    Overwrite(m, q, Node(HalfNew(nd.keys, i), HalfNew(nd.vals, i)),
        Node(HalfNew(nd.keys, i + 1), HalfNew(nd.vals, i + 1)),
      p, Node(HalfOld(nd.keys, h, i), HalfOld(nd.vals, h, i)),
          Node(HalfOld(nd.keys, h, i + 1), HalfOld(nd.vals, h, i + 1)));
  }

  method MoveOne(heap: Heap, p: Ptr, q: Ptr, i: nat, h: nat)
    requires heap.Valid() && p in heap.mem && q in heap.mem && p != q && i < h && h + h <= heap.n
    modifies heap, heap.repr
    ensures heap.Valid() && heap.repr == old(heap.repr)
    ensures Sized(heap.n, old(heap.mem[p])) && Sized(heap.n, old(heap.mem[q]))
    ensures heap.mem == Turn(old(heap.mem), p, q, h, i)
  {
    hide heap.Valid;
    heap.CopyPair(q, p, i, i);
    heap.CopyPair(p, p, i + h, i);
    heap.ClearPair(p, i + h);
  }

  method MoveLoop(heap: Heap, p: Ptr, q: Ptr, h: nat)
    requires heap.Valid() && p in heap.mem && q in heap.mem && p != q && heap.mem[q] == EmptyNode(heap.n)
    requires h + h <= heap.n
    modifies heap, heap.repr
    ensures heap.Valid() && heap.repr == old(heap.repr)
    ensures Sized(heap.n, old(heap.mem[p])) && heap.mem == HalfWay(old(heap.mem), p, q, old(heap.mem[p]), h, h)
  {
    ghost var m: map<Ptr, Node> := heap.mem;
    ghost var nd := heap.mem[p];
    assert Sized(heap.n, nd);
    assert HalfNew(nd.keys, 0) == heap.mem[q].keys && HalfNew(nd.vals, 0) == heap.mem[q].vals;
    assert HalfOld(nd.keys, h, 0) == nd.keys && HalfOld(nd.vals, h, 0) == nd.vals;
    assert m == HalfWay(m, p, q, nd, h, 0);
    hide heap.Valid, HalfNew, HalfOld, HalfWay, Turn;
    var i := 0;
    while i < h
      invariant heap.Valid() && heap.repr == old(heap.repr) && i <= h
      invariant heap.mem == HalfWay(m, p, q, nd, h, i)
    {
      HalfWayTurn(m, p, q, nd, h, i);
      MoveOne(heap, p, q, i, h);
      i := i + 1;
    }
  }

  /** The loop of `split`: the first half of full node `p` moves to the empty node `q`. */
  method MoveHalf(heap: Heap, p: Ptr, q: Ptr)
    requires heap.Valid() && p in heap.mem && q in heap.mem && p != q && heap.mem[q] == EmptyNode(heap.n) && heap.n > 1
    modifies heap, heap.repr
    ensures heap.Valid() && heap.repr == old(heap.repr)
    ensures Sized(heap.n, old(heap.mem[p]))
    ensures heap.mem == old(heap.mem)[q := FrontNode(old(heap.mem[p]), heap.n / 2)][p :=
      BackNode(old(heap.mem[p]), heap.n / 2)]
  {
    hide Front, Back, heap.Valid, HalfNew, HalfOld;
    ghost var m: map<Ptr, Node> := heap.mem;
    ghost var nd := heap.mem[p];
    var fill := heap.n;
    var h := fill / 2;
    MoveLoop(heap, p, q, h);
    HalfDone(nd.keys);
    HalfDone(nd.vals);
    if fill % 2 == 1 {
      MoveOdd(heap, p, h);
      Overwrite(m, q, FrontNode(nd, h), FrontNode(nd, h), p, Node(HalfOld(nd.keys, h, h), HalfOld(nd.vals, h, h)),
          BackNode(nd, h));
    }
  }

  method MoveOdd(heap: Heap, p: Ptr, h: nat)
    requires heap.Valid() && p in heap.mem && h < heap.n - 1
    modifies heap, heap.repr
    ensures heap.Valid() && heap.repr == old(heap.repr)
    ensures var o, n := old(heap.mem[p]), heap.n;
            && Sized(n, o)
            && heap.mem == old(heap.mem)[p :=
                Node(o.keys[h := o.keys[n - 1]][n - 1 := 0], o.vals[h := o.vals[n - 1]][n - 1 := 0])]
  {
    hide heap.Valid;
    heap.CopyPair(p, p, heap.n - 1, h);
    heap.ClearPair(p, heap.n - 1);
  }

  /** The old root, if there is one, is not empty. */
  ghost predicate Growable(t: Tree) {
    && (t.root == 0 <==> t.height == 0) && 0 < t.n
    && (t.height > 0 ==> Has(t, t.root) && 0 < Fill(t.mem[t.root]))
  }

  lemma RootToGrow(t: Tree, k: nat, v: nat, s: Ptr)
    requires InsertPre(t, t.height + 1, k, v, s)
    ensures Growable(t)
  {
  }

  /** The new root points to the old one, under the old root's smallest key. */
  method LinkRoot(heap: Heap, node: Ptr, root: Ptr)
    requires heap.Valid() && node in heap.mem && root in heap.mem && node != root && heap.mem[node] == EmptyNode(heap.n)
    requires 0 < Fill(heap.mem[root]) && 0 < heap.n
    modifies heap, heap.repr
    ensures heap.Valid() && heap.repr == old(heap.repr) && Sized(heap.n, old(heap.mem[root]))
    ensures heap.mem == old(heap.mem)[node := Node(EmptyNode(heap.n).keys[0 := LastKey(old(heap.mem[root]))],
      EmptyNode(heap.n).vals[0 := root])]
  {
    hide heap.Valid, Fill;
    ghost var m: map<Ptr, Node> := heap.mem;
    ghost var e := EmptyNode(heap.n);
    var fill := GetFill(heap, root, 0);
    LastKeyIs(m[root], fill);
    var key := heap.GetKey(root, fill - 1);
    heap.SetKey(node, key, 0);
    ghost var one := Node(e.keys[0 := key], e.vals);
    assert heap.mem == m[node := one];
    heap.SetVal(node, root, 0);
    Overwrite(m, node, one, Node(one.keys, one.vals[0 := root]), root, m[root], m[root]);
  }

  lemma LastKeyIs(nd: Node, fill: nat)
    requires |nd.keys| == |nd.vals| && 0 < Fill(nd) && fill == FillFrom(nd.vals, 0)
    ensures fill == Fill(nd) && LastKey(nd) == nd.keys[fill - 1]
  {
  }

  /** The allocation in `btree_grow`, and the entry of the new root. */
  method NewRoot(heap: Heap, root: Ptr) returns (node: Ptr)
    requires heap.Valid() && (root != 0 ==> root in heap.mem && 0 < Fill(heap.mem[root])) && 0 < heap.n
    modifies heap, heap.repr, heap.calloc
    ensures heap.Valid() && fresh(heap.repr - old(heap.repr))
    ensures node == 0 ==> heap.mem == old(heap.mem)
    ensures node != 0 && root == 0 ==> node !in old(heap.mem) && heap.mem == old(heap.mem)[node := EmptyNode(heap.n)]
    ensures node != 0 && root != 0 ==>
              && node !in old(heap.mem) && Sized(heap.n, old(heap.mem[root]))
              && heap.mem == old(heap.mem)[node := Node(EmptyNode(heap.n).keys[0 := LastKey(old(heap.mem[root]))],
                  EmptyNode(heap.n).vals[0 := root])]
    ensures heap.calloc.refused == old(heap.calloc.refused) + if node == 0 then 1 else 0
  {
    hide Count, heap.Valid, Fill;
    ghost var m: map<Ptr, Node> := heap.mem;
    node := heap.Alloc();
    if node != 0 && root != 0 {
      ghost var m1: map<Ptr, Node> := m[node := EmptyNode(heap.n)];
      assert heap.mem == m1 && m1[root] == m[root];
      LinkRoot(heap, node, root);
    }
  }

  lemma GrownCount(mem: map<Ptr, Node>, mem': map<Ptr, Node>, node: Ptr)
    requires node !in mem && node in mem' && mem' == mem[node := mem'[node]]
    ensures Count(mem') == Count(mem) + 1
  {
    CountAdd(mem, node, mem'[node]);
  }

  method Grow(heap: Heap, head: Head) returns (err: bool)
    requires heap.Valid() && Growable(Snap(heap, head))
    modifies heap, heap.repr, heap.calloc, head`info, head`node, head`height
    ensures heap.Valid() && fresh(heap.repr - old(heap.repr))
    ensures err ==> Snap(heap, head) == old(Snap(heap, head))
    ensures !err ==>
      head.node != 0 && head.node !in old(heap.mem) && Snap(heap, head) == Grown(old(Snap(heap, head)), head.node)
    ensures heap.calloc.refused == old(heap.calloc.refused) + if err then 1 else 0
    ensures !err ==> Count(heap.mem) + old(head.height) == old(Count(heap.mem)) + head.height
  {
    ghost var t := Snap(heap, head);
    hide Count, heap.Valid;
    var node := NewRoot(heap, head.node);
    if node == 0 {
      return true;
    }
    GrownCount(t.mem, heap.mem, node);
    head.info := Grown(t, node).info;
    head.node := node;
    head.height := head.height + 1;
    err := false;
  }

  /** A key passed by pointer into a lower level keeps its value. */
  lemma RefKept(t: Tree, t': Tree, l: nat, key: KeyRef)
    requires Below(t, t', l, {}, {}) && Base(t) && RefOk(t.mem, key)
    requires key.Slot? && key.p in t.info ==> t.info[key.p].level < l
    ensures RefOk(t'.mem, key) && KeyAt(t'.mem, key) == KeyAt(t.mem, key)
    ensures key.Slot? && key.p in t'.info ==> t'.info[key.p].level < l
  {
    if key.Slot? {
      var p := key.p;
      if p in t.info {
        assert p in t'.info;
      } else {
        assert p in t'.mem && t'.mem[p] == t.mem[p];
        assert p in t.mem.Keys - t.info.Keys;
        assert p in t'.mem.Keys - t'.info.Keys;
      }
    }
  }

  lemma SplitMem(u: Tree, l: nat, p: Ptr, q: Ptr)
    requires Has(u, p) && Has(u, q) && PairOk(u.n, u.mem[q], u.mem[p], Half(u.n))
    requires p != q && Fill(u.mem[q]) == 0 && u.mem[q] == EmptyNode(u.n) && Half(u.n) > 0
    ensures SplitDone(u, l, p, q) == u.(mem :=
      u.mem[q := FrontNode(u.mem[p], Half(u.n))][p := BackNode(u.mem[p], Half(u.n))],
                                        info := SplitDone(u, l, p, q).info)
  {
    hide Front, Back, Join;
    var e := u.mem[q];
    assert JoinNode(e, 0, u.mem[p], Half(u.n)) == FrontNode(u.mem[p], Half(u.n));
  }

  /** The steps of `split` on the tree: open, and close again or finish. */
  lemma OpenEffect(t: Tree, l: nat, p: Ptr, node: Ptr)
    requires Full(t, l, p) && node !in t.mem && node != 0
    ensures Base(t) && InsertPre(Opened(t, p, node), l + 1, SplitKey(t, p), node, p)
    ensures Opened(t, p, node) == t.(mem := t.mem[node := EmptyNode(t.n)], info := Opened(t, p, node).info)
  {
    OpenedPre(t, l, p, node);
  }

  lemma CloseEffect(t: Tree, u: Tree, l: nat, p: Ptr, node: Ptr)
    requires Full(t, l, p) && node !in t.mem && node != 0 && Base(t)
    requires Lowered(Opened(t, p, node), u, l + 1) && Inv(u, l + 1)
    ensures node in u.mem && p in u.info && p in t.info && Lowered(t, Closed(t, u, p, node), l) &&
      Inv(Closed(t, u, p, node), l)
    ensures Closed(t, u, p, node) == u.(mem := u.mem - {node}, info := Closed(t, u, p, node).info)
  {
    FailedHolds(t, u, l, p, node);
    FailedInv(t, u, l, p, node);
  }

  lemma FinishEffect(t: Tree, u: Tree, l: nat, p: Ptr, node: Ptr, k: nat)
    requires Full(t, l, p) && node !in t.mem && node != 0 && Base(t)
    requires InsertPost(Opened(t, p, node), u, l + 1, SplitKey(t, p), node, p) && t.info[p].lo <= k < t.info[p].hi
    ensures Has(u, p) && Has(u, node) && p != node && u.mem[node] == EmptyNode(u.n) && u.n > 1
    ensures PairOk(u.n, u.mem[node], u.mem[p], Half(u.n)) && SplitPost(t, SplitDone(u, l, p, node), l, k)
    ensures Fill(u.mem[node]) == 0 && Half(u.n) > 0 && Halves(u.n, u.mem[p])
  {
    LinkedInHolds(t, u, l, p, node);
    hide InsertPost, Opened;
    LinkedInPair(t, u, l, p, node);
    FullFacts(t, l, p);
    hide PairOk, PairKey, PairVal, NodeOk, Inv, Linked;
    assert u.mem[p] == t.mem[p] && u.n == t.n;
    HalvesFill(t, l, p);
    SplitHolds(t, u, l, p, node, k);
    hide Ready, SplitPost;
  }

  /** The two halves of a full node, for even and odd sizes. */
  ghost predicate Halves(n: nat, nd: Node) {
    && |nd.keys| == |nd.vals| == n
    && Fill(FrontNode(nd, n / 2)) == n / 2 && Fill(BackNode(nd, n / 2)) == n - n / 2
  }

  lemma HalvesFill(t: Tree, l: nat, p: Ptr)
    requires Full(t, l, p)
    ensures Has(t, p) && Halves(t.n, t.mem[p])
  {
    assert NodeOk(t, p);
    hide Inv, Filled;
    FrontFacts(t.n, t.mem[p], t.n / 2);
    BackFacts(t.n, t.mem[p], t.n / 2);
  }

  /** `p` and a node that is new share the entries of a full node evenly. */
  ghost predicate Halved(mem: map<Ptr, Node>, mem': map<Ptr, Node>, n: nat, p: Ptr, q: Ptr) {
    p in mem' && q !in mem && q in mem' && Fill(mem'[p]) == n - n / 2 && Fill(mem'[q]) == n / 2
  }

  /** `split` after the recursive insertion failed: the sibling is freed. */
  method CloseSplit(heap: Heap, head: Head, ghost t: Tree, p: Ptr, node: Ptr, ghost level: nat)
    requires heap.Valid() && Full(t, level, p) && node !in t.mem && node != 0 && Base(t)
    requires Lowered(Opened(t, p, node), Snap(heap, head), level + 1) && Inv(Snap(heap, head), level + 1)
    modifies heap, head`info
    ensures heap.Valid() && heap.repr == old(heap.repr)
    ensures Lowered(t, Snap(heap, head), level) && Inv(Snap(heap, head), level)
  {
    hide heap.Valid, Lowered, Inv, Full, Base, Opened, Closed;
    ghost var u := Snap(heap, head);
    CloseEffect(t, u, level, p, node);
    heap.Free(node);
    head.info := Closed(t, u, p, node).info;
  }

  /** `split` after the sibling has been linked: the left half moves over. */
  method FinishSplit(heap: Heap, head: Head, ghost t: Tree, p: Ptr, node: Ptr, ghost level: nat, ghost k: nat)
    requires heap.Valid() && Full(t, level, p) && node !in t.mem && node != 0 && Base(t)
    requires InsertPost(Opened(t, p, node), Snap(heap, head), level + 1, SplitKey(t, p), node, p)
    requires t.info[p].lo <= k < t.info[p].hi
    modifies heap, heap.repr, head`info
    ensures heap.Valid() && heap.repr == old(heap.repr)
    ensures SplitPost(t, Snap(heap, head), level, k) && Halved(t.mem, heap.mem, heap.n, p, node)
    ensures Count(heap.mem) == old(Count(heap.mem)) && head.height == old(head.height)
  {
    hide Count, heap.Valid, PairOk, SplitPost, Full, Base, InsertPost, Opened, SplitDone, FrontNode, BackNode, Fill;
    ghost var u := Snap(heap, head);
    FinishEffect(t, u, level, p, node, k);
    SplitMem(u, level, p, node);
    MoveHalf(heap, p, node);
    CountSame(u.mem, heap.mem);
    head.info := SplitDone(u, level, p, node).info;
  }

  ghost predicate SplitResult(t: Tree, t': Tree, l: nat, k: nat, err: bool) {
    if err then Lowered(t, t', l) && Inv(t', l) else SplitPost(t, t', l, k)
  }

  ghost predicate Opening(t: Tree, u: Tree, l: nat, p: Ptr, node: Ptr) {
    && Full(t, l, p) && Base(t) && node !in t.mem && node != 0
    && u == Opened(t, p, node)
  }

  /** The allocation in `split`; the ghost state records that `p` is about to lose its left half. */
  method OpenSplit(heap: Heap, head: Head, p: Ptr, ghost level: nat, ghost k: nat) returns (node: Ptr)
    requires heap.Valid() && Full(Snap(heap, head), level, p)
    modifies heap, heap.repr, heap.calloc, head`info
    ensures heap.Valid() && fresh(heap.repr - old(heap.repr))
    ensures node == 0 ==> SplitResult(old(Snap(heap, head)), Snap(heap, head), level, k, true)
    ensures node != 0 ==> Opening(old(Snap(heap, head)), Snap(heap, head), level, p, node)
    ensures heap.calloc.refused == old(heap.calloc.refused) + if node == 0 then 1 else 0
    ensures node != 0 ==> Count(heap.mem) == old(Count(heap.mem)) + 1 && head.height == old(head.height)
  {
    ghost var t := Snap(heap, head);
    hide Count, heap.Valid, InsertPre;
    StaysSame(t, level, k);
    assert Base(t) && Has(t, p) && Fill(t.mem[p]) == t.n;
    hide Base, SplitResult;
    node := heap.Alloc();
    if node != 0 {
      GrownCount(t.mem, heap.mem, node);
      hide Full;
      OpenEffect(t, level, p, node);
      head.info := Opened(t, p, node).info;
    }
    hide Opened;
  }

  /** Nodes were split on consecutive levels from `l` on, one on each. */
  ghost predicate Cascade(splits: seq<nat>, l: nat, height: nat) {
    |splits| <= height + 1 - l && forall i :: 0 <= i < |splits| ==> splits[i] == l + i
  }

  /** `split`: the caller's key `k` is routed to the full node `p`. */
  method Split(heap: Heap, head: Head, p: Ptr, level: nat, ghost k: nat) returns (err: bool, ghost splits: seq<nat>)
    requires heap.Valid() && Full(Snap(heap, head), level, p) && p in head.info &&
      head.info[p].lo <= k < head.info[p].hi
    requires level <= head.height
    modifies heap, heap.repr, heap.calloc, head`info, head`node, head`height
    ensures heap.Valid() && fresh(heap.repr - old(heap.repr))
    ensures SplitResult(old(Snap(heap, head)), Snap(heap, head), level, k, err) &&
      Cascade(splits, level, old(head.height))
    ensures heap.calloc.refused == old(heap.calloc.refused) + if err then 1 else 0
    ensures !err ==> Count(heap.mem) + old(head.height) == old(Count(heap.mem)) + |splits| + head.height
    ensures !err ==> exists q :: Halved(old(heap.mem), heap.mem, heap.n, p, q)
    decreases head.height + 1 - level, 1
  {
    hide Count, heap.Valid, Full, SplitResult, Opening, Halved;
    ghost var t := Snap(heap, head);
    var node := OpenSplit(heap, head, p, level, k);
    if node == 0 {
      return true, [];
    }
    err, splits := LinkSibling(heap, head, t, p, node, level, k);
    splits := [level] + splits;
  }

  lemma LinkStart(t: Tree, u: Tree, l: nat, p: Ptr, node: Ptr)
    requires Opening(t, u, l, p, node) && p in t.info
    ensures Full(t, l, p) && Base(t) && node !in t.mem && node != 0 && u == Opened(t, p, node)
    ensures 2 <= u.n && RefOk(u.mem, Slot(p, u.n / 2 - 1)) && KeyAt(u.mem, Slot(p, u.n / 2 - 1)) == SplitKey(t, p)
    ensures p in u.mem && u.height == t.height && p in u.info && u.info[p].level == l
    ensures InsertPre(u, l + 1, SplitKey(t, p), node, p)
  {
    OpenedPre(t, l, p, node);
    OpenedKey(t, l, p, node);
    FullFacts(t, l, p);
  }

  lemma SplitEnd(t: Tree, t': Tree, l: nat, k: nat, err: bool)
    requires if err then Lowered(t, t', l) && Inv(t', l) else SplitPost(t, t', l, k)
    ensures SplitResult(t, t', l, k, err)
  {
  }

  /** `split` after its allocation: link the sibling into the parent, then move entries or undo. */
  method LinkSibling(heap: Heap, head: Head, ghost t: Tree, p: Ptr, node: Ptr, level: nat, ghost k: nat)
      returns (err: bool, ghost splits: seq<nat>)
    requires heap.Valid() && Opening(t, Snap(heap, head), level, p, node)
    requires p in t.info && t.info[p].lo <= k < t.info[p].hi && level <= t.height
    modifies heap, heap.repr, heap.calloc, head`info, head`node, head`height
    ensures heap.Valid() && fresh(heap.repr - old(heap.repr))
    ensures SplitResult(t, Snap(heap, head), level, k, err) && Cascade(splits, level + 1, t.height)
    ensures heap.calloc.refused == old(heap.calloc.refused) + if err then 1 else 0
    ensures !err ==> Count(heap.mem) + old(head.height) == old(Count(heap.mem)) + |splits| + head.height
    ensures !err ==> Halved(t.mem, heap.mem, heap.n, p, node)
    decreases t.height + 1 - level, 0
  {
    hide Count, Halved, heap.Valid, Full, Inv, Lowered, SplitPost, SplitResult, InsertPre, InsertPost, Opened,
        Opening, Base,
        SplitKey;
    ghost var u := Snap(heap, head);
    LinkStart(t, u, level, p, node);
    err, splits := InsertLevel(heap, head, Slot(p, heap.n / 2 - 1), node, level + 1, p);
    if err {
      CloseSplit(heap, head, t, p, node, level);
    } else {
      FinishSplit(heap, head, t, p, node, level, k);
    }
    SplitEnd(t, Snap(heap, head), level, k, err);
  }

  lemma StaysSame(t: Tree, l: nat, k: nat)
    requires Inv(t, l)
    ensures Lowered(t, t, l) && SplitResult(t, t, l, k, true)
  {
  }

  lemma OpenedKey(t: Tree, l: nat, p: Ptr, node: Ptr)
    requires Full(t, l, p) && node !in t.mem && node != 0
    ensures Base(t) && RefOk(Opened(t, p, node).mem, Slot(p, t.n / 2 - 1))
    ensures KeyAt(Opened(t, p, node).mem, Slot(p, t.n / 2 - 1)) == SplitKey(t, p)
    ensures p in Opened(t, p, node).info && Opened(t, p, node).info[p].level == l
  {
    FullFacts(t, l, p);
  }

  lemma FailedHolds(t: Tree, u: Tree, l: nat, p: Ptr, node: Ptr)
    requires Full(t, l, p) && node !in t.mem && node != 0
    requires Base(t) && Lowered(Opened(t, p, node), u, l + 1) && Inv(u, l + 1)
    ensures Failed(t, u, l, p, node) && node in u.mem
  {
    assert node in Opened(t, p, node).mem;
  }

  /** Slots i..f-1 shifted one up, slot `i` still in place. */
  ghost function Shifted(s: seq<nat>, i: nat, f: nat): (r: seq<nat>)
    requires i <= f < |s|
    ensures |r| == |s|
    ensures forall j {:trigger r[j]} :: 0 <= j < |s| ==> r[j] == if i < j <= f then s[j - 1] else s[j]
  {
    seq(|s|, j requires 0 <= j < |s| => if i < j <= f then s[j - 1] else s[j])
  }

  lemma ShiftStep(s: seq<nat>, i: nat, f: nat)
    requires 0 < i <= f < |s|
    ensures Shifted(s, i, f)[i := Shifted(s, i, f)[i - 1]] == Shifted(s, i - 1, f)
  {
    hide Shifted;
  }

  lemma ShiftDone(s: seq<nat>, pos: nat, f: nat, x: nat)
    requires pos <= f < |s| && forall j :: f <= j < |s| ==> s[j] == 0
    ensures Shifted(s, f, f) == s && Shifted(s, pos, f)[pos := x] == Insert1(s, pos, x)
  {
    hide Shifted, Insert1;
  }

  /** The end of `btree_insert_level`: a slot is freed and the pair stored there. */
  method ShiftInsert(heap: Heap, p: Ptr, key: KeyRef, val: nat, pos: nat, fill: nat)
    requires heap.Valid() && p in heap.mem && RefOk(heap.mem, key) && (key.Slot? ==> key.p != p)
    requires Packed(heap.n, heap.mem[p]) && fill == Fill(heap.mem[p]) < heap.n && pos <= fill
    modifies heap, heap.repr
    ensures heap.Valid() && heap.repr == old(heap.repr)
    ensures heap.mem == old(heap.mem)[p := InsertAt(old(heap.mem[p]), pos, old(KeyAt(heap.mem, key)), val)]
  {
    hide heap.Valid, Shifted, Insert1, Packed, Fill;
    ghost var m: map<Ptr, Node> := heap.mem;
    ghost var nd := m[p];
    ghost var kk := KeyAt(heap.mem, key);
    heap.SizedAt(p);
    ShiftEnds(heap.n, nd, pos, fill, kk, val);
    assert m == m[p := nd];
    ShiftLoop(heap, p, pos, fill, nd);
    ghost var o := Node(Shifted(nd.keys, pos, fill), Shifted(nd.vals, pos, fill));
    assert heap.mem == m[p := o];
    StorePair(heap, p, key, val, pos);
    NodeRewrite(m, p, o, InsertAt(nd, pos, kk, val));
  }

  lemma ShiftEnds(n: nat, nd: Node, pos: nat, fill: nat, k: nat, v: nat)
    requires Packed(n, nd) && fill == Fill(nd) < n && pos <= fill
    ensures Node(Shifted(nd.keys, fill, fill), Shifted(nd.vals, fill, fill)) == nd
    ensures Node(Shifted(nd.keys, pos, fill)[pos := k], Shifted(nd.vals, pos, fill)[pos := v]) ==
      InsertAt(nd, pos, k, v)
  {
    ShiftDone(nd.keys, pos, fill, k);
    ShiftDone(nd.vals, pos, fill, v);
  }

  /** The loop that frees the slot. */
  method ShiftLoop(heap: Heap, p: Ptr, pos: nat, fill: nat, ghost nd: Node)
    requires heap.Valid() && p in heap.mem && heap.mem[p] == nd && Sized(heap.n, nd) && pos <= fill < heap.n
    requires Node(Shifted(nd.keys, fill, fill), Shifted(nd.vals, fill, fill)) == nd
    modifies heap, heap.repr
    ensures heap.Valid() && heap.repr == old(heap.repr)
    ensures heap.mem == old(heap.mem)[p := Node(Shifted(nd.keys, pos, fill), Shifted(nd.vals, pos, fill))]
  {
    hide heap.Valid, Shifted;
    ghost var m: map<Ptr, Node> := heap.mem;
    assert m == m[p := nd];
    var i := fill;
    while i > pos
      invariant heap.Valid() && heap.repr == old(heap.repr) && pos <= i <= fill
      invariant heap.mem == m[p := Node(Shifted(nd.keys, i, fill), Shifted(nd.vals, i, fill))]
    {
      ShiftStep(nd.keys, i, fill);
      ShiftStep(nd.vals, i, fill);
      heap.CopyPair(p, p, i - 1, i);
      NodeRewrite(m, p, Node(Shifted(nd.keys, i, fill), Shifted(nd.vals, i, fill)),
          Node(Shifted(nd.keys, i - 1, fill), Shifted(nd.vals, i - 1, fill)));
      i := i - 1;
    }
  }

  method StorePair(heap: Heap, p: Ptr, key: KeyRef, val: nat, pos: nat)
    requires heap.Valid() && p in heap.mem && RefOk(heap.mem, key) && pos < heap.n
    modifies heap, heap.repr
    ensures heap.Valid() && heap.repr == old(heap.repr) && Sized(heap.n, old(heap.mem[p]))
    ensures heap.mem == old(heap.mem)[p :=
      Node(old(heap.mem[p]).keys[pos := old(KeyAt(heap.mem, key))], old(heap.mem[p]).vals[pos := val])]
  {
    hide heap.Valid;
    var k := heap.Load(key);
    heap.SetKey(p, k, pos);
    heap.SetVal(p, val, pos);
  }

  ghost predicate NewKey(t: Tree, l: nat, k: nat) {
    forall x: nat {:trigger (k, x) in Entries(t, l)} :: (k, x) !in Entries(t, l)
  }

  lemma SearchStart(t: Tree, l: nat, k: nat, v: nat, s: Ptr)
    requires InsertPre(t, l, k, v, s) && l <= t.height
    ensures Searching(t, t, l, k, v, s, 0) && NewKey(t, l, k)
  {
  }

  lemma SearchGrown(t: Tree, g: Tree, l: nat, k: nat, v: nat, s: Ptr)
    requires InsertPre(t, l, k, v, s) && l == t.height + 1
    requires Growable(t) && g.root != 0 && g.root !in t.mem && g == Grown(t, g.root)
    ensures Searching(g, g, l, k, v, s, g.root) && NewKey(g, l, k)
    ensures Below(t, g, l, {}, {}) && (t.height > 0 ==> Linked(t, s) && SHi(t, s) <= SHi(g, s))
    ensures t.height == 0 ==> Entries(g, 1) == {} == Entries(t, 1)
  {
    assert CanGrow(t, k, v, s, g.root);
    hide InsertPre, Grown, Searching, Below, Filled, Inv, Linked, SHi, Entries;
    GrowSearching(t, k, v, s, g.root);
  }

  /** The pointer to the key stays readable, and reads `k`, while level `l` is searched. */
  ghost predicate RefReads(t: Tree, l: nat, key: KeyRef, k: nat) {
    && RefOk(t.mem, key) && KeyAt(t.mem, key) == k
    && (key.Slot? && key.p in t.info ==> t.info[key.p].level < l)
  }

  lemma RefReadsKept(t: Tree, t': Tree, l: nat, key: KeyRef, k: nat)
    requires RefReads(t, l, key, k) && Base(t) && Below(t, t', l, {}, {})
    ensures RefReads(t', l, key, k)
  {
    RefKept(t, t', l, key);
  }

  /** Where the search for `k` on level `l` ended. */
  ghost predicate FoundAt(t: Tree, l: nat, k: nat, p: Ptr, pos: nat, fill: nat) {
    && Has(t, p) && t.info[p].level == l && t.info[p].lo <= k < t.info[p].hi && NodeOk(t, p)
    && pos == Pos(t.mem[p], k) <= fill == Fill(t.mem[p])
  }

  lemma FoundHolds(tb: Tree, t: Tree, t': Tree, l: nat, k: nat, v: nat, s: Ptr, weak: Ptr, p: Ptr, key: KeyRef)
    requires Searching(tb, t, l, k, v, s, weak) && Reached(t, t', l, l, p, k) && RefReads(t, l, key, k)
    ensures Searching(tb, t', l, k, v, s, weak) && RefReads(t', l, key, k) && Lowered(t, t', l)
    ensures Has(t', p) && FoundAt(t', l, k, p, Pos(t'.mem[p], k), Fill(t'.mem[p]))
    ensures FillFrom(t'.mem[p].vals, Pos(t'.mem[p], k)) == Fill(t'.mem[p])
    ensures RoomFor(t, l, k) || weak != 0 ==> Fill(t'.mem[p]) < t'.n
  {
    SearchFind(tb, t, t', l, k, v, s, weak, p);
    assert NodeOk(t', p) && Base(t) && Base(t');
    LoweredBelow(t, t', l);
    RefReadsKept(t, t', l, key, k);
    PosInFill(t'.n, t'.mem[p], k);
  }

  lemma SearchFindReq(tb: Tree, t: Tree, l: nat, k: nat, v: nat, s: Ptr, weak: Ptr)
    requires Searching(tb, t, l, k, v, s, weak)
    ensures Inv(t, l) && Filled(t, l + 1, 0) && 1 <= l <= t.height && k < t.span
  {
    forall p | Has(t, p) && t.info[p].level >= l + 1 && p != 0
      ensures Fill(t.mem[p]) >= (if p == t.root && t.height == 1 then 1 else 2)
    {
      assert Has(t, p) && Base(t);
    }
  }

  /** The search on level `l` that started in tree `t` ended in tree `t'` at slot `pos` of `p`. */
  ghost predicate Located(tb: Tree, t: Tree, t': Tree, l: nat, k: nat, v: nat, s: Ptr, weak: Ptr, key: KeyRef, p: Ptr,
      pos: nat, fill: nat) {
    && Searching(tb, t', l, k, v, s, weak) && RefReads(t', l, key, k) && Lowered(t, t', l)
    && FoundAt(t', l, k, p, pos, fill)
    && (RoomFor(t, l, k) || weak != 0 ==> fill < t'.n)
  }

  lemma LocatedHolds(tb: Tree, t: Tree, t': Tree, l: nat, k: nat, v: nat, s: Ptr, weak: Ptr, p: Ptr, key: KeyRef)
    requires Searching(tb, t, l, k, v, s, weak) && Reached(t, t', l, l, p, k) && RefReads(t, l, key, k)
    ensures Has(t', p) && Located(tb, t, t', l, k, v, s, weak, key, p, Pos(t'.mem[p], k), Fill(t'.mem[p]))
    ensures FillFrom(t'.mem[p].vals, Pos(t'.mem[p], k)) == Fill(t'.mem[p])
  {
    FoundHolds(tb, t, t', l, k, v, s, weak, p, key);
    hide Searching, RefReads, Lowered, FoundAt, RoomFor, Fill, Pos, Reached;
  }

  lemma LocatedCount(tb: Tree, t: Tree, t': Tree, l: nat, k: nat, v: nat, s: Ptr, weak: Ptr, key: KeyRef, p: Ptr,
      pos: nat, fill: nat)
    requires Located(tb, t, t', l, k, v, s, weak, key, p, pos, fill)
    ensures Count(t'.mem) == Count(t.mem) && t'.height == t.height
  {
    hide Searching, RefReads, FoundAt, RoomFor;
    CountSame(t.mem, t'.mem);
  }

  method LocateNode(heap: Heap, head: Head, ghost key: KeyRef, kk: nat, level: nat, ghost tb: Tree, ghost v: nat,
      ghost s: Ptr, ghost weak: Ptr)
    returns (node: Ptr)
    requires heap.Valid() && Searching(tb, Snap(heap, head), level, kk, v, s, weak) &&
      RefReads(Snap(heap, head), level, key, kk)
    modifies heap, heap.repr, head`info
    ensures heap.Valid() && heap.repr == old(heap.repr)
    ensures Has(Snap(heap, head), node)
    ensures Located(tb, old(Snap(heap, head)), Snap(heap, head), level, kk, v, s, weak, key, node,
      Pos(heap.mem[node], kk), Fill(heap.mem[node]))
    ensures FillFrom(heap.mem[node].vals, Pos(heap.mem[node], kk)) == Fill(heap.mem[node])
    ensures Count(heap.mem) == old(Count(heap.mem)) && head.height == old(head.height)
  {
    ghost var t := Snap(heap, head);
    SearchFindReq(tb, t, level, kk, v, s, weak);
    hide Count, heap.Valid, Searching, Inv, Filled, RefReads, Reached, Located, Fill, Pos;
    node := FindLevel(heap, head, kk, level);
    LocatedHolds(tb, t, Snap(heap, head), level, kk, v, s, weak, node, key);
    LocatedCount(tb, t, Snap(heap, head), level, kk, v, s, weak, key, node, Pos(heap.mem[node], kk),
        Fill(heap.mem[node]));
  }

  /** The three lines after `retry:`. */
  method Locate(heap: Heap, head: Head, key: KeyRef, level: nat, ghost tb: Tree, ghost k: nat, ghost v: nat,
      ghost s: Ptr, ghost weak: Ptr)
    returns (node: Ptr, pos: nat, fill: nat)
    requires heap.Valid() && Searching(tb, Snap(heap, head), level, k, v, s, weak) &&
      RefReads(Snap(heap, head), level, key, k)
    modifies heap, heap.repr, head`info
    ensures heap.Valid() && heap.repr == old(heap.repr)
    ensures Located(tb, old(Snap(heap, head)), Snap(heap, head), level, k, v, s, weak, key, node, pos, fill)
    ensures Count(heap.mem) == old(Count(heap.mem)) && head.height == old(head.height)
  {
    hide Count, heap.Valid, Searching, Located, Fill, Pos;
    assert RefOk(heap.mem, key) && KeyAt(heap.mem, key) == k;
    hide RefReads;
    var kk := heap.Load(key);
    node := LocateNode(heap, head, key, kk, level, tb, v, s, weak);
    pos := GetPos(heap, node, kk);
    fill := GetFill(heap, node, pos);
  }

  ghost predicate Placed(tb: Tree, t': Tree, l: nat, k: nat, v: nat, s: Ptr) {
    && Inv(t', l) && Filled(t', l, 0) && Below(tb, t', l, {}, Born(l, v))
    && l <= t'.height && tb.height <= t'.height
    && Entries(t', l) == Entries(tb, l) + {(k, v)}
    && (l > 1 ==>
          && v in t'.info && t'.info[v].level + 1 == l && t'.info[v].lo == k
          && Linked(tb, s) && SHi(tb, s) <= t'.info[v].hi)
  }

  /** All is found for storing the pair on level `l`. */
  ghost predicate ToPlace(tb: Tree, t: Tree, l: nat, k: nat, v: nat, s: Ptr, weak: Ptr, key: KeyRef, p: Ptr, pos: nat,
      fill: nat) {
    && Searching(tb, t, l, k, v, s, weak) && RefReads(t, l, key, k) && NewKey(tb, l, k)
    && FoundAt(t, l, k, p, pos, fill) && fill < t.n
  }

  lemma ToPlaceFacts(tb: Tree, t: Tree, l: nat, k: nat, v: nat, s: Ptr, weak: Ptr, key: KeyRef, p: Ptr, pos: nat,
      fill: nat)
    requires ToPlace(tb, t, l, k, v, s, weak, key, p, pos, fill)
    ensures Has(t, p) && pos == Pos(t.mem[p], k) <= fill == Fill(t.mem[p]) < t.n && t.info[p].level > 0 &&
      Packed(t.n, t.mem[p])
    ensures RefOk(t.mem, key) && KeyAt(t.mem, key) == k && (key.Slot? ==> key.p != p)
  {
    hide Inv, Filled, Below, Linked, Entries, Sibling;
  }

  lemma PlaceEffect(tb: Tree, t: Tree, l: nat, k: nat, v: nat, s: Ptr, weak: Ptr, key: KeyRef, p: Ptr, pos: nat,
      fill: nat)
    requires ToPlace(tb, t, l, k, v, s, weak, key, p, pos, fill)
    ensures Has(t, p) && pos < t.n && t.info[p].level > 0
    ensures Placed(tb, Place(t, p, pos, k, v), l, k, v, s)
  {
    ToPlaceFacts(tb, t, l, k, v, s, weak, key, p, pos, fill);
    assert weak != 0 ==> weak == p by {
      assert Base(t);
    }
    ReadyToPlace(tb, t, l, k, v, s, weak, p);
    PlaceHolds(tb, t, l, k, v, s, weak, p);
    hide Inv, Filled, Below, Linked, Entries, Searching, CanPlace, Place;
  }

  /** Storing the pair, and what that completes. */
  method PlaceLevel(heap: Heap, head: Head, node: Ptr, key: KeyRef, val: nat, pos: nat, fill: nat, ghost level: nat,
      ghost tb: Tree, ghost k: nat, ghost s: Ptr, ghost weak: Ptr)
    requires heap.Valid() && ToPlace(tb, Snap(heap, head), level, k, val, s, weak, key, node, pos, fill)
    modifies heap, heap.repr, head`info
    ensures heap.Valid() && heap.repr == old(heap.repr)
    ensures Placed(tb, Snap(heap, head), level, k, val, s)
    ensures Count(heap.mem) == old(Count(heap.mem)) && head.height == old(head.height)
  {
    hide Count, heap.Valid, ToPlace, Placed, Packed, Fill, Pos, InsertAt;
    ghost var t := Snap(heap, head);
    ToPlaceFacts(tb, t, level, k, val, s, weak, key, node, pos, fill);
    PlaceEffect(tb, t, level, k, val, s, weak, key, node, pos, fill);
    ShiftInsert(heap, node, key, val, pos, fill);
    CountSame(t.mem, heap.mem);
    head.info := Place(t, node, pos, k, val).info;
  }

  /** The search space of an insertion after a possible `btree_grow`. */
  ghost predicate Prepared(t: Tree, tb: Tree, l: nat, k: nat, v: nat, s: Ptr, weak: Ptr, key: KeyRef) {
    && Searching(tb, tb, l, k, v, s, weak) && NewKey(tb, l, k) && RefReads(tb, l, key, k)
    && (weak == 0 ==> tb == t)
    && (weak != 0 ==>
          && l == t.height + 1 && Below(t, tb, l, {}, {}) && (t.height > 0 ==> Linked(t, s) && SHi(t, s) <= SHi(tb, s))
          && (t.height == 0 ==> Entries(tb, 1) == {} == Entries(t, 1)))
  }

  lemma PreparedOld(t: Tree, l: nat, k: nat, v: nat, s: Ptr, key: KeyRef)
    requires InsertPre(t, l, k, v, s) && l <= t.height && RefReads(t, l, key, k)
    ensures Prepared(t, t, l, k, v, s, 0, key)
  {
    SearchStart(t, l, k, v, s);
  }

  lemma PreparedGrown(t: Tree, g: Tree, l: nat, k: nat, v: nat, s: Ptr, key: KeyRef)
    requires InsertPre(t, l, k, v, s) && l == t.height + 1 && RefReads(t, l, key, k)
    requires Growable(t) && g.root != 0 && g.root !in t.mem && g == Grown(t, g.root)
    ensures Prepared(t, g, l, k, v, s, g.root, key)
  {
    SearchGrown(t, g, l, k, v, s);
    assert Base(t);
    hide Grown, Growable, Searching, Inv, Filled, Below, Linked, SHi, Entries;
    RefReadsKept(t, g, l, key, k);
  }

  /** An insertion that completed from a prepared tree completed from the original one. */
  lemma PlacedPost(t: Tree, tb: Tree, t': Tree, l: nat, k: nat, v: nat, s: Ptr, weak: Ptr, key: KeyRef)
    requires InsertPre(t, l, k, v, s) && Prepared(t, tb, l, k, v, s, weak, key) && Placed(tb, t', l, k, v, s)
    ensures InsertPost(t, t', l, k, v, s)
  {
    if weak != 0 {
      BelowTrans(t, tb, t', l, {}, Born(l, v));
    }
    hide Inv, Filled, Below, Linked, SHi, Sibling;
  }

  /** The beginning of `btree_insert_level`: a new root if the tree is not high enough. */
  method Prepare(heap: Heap, head: Head, ghost key: KeyRef, ghost val: nat, level: nat, ghost k: nat, ghost s: Ptr)
    returns (err: bool, ghost weak: Ptr)
    requires heap.Valid() && InsertPre(Snap(heap, head), level, k, val, s) && RefReads(Snap(heap, head), level, key, k)
    modifies heap, heap.repr, heap.calloc, head`info, head`node, head`height
    ensures heap.Valid() && fresh(heap.repr - old(heap.repr))
    ensures err ==> Snap(heap, head) == old(Snap(heap, head))
    ensures !err ==> Prepared(old(Snap(heap, head)), Snap(heap, head), level, k, val, s, weak, key)
    ensures heap.calloc.refused == old(heap.calloc.refused) + if err then 1 else 0
    ensures !err ==> Count(heap.mem) + old(head.height) == old(Count(heap.mem)) + head.height
  {
    ghost var t := Snap(heap, head);
    hide Count, heap.Valid, RefReads, Prepared, Grown, Growable, Inv, Filled;
    weak := 0;
    err := false;
    if head.height < level {
      RootToGrow(t, k, val, s);
      hide InsertPre;
      err := Grow(heap, head);
      if !err {
        weak := head.node;
        PreparedGrown(t, Snap(heap, head), level, k, val, s, key);
      }
    } else {
      hide InsertPre;
      PreparedOld(t, level, k, val, s, key);
    }
  }

  /** The state of `btree_insert_level` right after the lines following `retry:`. */
  ghost predicate AtRetry(t: Tree, tb: Tree, u: Tree, l: nat, k: nat, v: nat, s: Ptr, weak: Ptr, key: KeyRef, p: Ptr,
      pos: nat, fill: nat) {
    && Searching(tb, u, l, k, v, s, weak) && RefReads(u, l, key, k) && FoundAt(u, l, k, p, pos, fill)
    && (fill == u.n ==> weak == 0 && Lowered(t, u, l))
  }

  lemma FirstTry(t: Tree, tb: Tree, u: Tree, l: nat, k: nat, v: nat, s: Ptr, weak: Ptr, key: KeyRef, p: Ptr, pos: nat,
      fill: nat)
    requires Prepared(t, tb, l, k, v, s, weak, key) && Located(tb, tb, u, l, k, v, s, weak, key, p, pos, fill)
    ensures AtRetry(t, tb, u, l, k, v, s, weak, key, p, pos, fill)
  {
    hide Searching, RefReads, FoundAt, RoomFor, Lowered;
  }

  lemma NeedsSplit(t: Tree, tb: Tree, u: Tree, l: nat, k: nat, v: nat, s: Ptr, weak: Ptr, key: KeyRef, p: Ptr,
      pos: nat, fill: nat)
    requires AtRetry(t, tb, u, l, k, v, s, weak, key, p, pos, fill) && fill == u.n
    ensures weak == 0 && Full(u, l, p) && p in u.info && u.info[p].lo <= k < u.info[p].hi && l <= u.height == t.height
  {
    hide Inv, Filled, Below, Sibling, RefReads, Linked;
  }

  lemma SplitFailed(t: Tree, tb: Tree, u: Tree, u': Tree, l: nat, k: nat, v: nat, s: Ptr, key: KeyRef, p: Ptr,
      pos: nat, fill: nat)
    requires AtRetry(t, tb, u, l, k, v, s, 0, key, p, pos, fill) && fill == u.n && SplitResult(u, u', l, k, true)
    ensures Lowered(t, u', l) && Inv(u', l)
  {
    LoweredTrans(t, u, u', l);
  }

  lemma SplitWorked(t: Tree, tb: Tree, u: Tree, u': Tree, l: nat, k: nat, v: nat, s: Ptr, key: KeyRef, p: Ptr,
      pos: nat, fill: nat)
    requires AtRetry(t, tb, u, l, k, v, s, 0, key, p, pos, fill) && fill == u.n && SplitResult(u, u', l, k, false)
    ensures Searching(tb, u', l, k, v, s, 0) && RefReads(u', l, key, k) && RoomFor(u', l, k)
  {
    SearchSplit(tb, u, u', l, k, v, s);
    assert Base(u) && Below(u, u', l, {}, {});
    hide Searching, Inv, Filled, Below, SplitPost;
    RefReadsKept(u, u', l, key, k);
  }

  lemma NextTry(t: Tree, tb: Tree, u: Tree, u': Tree, l: nat, k: nat, v: nat, s: Ptr, key: KeyRef, p: Ptr, pos: nat,
      fill: nat)
    requires RoomFor(u, l, k) && Located(tb, u, u', l, k, v, s, 0, key, p, pos, fill)
    ensures AtRetry(t, tb, u', l, k, v, s, 0, key, p, pos, fill) && fill < u'.n
  {
    hide Searching, RefReads, FoundAt, RoomFor, Lowered;
  }

  /** The full node is split, and the key searched again. */
  method Retry(heap: Heap, head: Head, key: KeyRef, node: Ptr, level: nat, ghost t: Tree, ghost tb: Tree,
      ghost k: nat, ghost v: nat, ghost s: Ptr, ghost pos0: nat)
    returns (err: bool, next: Ptr, pos: nat, fill: nat, ghost splits: seq<nat>)
    requires heap.Valid() && AtRetry(t, tb, Snap(heap, head), level, k, v, s, 0, key, node, pos0, heap.n)
    requires level <= head.height
    modifies heap, heap.repr, heap.calloc, head`info, head`node, head`height
    ensures heap.Valid() && fresh(heap.repr - old(heap.repr))
    ensures err ==> Lowered(t, Snap(heap, head), level) && Inv(Snap(heap, head), level)
    ensures !err ==> AtRetry(t, tb, Snap(heap, head), level, k, v, s, 0, key, next, pos, fill) && fill < heap.n
    ensures Cascade(splits, level, t.height)
    ensures heap.calloc.refused == old(heap.calloc.refused) + if err then 1 else 0
    ensures !err ==> Count(heap.mem) + old(head.height) == old(Count(heap.mem)) + |splits| + head.height
    decreases head.height + 1 - level, 2
  {
    hide Count, Pos, Fill, Has, NewKey, heap.Valid, AtRetry, Full, Searching, RefReads, RoomFor, Located, SplitResult,
        Inv, Lowered;
    ghost var u := Snap(heap, head);
    NeedsSplit(t, tb, u, level, k, v, s, 0, key, node, pos0, heap.n);
    err, splits := Split(heap, head, node, level, k);
    ghost var u' := Snap(heap, head);
    if err {
      SplitFailed(t, tb, u, u', level, k, v, s, key, node, pos0, heap.n);
      next, pos, fill := 0, 0, 0;
    } else {
      SplitWorked(t, tb, u, u', level, k, v, s, key, node, pos0, heap.n);
      next, pos, fill := Locate(heap, head, key, level, tb, k, v, s, 0);
      NextTry(t, tb, u', Snap(heap, head), level, k, v, s, key, next, pos, fill);
    }
  }

  lemma RetryFacts(t: Tree, tb: Tree, u: Tree, l: nat, k: nat, v: nat, s: Ptr, weak: Ptr, key: KeyRef, p: Ptr,
      pos: nat, fill: nat)
    requires AtRetry(t, tb, u, l, k, v, s, weak, key, p, pos, fill)
    ensures fill == u.n ==> weak == 0 && l <= u.height == t.height
    ensures fill != u.n && NewKey(tb, l, k) ==> ToPlace(tb, u, l, k, v, s, weak, key, p, pos, fill)
  {
    hide Inv, Filled, Below, Sibling, RefReads, Linked;
  }

  /** `btree_insert_level` from the label `retry` on. */
  method InsertInto(heap: Heap, head: Head, key: KeyRef, val: nat, level: nat, ghost t: Tree, ghost k: nat,
      ghost s: Ptr, ghost weak: Ptr) returns (err: bool, ghost splits: seq<nat>)
    requires heap.Valid() && Prepared(t, Snap(heap, head), level, k, val, s, weak, key) && level <= t.height + 1
    modifies heap, heap.repr, heap.calloc, head`info, head`node, head`height
    ensures heap.Valid() && fresh(heap.repr - old(heap.repr))
    ensures err ==> Lowered(t, Snap(heap, head), level) && Inv(Snap(heap, head), level)
    ensures !err ==> Placed(old(Snap(heap, head)), Snap(heap, head), level, k, val, s)
    ensures Cascade(splits, level, t.height)
    ensures heap.calloc.refused == old(heap.calloc.refused) + if err then 1 else 0
    ensures !err ==> Count(heap.mem) + old(head.height) == old(Count(heap.mem)) + |splits| + head.height
    decreases t.height + 1 - level, 3
  {
    ghost var tb := Snap(heap, head);
    hide Count, heap.Valid, RefReads, Inv, Lowered, Prepared, Located, AtRetry, ToPlace, Placed, Searching, NewKey;
    PreparedFacts(t, tb, level, k, val, s, weak, key);
    var node: Ptr, pos: nat, fill: nat := Locate(heap, head, key, level, tb, k, val, s, weak);
    FirstTry(t, tb, Snap(heap, head), level, k, val, s, weak, key, node, pos, fill);
    splits := [];
    while fill == heap.n
      invariant Cascade(splits, level, t.height) && (splits == [] || fill < heap.n)
      invariant heap.calloc.refused == old(heap.calloc.refused)
      invariant Count(heap.mem) + old(head.height) == old(Count(heap.mem)) + |splits| + head.height
      invariant heap.Valid() && fresh(heap.repr - old(heap.repr))
      invariant AtRetry(t, tb, Snap(heap, head), level, k, val, s, weak, key, node, pos, fill)
      decreases fill
    {
      RetryFacts(t, tb, Snap(heap, head), level, k, val, s, weak, key, node, pos, fill);
      ghost var more;
      err, node, pos, fill, more := Retry(heap, head, key, node, level, t, tb, k, val, s, pos);
      splits := splits + more;
      if err {
        return;
      }
    }
    RetryFacts(t, tb, Snap(heap, head), level, k, val, s, weak, key, node, pos, fill);
    PlaceLevel(heap, head, node, key, val, pos, fill, level, tb, k, s, weak);
    err := false;
  }

  /** `btree_insert_level`: the pair (key, val) enters level `level`, or nothing changes for lack of
      memory. No key on the level may equal the new one (the BUG_ON on duplicates). */
  method InsertLevel(heap: Heap, head: Head, key: KeyRef, val: nat, level: nat, ghost s: Ptr)
      returns (err: bool, ghost splits: seq<nat>)
    requires heap.Valid() && RefOk(heap.mem, key)
    requires key.Slot? && key.p in head.info ==> head.info[key.p].level < level
    requires InsertPre(Snap(heap, head), level, KeyAt(heap.mem, key), val, s)
    modifies heap, heap.repr, heap.calloc, head`info, head`node, head`height
    ensures heap.Valid() && fresh(heap.repr - old(heap.repr))
    ensures err ==> Lowered(old(Snap(heap, head)), Snap(heap, head), level) && Inv(Snap(heap, head), level)
    ensures !err ==> InsertPost(old(Snap(heap, head)), Snap(heap, head), level, old(KeyAt(heap.mem, key)), val, s)
    ensures Cascade(splits, level, old(head.height))
    ensures heap.calloc.refused == old(heap.calloc.refused) + if err then 1 else 0
    ensures !err ==> Count(heap.mem) + old(head.height) == old(Count(heap.mem)) + |splits| + head.height
    decreases head.height + 1 - level, 4
  {
    hide Count, heap.Valid, Inv, Lowered, InsertPost;
    ghost var t := Snap(heap, head);
    ghost var k := KeyAt(heap.mem, key);
    assert RefReads(t, level, key, k) && Inv(t, level) && level <= t.height + 1;
    StaysSame(t, level, k);
    hide InsertPre, RefReads, Prepared, Placed, SplitResult;
    ghost var weak;
    err, weak := Prepare(heap, head, key, val, level, k, s);
    if err {
      return err, [];
    }
    ghost var tb := Snap(heap, head);
    err, splits := InsertInto(heap, head, key, val, level, t, k, s, weak);
    if !err {
      PlacedPost(t, tb, Snap(heap, head), level, k, val, s, weak, key);
    }
  }

  lemma PreparedFacts(t: Tree, tb: Tree, l: nat, k: nat, v: nat, s: Ptr, weak: Ptr, key: KeyRef)
    requires Prepared(t, tb, l, k, v, s, weak, key)
    ensures Searching(tb, tb, l, k, v, s, weak) && NewKey(tb, l, k) && RefReads(tb, l, key, k)
  {
    hide Searching, NewKey, RefReads;
  }
}
