/** `steal_l` and `steal_r`, as the code does them, reach the state the proofs of `BorderProof` are
    about. */
module StealOps {
  import opened Nodes
  import opened Memory
  import opened Trees
  import opened Resplit
  import opened BorderProof
  import opened Slots

  ghost predicate PackedSlots(s: seq<nat>, f: nat) {
    f <= |s| && forall i {:trigger s[i]} :: f <= i < |s| ==> s[i] == 0
  }

  lemma PackedBoth(n: nat, nd: Node)
    requires Packed(n, nd)
    ensures PackedSlots(nd.keys, Fill(nd)) && PackedSlots(nd.vals, Fill(nd))
  {
  }

  lemma JoinByCopy(x: seq<nat>, fx: nat, y: seq<nat>, b: nat)
    requires PackedSlots(x, fx) && |x| == |y| && fx + b <= |x|
    ensures Over(x, fx, y, 0, b) == Join(x, fx, y, b)
  {
    hide Over, Join;
  }

  lemma FrontByClear(x: seq<nat>, fx: nat, a: nat)
    requires PackedSlots(x, fx) && a <= fx
    ensures Cleared(x, a, fx) == Front(x, a)
  {
    hide Cleared, Front;
  }

  lemma BackByCopy(y: seq<nat>, fy: nat, b: nat)
    requires PackedSlots(y, fy) && b <= fy
    ensures Cleared(Over(y, 0, y, b, fy - b), fy - b, fy) == Back(y, b)
  {
    hide Cleared, Back, Over;
  }

  lemma RightByCopy(x: seq<nat>, fx: nat, y: seq<nat>, fy: nat, no: nat)
    requires PackedSlots(y, fy) && |x| == |y| && no <= fx <= |x| && fy + no <= |y|
    ensures Over(Over(y, no, y, 0, fy), 0, x, fx - no, no) == Join(Back(x, fx - no), no, y, fy)
  {
    hide Over, Join, Back;
  }

  lemma JoinNodeByCopy(n: nat, x: Node, y: Node, b: nat)
    requires Packed(n, x) && Sized(n, y) && Fill(x) + b <= n
    ensures OverNode(x, Fill(x), y, 0, b) == JoinNode(x, Fill(x), y, b)
  {
    PackedBoth(n, x);
    JoinByCopy(x.keys, Fill(x), y.keys, b);
    JoinByCopy(x.vals, Fill(x), y.vals, b);
  }

  lemma FrontNodeByClear(n: nat, x: Node, a: nat)
    requires Packed(n, x) && a <= Fill(x)
    ensures ClearedNode(x, a, Fill(x)) == FrontNode(x, a)
  {
    PackedBoth(n, x);
    FrontByClear(x.keys, Fill(x), a);
    FrontByClear(x.vals, Fill(x), a);
  }

  lemma BackNodeByCopy(n: nat, y: Node, b: nat)
    requires Packed(n, y) && b <= Fill(y)
    ensures ClearedNode(OverNode(y, 0, y, b, Fill(y) - b), Fill(y) - b, Fill(y)) == BackNode(y, b)
  {
    PackedBoth(n, y);
    BackByCopy(y.keys, Fill(y), b);
    BackByCopy(y.vals, Fill(y), b);
  }

  lemma RightNodeByCopy(n: nat, x: Node, y: Node, no: nat)
    requires Packed(n, y) && Sized(n, x) && no <= Fill(x) && Fill(y) + no <= n
    ensures OverNode(OverNode(y, no, y, 0, Fill(y)), 0, x, Fill(x) - no, no) == JoinNode(BackNode(x, Fill(x) - no),
      no, y, Fill(y))
  {
    PackedBoth(n, y);
    RightByCopy(x.keys, Fill(x), y.keys, Fill(y), no);
    RightByCopy(x.vals, Fill(x), y.vals, Fill(y), no);
  }

  /** The memory after entries were stolen: parent key, left node, right node. */
  ghost function StolenMem(m: map<Ptr, Node>, x: Ptr, y: Ptr, up: Ptr, at: nat, b: nat, lx: Node, ry: Node): map<Ptr,
      Node>
    requires up in m && at < |m[up].keys|
  {
    m[up := Node(m[up].keys[at := b], m[up].vals)][x := lx][y := ry]
  }

  lemma StolenIs(t: Tree, l: nat, x: Ptr, y: Ptr, up: Ptr, at: nat, a: nat)
    requires CanBorder(t, l, x, y, up, at, a)
    ensures x != up && y != up && at < t.n && PairOk(t.n, t.mem[x], t.mem[y], a)
    ensures Stolen(t, l, x, y, up, at, a) ==
            t.(mem := StolenMem(t.mem, x, y, up, at, BorderKey(t, x, y, a), LeftPart(t.mem[x], t.mem[y], a),
                RightPart(t.mem[x], t.mem[y], a)),
               info := Stolen(t, l, x, y, up, at, a).info)
  {
    StolenDefined(t, l, x, y, up, at, a);
    hide Inv, LeftPart, RightPart;
  }

  /** Stores to different nodes commute. */
  lemma ThreeStores(m: map<Ptr, Node>, p: Ptr, a: Node, q: Ptr, b: Node, r: Ptr, c: Node)
    requires p != q && q != r && p != r
    ensures m[p := a][q := b][r := c] == m[q := b][r := c][p := a] == m[q := b][p := a][r := c]
  {
  }

  /** `steal_l`: the last `no` entries of `left` move to the front of `right`. */
  method StealL(heap: Heap, left: Ptr, lfill: nat, right: Ptr, rfill: nat, parent: Ptr, lpos: nat, no: nat)
    requires heap.Valid() && left in heap.mem && right in heap.mem && parent in heap.mem && lpos < heap.n
    requires left != right && left != parent && right != parent
    requires Packed(heap.n, heap.mem[left]) && Packed(heap.n, heap.mem[right])
    requires lfill == Fill(heap.mem[left]) && rfill == Fill(heap.mem[right]) && no < lfill && rfill + no <= heap.n
    modifies heap, heap.repr
    ensures heap.Valid() && heap.repr == old(heap.repr) && Sized(heap.n, old(heap.mem[parent]))
    ensures heap.mem == StolenMem(old(heap.mem), left, right, parent, lpos, old(heap.mem[left]).keys[lfill - no - 1],
                                  LeftPart(old(heap.mem[left]), old(heap.mem[right]), lfill - no),
                                  RightPart(old(heap.mem[left]), old(heap.mem[right]), lfill - no))
  {
    ghost var m: map<Ptr, Node> := heap.mem;
    ghost var x, y := m[left], m[right];
    heap.SizedAt(parent);
    FrontNodeByClear(heap.n, x, lfill - no);
    assert lfill <= heap.n && Sized(heap.n, x) && Sized(heap.n, y) &&
        LeftPart(x, y, lfill - no) == FrontNode(x, lfill - no);
    hide heap.Valid, Fill, ClearedNode, FrontNode, LeftPart, RightPart;
    ShiftAndFill(heap, left, lfill, right, rfill, no);
    hide Packed;
    ghost var m1: map<Ptr, Node> := m[right := RightPart(x, y, lfill - no)];
    SetParentKey(heap, parent, left, lfill - no - 1, lpos);
    assert heap.mem == m1[parent := Node(m[parent].keys[lpos := x.keys[lfill - no - 1]], m[parent].vals)];
    ClearRange(heap, left, lfill - no, lfill);
    ThreeStores(m, right, RightPart(x, y, lfill - no), parent, Node(m[parent].keys[lpos := x.keys[lfill - no - 1]],
        m[parent].vals), left, FrontNode(x, lfill - no));
  }

  /** The separator between two neighbours follows the border. */
  method SetParentKey(heap: Heap, parent: Ptr, node: Ptr, i: nat, lpos: nat)
    requires heap.Valid() && node in heap.mem && parent in heap.mem && lpos < heap.n && i < heap.n
    modifies heap, heap.repr
    ensures heap.Valid() && heap.repr == old(heap.repr) && Sized(heap.n, old(heap.mem[parent])) &&
      Sized(heap.n, old(heap.mem[node]))
    ensures heap.mem == old(heap.mem)[parent := Node(old(heap.mem[parent]).keys[lpos := old(heap.mem[node]).keys[i]],
      old(heap.mem[parent]).vals)]
  {
    var key := heap.GetKey(node, i);
    heap.SetKey(parent, key, lpos);
  }

  /** The first two loops of `steal_l`. */
  method ShiftAndFill(heap: Heap, left: Ptr, lfill: nat, right: Ptr, rfill: nat, no: nat)
    requires heap.Valid() && left in heap.mem && right in heap.mem && left != right
    requires Packed(heap.n, heap.mem[left]) && Packed(heap.n, heap.mem[right])
    requires lfill == Fill(heap.mem[left]) && rfill == Fill(heap.mem[right]) && no < lfill && rfill + no <= heap.n
    modifies heap, heap.repr
    ensures heap.Valid() && heap.repr == old(heap.repr)
    ensures heap.mem == old(heap.mem)[right := RightPart(old(heap.mem[left]), old(heap.mem[right]), lfill - no)]
  {
    ghost var m: map<Ptr, Node> := heap.mem;
    ghost var x, y := m[left], m[right];
    RightNodeByCopy(heap.n, x, y, no);
    assert Sized(heap.n, x) && Sized(heap.n, y) && RightPart(x, y, lfill - no) == JoinNode(BackNode(x, lfill - no),
        no, y, rfill);
    hide heap.Valid, Fill, Packed, OverNode, JoinNode, BackNode, RightPart;
    CopyDown(heap, right, no, 0, rfill);
    assert heap.mem == m[right := OverNode(y, no, y, 0, rfill)];
    CopyUp(heap, right, 0, left, lfill - no, no);
    NodeRewrite(m, right, OverNode(y, no, y, 0, rfill), RightPart(x, y, lfill - no));
  }

  /** `steal_r`: the first `no` entries of `right` move to the end of `left`. */
  method StealR(heap: Heap, left: Ptr, lfill: nat, right: Ptr, rfill: nat, parent: Ptr, lpos: nat, no: nat)
    requires heap.Valid() && left in heap.mem && right in heap.mem && parent in heap.mem && lpos < heap.n
    requires left != right && left != parent && right != parent
    requires Packed(heap.n, heap.mem[left]) && Packed(heap.n, heap.mem[right])
    requires lfill == Fill(heap.mem[left]) && rfill == Fill(heap.mem[right]) && 0 < no < rfill && lfill + no <= heap.n
    modifies heap, heap.repr
    ensures heap.Valid() && heap.repr == old(heap.repr) && Sized(heap.n, old(heap.mem[parent]))
    ensures heap.mem == StolenMem(old(heap.mem), left, right, parent, lpos, old(heap.mem[right]).keys[no - 1],
                                  LeftPart(old(heap.mem[left]), old(heap.mem[right]), lfill + no),
                                  RightPart(old(heap.mem[left]), old(heap.mem[right]), lfill + no))
  {
    hide heap.Valid, Fill, OverNode, BackNode;
    ghost var m: map<Ptr, Node> := heap.mem;
    ghost var x, y := m[left], m[right];
    heap.SizedAt(parent);
    JoinNodeByCopy(heap.n, x, y, no);
    assert rfill <= heap.n && Sized(heap.n, x) && Sized(heap.n, y);
    assert LeftPart(x, y, lfill + no) == JoinNode(x, lfill, y, no) && RightPart(x, y, lfill + no) == BackNode(y, no);
    hide JoinNode, LeftPart, RightPart;
    hide Packed;
    CopyUp(heap, left, lfill, right, 0, no);
    ghost var m1: map<Ptr, Node> := m[left := LeftPart(x, y, lfill + no)];
    assert heap.mem == m1;
    SetParentKey(heap, parent, right, no - 1, lpos);
    assert heap.mem == m1[parent := Node(m[parent].keys[lpos := y.keys[no - 1]], m[parent].vals)];
    ShiftDown(heap, right, rfill, no);
    ThreeStores(m, left, LeftPart(x, y, lfill + no), parent,
        Node(m[parent].keys[lpos := y.keys[no - 1]], m[parent].vals), right, RightPart(x, y, lfill + no));
  }

  /** The last two loops of `steal_r`. */
  method ShiftDown(heap: Heap, right: Ptr, rfill: nat, no: nat)
    requires heap.Valid() && right in heap.mem && Packed(heap.n, heap.mem[right]) && rfill == Fill(heap.mem[right]) &&
      no < rfill
    modifies heap, heap.repr
    ensures heap.Valid() && heap.repr == old(heap.repr)
    ensures heap.mem == old(heap.mem)[right := BackNode(old(heap.mem[right]), no)]
  {
    ghost var m: map<Ptr, Node> := heap.mem;
    ghost var y := m[right];
    BackNodeByCopy(heap.n, y, no);
    assert rfill <= heap.n && Sized(heap.n, y);
    hide heap.Valid, Fill, Packed, ClearedNode, OverNode, BackNode;
    CopyUp(heap, right, 0, right, no, rfill - no);
    assert heap.mem == m[right := OverNode(y, 0, y, no, rfill - no)];
    ClearRange(heap, right, rfill - no, rfill);
    NodeRewrite(m, right, OverNode(y, 0, y, no, rfill - no), BackNode(y, no));
  }
}
