/** Removal, as the code does it: `btree_remove_level`, `rebalance`, `merge` and `btree_shrink` call
    one another up the tree. */
module RemoveOps {
  import opened Nodes
  import opened Memory
  import opened Trees
  import opened Find
  import opened Resplit
  import opened CutProof
  import opened BorderProof
  import opened MergeProof
  import opened RemoveProof
  import opened Slots
  import opened StealOps

  /** `btree_shrink`, called with the fill of the root. */
  method Shrink(heap: Heap, head: Head, fill: nat, ghost level: nat)
    requires heap.Valid() && Inv(Snap(heap, head), level) && 0 < level == head.height
    requires Has(Snap(heap, head), head.node) && fill == Fill(heap.mem[head.node]) && 0 < heap.n &&
      (fill == 0 ==> head.height == 1)
    modifies heap, heap.repr, head`info, head`node, head`height
    ensures heap.Valid() && heap.repr == old(heap.repr)
    ensures old(fill >= 2 || (head.height == 1 && fill == 1)) ==> Snap(heap, head) == old(Snap(heap, head))
    ensures old(!(fill >= 2 || (head.height == 1 && fill == 1))) ==>
              CanShrink(old(Snap(heap, head)), level) && Snap(heap, head) == Shrunk(old(Snap(heap, head)))
  {
    hide heap.Valid, Inv, Fill;
    if fill == 0 || (fill == 1 && head.height > 1) {
      var node := head.node;
      ghost var u := Snap(heap, head);
      var root := heap.GetVal(node, 0);
      head.node := root;
      head.height := head.height - 1;
      heap.Free(node);
      head.info := Shrunk(u).info;
    }
  }

  /** What removal at a level asks for: above the leaves, the slot of a child whose key pointer is
      that very slot. */
  ghost predicate RemovePre(t: Tree, l: nat, key: KeyRef, p0: Ptr, i0: nat) {
    && 0 < l <= t.height && Inv(t, l) && Filled(t, l, 0)
    && (l > 1 ==> CanCut(t, l, p0, i0) && key == Slot(p0, i0))
    && (l == 1 ==> key.Imm? && key.k < t.span)
  }

  ghost predicate RemoveResult(t: Tree, t': Tree, l: nat, key: KeyRef, p0: Ptr, i0: nat, ret: nat, hit: bool,
      over: bool, p: Ptr, i: nat) {
    && (l > 1 ==> !over && Removed(t, t', l, p0, i0))
    && (l == 1 ==>
          && key.Imm? && Answer(t, key.k, ret, hit, over, p, i)
          && (hit ==> Removed(t, t', l, p, i))
          && (!hit ==> Lowered(t, t', 1) && Inv(t', 1) && Filled(t', 1, 0)))
  }

  /** The state in which `merge` calls `btree_remove_level`. */
  ghost predicate ToMerge(t: Tree, l: nat, x: Ptr, y: Ptr, up: Ptr, at: nat, weak: Ptr) {
    && CanMerge(t, l, x, y, up, at) && Filled(t, l, weak) && (weak == x || weak == y) && l < t.height
  }

  lemma MergeStarts(t: Tree, l: nat, x: Ptr, y: Ptr, up: Ptr, at: nat, weak: Ptr)
    requires ToMerge(t, l, x, y, up, at, weak)
    ensures Has(t, x) && Has(t, y) && Has(t, up) && at + 1 < t.n && x != y && x != up && y != up
    ensures Fill(t.mem[x]) + Fill(t.mem[y]) <= t.n && Packed(t.n, t.mem[x])
    ensures RemovePre(Exchanged(t, l, x, y, up, at), l + 1, Slot(up, at), up, at)
  {
    NeighbourFacts(t, l, x, y, up, at);
    ExchangedCut(t, l, x, y, up, at);
    hide Inv, Filled, NodeOk, Exchanged;
    assert CanCut(Exchanged(t, l, x, y, up, at), l + 1, up, at);
  }

  /** The state in which `btree_remove_level` returns to `merge`. */
  ghost predicate MidMerge(t: Tree, u: Tree, l: nat, x: Ptr, y: Ptr, up: Ptr, at: nat, weak: Ptr) {
    && ToMerge(t, l, x, y, up, at, weak) && Has(t, x) && Has(t, y) && Has(t, up) && at + 1 < t.n
    && Fill(t.mem[x]) + Fill(t.mem[y]) <= t.n && Removed(Exchanged(t, l, x, y, up, at), u, l + 1, up, at)
  }

  lemma MergeEnds(t: Tree, u: Tree, l: nat, x: Ptr, y: Ptr, up: Ptr, at: nat, weak: Ptr)
    requires MidMerge(t, u, l, x, y, up, at, weak)
    ensures y in u.mem && x in t.info && x in u.info && Rebalanced(t, Merged(t, u, x, y), l)
    ensures Merged(t, u, x, y) == u.(mem := u.mem - {y}, info := Merged(t, u, x, y).info)
  {
    SwallowedHolds(t, u, l, x, y, up, at);
    hide Removed, Exchanged, CanMerge, Inv, Filled, NodeOk, Linked, SHi;
    MergedHolds(t, u, l, x, y, up, at, weak);
  }

  /** The left node now holds the entries of both. */
  lemma MergeFills(t: Tree, u: Tree, l: nat, x: Ptr, y: Ptr, up: Ptr, at: nat, weak: Ptr)
    requires MidMerge(t, u, l, x, y, up, at, weak)
    ensures Has(t, x) && Has(t, y) && x in u.mem && x != y && Fill(u.mem[x]) == Fill(t.mem[x]) + Fill(t.mem[y])
  {
    NeighbourFacts(t, l, x, y, up, at);
    PairJoined(t, l, x, y, up, at);
    var e := Exchanged(t, l, x, y, up, at);
    assert e.info[x].level == l && x in e.mem && x in e.info && up != x;
    hide Inv, Filled, NodeOk, Fill;
  }

  lemma PairJoined(t: Tree, l: nat, x: Ptr, y: Ptr, up: Ptr, at: nat)
    requires CanMerge(t, l, x, y, up, at) && Has(t, x) && Has(t, y)
    ensures |t.mem[x].keys| == |t.mem[x].vals| == |t.mem[y].keys| == |t.mem[y].vals| == t.n
    ensures Fill(t.mem[x]) + Fill(t.mem[y]) <= t.n
    ensures Fill(JoinNode(t.mem[x], Fill(t.mem[x]), t.mem[y], Fill(t.mem[y]))) == Fill(t.mem[x]) + Fill(t.mem[y])
  {
    NeighbourFacts(t, l, x, y, up, at);
    hide Inv, Filled;
    JoinFacts(t.n, t.mem[x], Fill(t.mem[x]), t.mem[y], Fill(t.mem[y]));
  }

  /** `merge` swaps the two children in their parent. */
  method SwapSlots(heap: Heap, left: Ptr, right: Ptr, parent: Ptr, lpos: nat)
    requires heap.Valid() && parent in heap.mem && lpos + 1 < heap.n
    modifies heap, heap.repr
    ensures heap.Valid() && heap.repr == old(heap.repr) && Sized(heap.n, old(heap.mem[parent]))
    ensures heap.mem == old(heap.mem)[parent :=
      Node(old(heap.mem[parent]).keys, old(heap.mem[parent]).vals[lpos := right][lpos + 1 := left])]
  {
    ghost var m: map<Ptr, Node> := heap.mem;
    hide heap.Valid;
    heap.SetVal(parent, right, lpos);
    ghost var b := Node(m[parent].keys, m[parent].vals[lpos := right]);
    assert heap.mem == m[parent := b];
    heap.SetVal(parent, left, lpos + 1);
    NodeRewrite(m, parent, b, Node(b.keys, b.vals[lpos + 1 := left]));
  }

  lemma ExchangedMem(t: Tree, l: nat, x: Ptr, y: Ptr, up: Ptr, at: nat)
    requires Has(t, x) && Has(t, y) && Has(t, up) && at + 1 < t.n && Fill(t.mem[x]) + Fill(t.mem[y]) <= t.n
    requires x != up && Packed(t.n, t.mem[x])
    ensures Exchanged(t, l, x, y, up, at) ==
            t.(mem := t.mem[x := OverNode(t.mem[x], Fill(t.mem[x]), t.mem[y], 0, Fill(t.mem[y]))]
                           [up := Node(t.mem[up].keys, t.mem[up].vals[at := y][at + 1 := x])],
               info := Exchanged(t, l, x, y, up, at).info)
  {
    JoinNodeByCopy(t.n, t.mem[x], t.mem[y], Fill(t.mem[y]));
    hide OverNode, JoinNode, Fill;
  }

  /** `merge` up to its recursive call. */
  method Exchange(heap: Heap, head: Head, ghost level: nat, left: Ptr, lfill: nat, right: Ptr, rfill: nat,
      parent: Ptr, lpos: nat)
    requires heap.Valid() && Has(Snap(heap, head), left) && Has(Snap(heap, head), right) &&
      Has(Snap(heap, head), parent)
    requires lpos + 1 < heap.n && left != parent && left != right && Packed(heap.n, heap.mem[left])
    requires lfill == Fill(heap.mem[left]) && rfill == Fill(heap.mem[right]) && lfill + rfill <= heap.n
    modifies heap, heap.repr, head`info
    ensures heap.Valid() && heap.repr == old(heap.repr)
    ensures Snap(heap, head) == Exchanged(old(Snap(heap, head)), level, left, right, parent, lpos)
  {
    hide heap.Valid, Fill, Packed, OverNode, Exchanged;
    ghost var t := Snap(heap, head);
    ghost var m: map<Ptr, Node> := heap.mem;
    ExchangedMem(t, level, left, right, parent, lpos);
    CopyUp(heap, left, lfill, right, 0, rfill);
    assert heap.mem == m[left := OverNode(m[left], lfill, m[right], 0, rfill)];
    SwapSlots(heap, left, right, parent, lpos);
    head.info := Exchanged(t, level, left, right, parent, lpos).info;
  }

  /** `merge`: `left` takes the entries of `right`, and the slot of `right` leaves the parent. */
  method Merge(heap: Heap, head: Head, level: nat, left: Ptr, lfill: nat, right: Ptr, rfill: nat, parent: Ptr,
      lpos: nat, ghost weak: Ptr)
    requires heap.Valid() && ToMerge(Snap(heap, head), level, left, right, parent, lpos, weak)
    requires Has(Snap(heap, head), left) && Has(Snap(heap, head), right)
    requires lfill == Fill(heap.mem[left]) && rfill == Fill(heap.mem[right]) && level < head.height
    modifies heap, heap.repr, head`info, head`node, head`height
    ensures heap.Valid() && heap.repr == old(heap.repr)
    ensures Rebalanced(old(Snap(heap, head)), Snap(heap, head), level)
    ensures right !in heap.mem && left in heap.mem && Fill(heap.mem[left]) == lfill + rfill
    decreases head.height - level, 0
  {
    hide heap.Valid, ToMerge, RemovePre, Packed, Fill, Rebalanced, Exchanged, Removed;
    ghost var t := Snap(heap, head);
    MergeStarts(t, level, left, right, parent, lpos, weak);
    Exchange(heap, head, level, left, lfill, right, rfill, parent, lpos);
    // the slot of `left` goes, which now stands where `right` stood
    ghost var hit, p, i;
    var ret: nat;
    var over;
    ret, over, hit, p, i := RemoveLevel(heap, head, Slot(parent, lpos), level + 1, parent, lpos);
    FreeRight(heap, head, level, left, right, parent, lpos, weak, t);
  }

  /** `merge` after its recursive call. */
  method FreeRight(heap: Heap, head: Head, ghost level: nat, ghost left: Ptr, right: Ptr, ghost parent: Ptr,
      ghost lpos: nat, ghost weak: Ptr, ghost t: Tree)
    requires heap.Valid() && MidMerge(t, Snap(heap, head), level, left, right, parent, lpos, weak)
    modifies heap, head`info
    ensures heap.Valid() && heap.repr == old(heap.repr)
    ensures Rebalanced(t, Snap(heap, head), level)
    ensures right !in heap.mem && left in heap.mem && Has(t, left) && Has(t, right) &&
      Fill(heap.mem[left]) == Fill(t.mem[left]) + Fill(t.mem[right])
  {
    hide heap.Valid, MidMerge, Rebalanced, Merged, Has, Fill, Removed, Exchanged;
    ghost var u := Snap(heap, head);
    MergeEnds(t, u, level, left, right, parent, lpos, weak);
    MergeFills(t, u, level, left, right, parent, lpos, weak);
    heap.Free(right);
    head.info := Merged(t, u, left, right).info;
  }

  /** `rebalance` after the parent has been found: slot `at` of `up` points to `child`. */
  ghost predicate InParent(t: Tree, l: nat, child: Ptr, fill: nat, up: Ptr, at: nat) {
    && Inv(t, l) && Filled(t, l, child) && 0 < l < t.height && 4 <= t.n
    && Has(t, child) && t.info[child].level == l && fill == Fill(t.mem[child]) && 1 <= fill < t.n / 2
    && Has(t, up) && t.info[up].level == l + 1 && at < Fill(t.mem[up]) <= t.n && 2 <= Fill(t.mem[up])
    && t.mem[up].vals[at] == child && FillFrom(t.mem[up].vals, at) == Fill(t.mem[up])
  }

  /** The two nodes of a pair whose entries may be exchanged. */
  ghost predicate Partners(t: Tree, l: nat, x: Ptr, y: Ptr, up: Ptr, at: nat, weak: Ptr) {
    && Neighbours(t, l, x, y, up, at) && Filled(t, l, weak) && (weak == x || weak == y) && l < t.height && 4 <= t.n
    && Has(t, x) && Has(t, y) && 1 <= Fill(t.mem[x]) <= t.n && 1 <= Fill(t.mem[y]) <= t.n
    && (weak != x ==> 2 <= Fill(t.mem[x])) && (weak != y ==> 2 <= Fill(t.mem[y]))
  }

  lemma LeftPartner(t: Tree, l: nat, child: Ptr, fill: nat, up: Ptr, at: nat)
    requires InParent(t, l, child, fill, up, at) && 0 < at
    ensures Has(t, up) && at < t.n && t.mem[up].vals[at - 1] != 0 &&
      Partners(t, l, t.mem[up].vals[at - 1], child, up, at - 1, child)
  {
    PairFound(t, l, child, up, at - 1);
    hide Inv, Filled;
  }

  lemma RightPartner(t: Tree, l: nat, child: Ptr, fill: nat, up: Ptr, at: nat)
    requires InParent(t, l, child, fill, up, at) && at + 1 < Fill(t.mem[up])
    ensures Has(t, up) && at + 1 < t.n && t.mem[up].vals[at + 1] != 0 &&
      Partners(t, l, child, t.mem[up].vals[at + 1], up, at, child)
  {
    PairFound(t, l, child, up, at);
    hide Inv, Filled;
  }

  lemma PartnersMerge(t: Tree, l: nat, x: Ptr, y: Ptr, up: Ptr, at: nat, weak: Ptr)
    requires Partners(t, l, x, y, up, at, weak) && Fill(t.mem[x]) + Fill(t.mem[y]) <= t.n
    ensures ToMerge(t, l, x, y, up, at, weak)
  {
    NeighbourFacts(t, l, x, y, up, at);
    hide Inv, NodeOk;
  }

  /** The state `steal_l` or `steal_r` reaches when the left node is left with `a` entries. */
  ghost predicate Steals(t: Tree, l: nat, x: Ptr, y: Ptr, up: Ptr, at: nat, a: nat) {
    && Has(t, x) && Has(t, y) && Has(t, up) && x != y && x != up && y != up && at < t.n
    && Packed(t.n, t.mem[x]) && Packed(t.n, t.mem[y]) && PairOk(t.n, t.mem[x], t.mem[y], a)
    && 0 < a < Fill(t.mem[x]) + Fill(t.mem[y])
    && Rebalanced(t, Stolen(t, l, x, y, up, at, a), l)
    && Stolen(t, l, x, y, up, at, a) ==
         t.(mem := StolenMem(t.mem, x, y, up, at, PairKey(t.mem[x], t.mem[y], a - 1), LeftPart(t.mem[x], t.mem[y], a),
             RightPart(t.mem[x], t.mem[y], a)),
            info := Stolen(t, l, x, y, up, at, a).info)
  }

  lemma PartnersSteal(t: Tree, l: nat, x: Ptr, y: Ptr, up: Ptr, at: nat, weak: Ptr, a: nat)
    requires Partners(t, l, x, y, up, at, weak) && 2 <= a && a + 2 <= Fill(t.mem[x]) + Fill(t.mem[y])
    requires a <= t.n && Fill(t.mem[x]) + Fill(t.mem[y]) <= a + t.n
    ensures Steals(t, l, x, y, up, at, a)
  {
    NeighbourFacts(t, l, x, y, up, at);
    StolenHolds(t, l, x, y, up, at, a, weak);
    StolenIs(t, l, x, y, up, at, a);
    hide Inv, NodeOk, Stolen, Rebalanced, Neighbours, Filled, LeftPart, RightPart, PairKey, StolenMem, Fill, Descending;
  }

  lemma StealsFacts(t: Tree, l: nat, x: Ptr, y: Ptr, up: Ptr, at: nat, a: nat)
    requires Steals(t, l, x, y, up, at, a)
    ensures Has(t, x) && Has(t, y) && Has(t, up) && x != y && x != up && y != up && at < t.n
    ensures Packed(t.n, t.mem[x]) && Packed(t.n, t.mem[y])
    ensures a <= t.n && Fill(t.mem[x]) + Fill(t.mem[y]) <= a + t.n
  {
    hide Rebalanced, Stolen, Descending, Packed;
  }

  lemma StealsLeftKey(t: Tree, l: nat, x: Ptr, y: Ptr, up: Ptr, at: nat, no: nat)
    requires Has(t, x) && Has(t, y) && no < Fill(t.mem[x]) <= t.n && Steals(t, l, x, y, up, at, Fill(t.mem[x]) - no)
    ensures PairKey(t.mem[x], t.mem[y], Fill(t.mem[x]) - no - 1) == t.mem[x].keys[Fill(t.mem[x]) - no - 1]
    ensures Fill(t.mem[y]) + no <= t.n
  {
    hide Steals, Packed, Fill;
    StealsFacts(t, l, x, y, up, at, Fill(t.mem[x]) - no);
  }

  lemma StealsRightKey(t: Tree, l: nat, x: Ptr, y: Ptr, up: Ptr, at: nat, no: nat)
    requires Has(t, x) && Has(t, y) && 0 < no < Fill(t.mem[y]) <= t.n && Steals(t, l, x, y, up, at, Fill(t.mem[x]) + no)
    ensures PairKey(t.mem[x], t.mem[y], Fill(t.mem[x]) + no - 1) == t.mem[y].keys[no - 1]
    ensures Fill(t.mem[x]) + no <= t.n
  {
    hide Steals, Packed, Fill;
    StealsFacts(t, l, x, y, up, at, Fill(t.mem[x]) + no);
  }

  /** Everything `StealLeft` needs to know about the tree. */
  lemma StealLeftFacts(t: Tree, l: nat, x: Ptr, y: Ptr, up: Ptr, at: nat, no: nat)
    requires Has(t, x) && Has(t, y) && no < Fill(t.mem[x]) && Steals(t, l, x, y, up, at, Fill(t.mem[x]) - no)
    ensures Has(t, x) && Has(t, y) && Has(t, up) && x != y && x != up && y != up && at < t.n
    ensures Packed(t.n, t.mem[x]) && Packed(t.n, t.mem[y]) && Fill(t.mem[y]) + no <= t.n
    ensures var a := Fill(t.mem[x]) - no;
            && PairOk(t.n, t.mem[x], t.mem[y], a) && Sized(t.n, t.mem[up])
            && Rebalanced(t, t.(mem :=
                StolenMem(t.mem, x, y, up, at, t.mem[x].keys[a - 1], LeftPart(t.mem[x], t.mem[y], a),
                RightPart(t.mem[x], t.mem[y], a)),
                                info := Stolen(t, l, x, y, up, at, a).info), l)
            && Fill(LeftPart(t.mem[x], t.mem[y], a)) == a
            && Fill(RightPart(t.mem[x], t.mem[y], a)) == Fill(t.mem[y]) + no
  {
    hide Rebalanced, Stolen, Descending, LeftPart, RightPart, Fill, Packed, StolenMem;
    StealsLeftKey(t, l, x, y, up, at, no);
    StealsFacts(t, l, x, y, up, at, Fill(t.mem[x]) - no);
    LeftFacts(t.n, t.mem[x], t.mem[y], Fill(t.mem[x]) - no);
    RightFacts(t.n, t.mem[x], t.mem[y], Fill(t.mem[x]) - no);
  }

  lemma StealRightFacts(t: Tree, l: nat, x: Ptr, y: Ptr, up: Ptr, at: nat, no: nat)
    requires Has(t, x) && Has(t, y) && 0 < no < Fill(t.mem[y]) && Steals(t, l, x, y, up, at, Fill(t.mem[x]) + no)
    ensures Has(t, x) && Has(t, y) && Has(t, up) && x != y && x != up && y != up && at < t.n
    ensures Packed(t.n, t.mem[x]) && Packed(t.n, t.mem[y]) && Fill(t.mem[x]) + no <= t.n
    ensures var a := Fill(t.mem[x]) + no;
            && PairOk(t.n, t.mem[x], t.mem[y], a) && Sized(t.n, t.mem[up])
            && Rebalanced(t, t.(mem :=
                StolenMem(t.mem, x, y, up, at, t.mem[y].keys[no - 1], LeftPart(t.mem[x], t.mem[y], a),
                RightPart(t.mem[x], t.mem[y], a)),
                                info := Stolen(t, l, x, y, up, at, a).info), l)
            && Fill(LeftPart(t.mem[x], t.mem[y], a)) == a
            && Fill(RightPart(t.mem[x], t.mem[y], a)) == Fill(t.mem[y]) - no
  {
    hide Rebalanced, Stolen, Descending, LeftPart, RightPart, Fill, Packed, StolenMem;
    StealsRightKey(t, l, x, y, up, at, no);
    StealsFacts(t, l, x, y, up, at, Fill(t.mem[x]) + no);
    LeftFacts(t.n, t.mem[x], t.mem[y], Fill(t.mem[x]) + no);
    RightFacts(t.n, t.mem[x], t.mem[y], Fill(t.mem[x]) + no);
  }

  /** `steal_l` on the tree. */
  method StealLeft(heap: Heap, head: Head, ghost level: nat, left: Ptr, lfill: nat, right: Ptr, rfill: nat,
      parent: Ptr, lpos: nat, no: nat)
    requires heap.Valid() && Has(Snap(heap, head), left) && Has(Snap(heap, head), right)
    requires lfill == Fill(heap.mem[left]) && rfill == Fill(heap.mem[right]) && no < lfill
    requires Steals(Snap(heap, head), level, left, right, parent, lpos, lfill - no)
    modifies heap, heap.repr, head`info
    ensures heap.Valid() && heap.repr == old(heap.repr)
    ensures Rebalanced(old(Snap(heap, head)), Snap(heap, head), level)
    ensures left in heap.mem && right in heap.mem && Fill(heap.mem[left]) == lfill - no &&
      Fill(heap.mem[right]) == rfill + no
  {
    hide heap.Valid, Steals, Packed, Fill, Rebalanced, LeftPart, RightPart, Stolen, PairOk;
    ghost var t := Snap(heap, head);
    StealLeftFacts(t, level, left, right, parent, lpos, no);
    StealL(heap, left, lfill, right, rfill, parent, lpos, no);
    head.info := Stolen(t, level, left, right, parent, lpos, lfill - no).info;
  }

  /** `steal_r` on the tree. */
  method StealRight(heap: Heap, head: Head, ghost level: nat, left: Ptr, lfill: nat, right: Ptr, rfill: nat,
      parent: Ptr, lpos: nat, no: nat)
    requires heap.Valid() && Has(Snap(heap, head), left) && Has(Snap(heap, head), right)
    requires lfill == Fill(heap.mem[left]) && rfill == Fill(heap.mem[right]) && 0 < no < rfill
    requires Steals(Snap(heap, head), level, left, right, parent, lpos, lfill + no)
    modifies heap, heap.repr, head`info
    ensures heap.Valid() && heap.repr == old(heap.repr)
    ensures Rebalanced(old(Snap(heap, head)), Snap(heap, head), level)
    ensures left in heap.mem && right in heap.mem && Fill(heap.mem[left]) == lfill + no &&
      Fill(heap.mem[right]) == rfill - no
  {
    hide heap.Valid, Steals, Packed, Fill, Rebalanced, LeftPart, RightPart, Stolen, PairOk;
    ghost var t := Snap(heap, head);
    StealRightFacts(t, level, left, right, parent, lpos, no);
    StealR(heap, left, lfill, right, rfill, parent, lpos, no);
    head.info := Stolen(t, level, left, right, parent, lpos, lfill + no).info;
  }

  lemma InParentFacts(t: Tree, l: nat, child: Ptr, fill: nat, up: Ptr, at: nat)
    requires InParent(t, l, child, fill, up, at)
    ensures Has(t, up) && Has(t, child) && fill == Fill(t.mem[child]) && 1 <= fill <= t.n && at < t.n && 4 <= t.n
    ensures FillFrom(t.mem[up].vals, at) == Fill(t.mem[up]) && (at > 0 || at + 1 < Fill(t.mem[up]))
    ensures 2 <= fill ==> Rebalanced(t, t, l)
    ensures 0 < l < t.height
  {
    hide Inv;
  }

  lemma PartnerFacts(t: Tree, l: nat, x: Ptr, y: Ptr, up: Ptr, at: nat, weak: Ptr)
    requires Partners(t, l, x, y, up, at, weak)
    ensures Has(t, x) && Has(t, y) && Fill(t.mem[x]) <= t.n && Fill(t.mem[y]) <= t.n && (weak == x || weak == y)
    ensures Fill(t.mem[x]) + Fill(t.mem[y]) <= t.n ==> ToMerge(t, l, x, y, up, at, weak)
  {
    if Fill(t.mem[x]) + Fill(t.mem[y]) <= t.n {
      PartnersMerge(t, l, x, y, up, at, weak);
    }
    hide Neighbours, Filled, ToMerge;
  }

  /** Half of the difference is a number of entries that may move: the BUG_ONs of `rebalance` do not
      fire. */
  lemma HalfDifference(t: Tree, l: nat, x: Ptr, y: Ptr, up: Ptr, at: nat, weak: Ptr)
    requires Partners(t, l, x, y, up, at, weak) && Has(t, x) && Has(t, y) && Fill(t.mem[x]) + Fill(t.mem[y]) > t.n &&
      4 <= t.n
    ensures weak == y && Fill(t.mem[y]) == 1 ==>
              var no := (Fill(t.mem[x]) - 1) / 2;
                  1 <= no < Fill(t.mem[x]) && Steals(t, l, x, y, up, at, Fill(t.mem[x]) - no)
    ensures weak == x && Fill(t.mem[x]) == 1 ==>
              var no := (Fill(t.mem[y]) - 1) / 2; 1 <= no < Fill(t.mem[y]) && Steals(t, l, x, y, up, at, 1 + no)
  {
    hide Steals;
    if weak == y && Fill(t.mem[y]) == 1 {
      PartnersSteal(t, l, x, y, up, at, weak, Fill(t.mem[x]) - (Fill(t.mem[x]) - 1) / 2);
    }
    if weak == x && Fill(t.mem[x]) == 1 {
      PartnersSteal(t, l, x, y, up, at, weak, 1 + (Fill(t.mem[y]) - 1) / 2);
    }
  }

  /** The left neighbour takes in the child if both fit one node, or else the child the right
      neighbour; a child with more than one entry is otherwise left alone; one with a single entry
      shares evenly with the left neighbour, or with the right one if there is no left. */
  ghost predicate Outcome(t: Tree, t': Tree, child: Ptr, up: Ptr, at: nat) {
    && Has(t, child) && Has(t, up) && at < |t.mem[up].vals|
    && var fill, slots := Fill(t.mem[child]), t.mem[up].vals;
       var left, right := if at > 0 then slots[at - 1] else 0, if at + 1 < Fill(t.mem[up]) then slots[at + 1] else 0;
       if left in t.mem && left != 0 && fill + Fill(t.mem[left]) <= t.n then Joined(t, t', left, child)
       else if right in t.mem && right != 0 && fill + Fill(t.mem[right]) <= t.n then Joined(t, t', child, right)
       else if fill > 1 then t' == t
       else if left != 0 then Shared(t, t', left, child)
       else Shared(t, t', child, right)
  }

  ghost predicate Joined(t: Tree, t': Tree, x: Ptr, y: Ptr) {
    && x in t.mem && y in t.mem && x in t'.mem && y !in t'.mem
    && Fill(t'.mem[x]) == Fill(t.mem[x]) + Fill(t.mem[y])
  }

  ghost predicate Shared(t: Tree, t': Tree, x: Ptr, y: Ptr) {
    && x in t.mem && y in t.mem && x in t'.mem && y in t'.mem
    && Fill(t'.mem[x]) + Fill(t'.mem[y]) == Fill(t.mem[x]) + Fill(t.mem[y])
    && Fill(t'.mem[x]) <= Fill(t'.mem[y]) + 1 && Fill(t'.mem[y]) <= Fill(t'.mem[x]) + 1
  }

  /** `rebalance` after the search for the parent. */
  method RebalanceIn(heap: Heap, head: Head, level: nat, child: Ptr, fill: nat, parent: Ptr, childNo: nat)
    requires heap.Valid() && InParent(Snap(heap, head), level, child, fill, parent, childNo) && level < head.height
    modifies heap, heap.repr, head`info, head`node, head`height
    ensures heap.Valid() && heap.repr == old(heap.repr)
    ensures Rebalanced(old(Snap(heap, head)), Snap(heap, head), level)
    ensures Outcome(old(Snap(heap, head)), Snap(heap, head), child, parent, childNo)
    decreases head.height - level, 1
  {
    hide heap.Valid, InParent, Partners, Fill, FillFrom, ToMerge, Steals, Rebalanced;
    ghost var t := Snap(heap, head);
    InParentFacts(t, level, child, fill, parent, childNo);
    var left, right, noLeft, noRight := 0, 0, 0, 0;
    if childNo > 0 {
      LeftPartner(t, level, child, fill, parent, childNo);
      left := heap.GetVal(parent, childNo - 1);
      PartnerFacts(t, level, left, child, parent, childNo - 1, child);
      noLeft := GetFill(heap, left, 0);
      if fill + noLeft <= heap.n {
        Merge(heap, head, level, left, noLeft, child, fill, parent, childNo - 1, child);
        return;
      }
    }
    var last := GetFill(heap, parent, childNo);
    if childNo + 1 < last {
      RightPartner(t, level, child, fill, parent, childNo);
      right := heap.GetVal(parent, childNo + 1);
      PartnerFacts(t, level, child, right, parent, childNo, child);
      noRight := GetFill(heap, right, 0);
      if fill + noRight <= heap.n {
        Merge(heap, head, level, child, fill, right, noRight, parent, childNo, child);
        return;
      }
    }
    if fill > 1 {
      return;
    }
    if left != 0 {
      HalfDifference(t, level, left, child, parent, childNo - 1, child);
      var i := (noLeft - fill) / 2;
      assert 1 <= i;
      StealLeft(heap, head, level, left, noLeft, child, fill, parent, childNo - 1, i);
      return;
    }
    if right != 0 {
      HalfDifference(t, level, child, right, parent, childNo, child);
      var i := (noRight - fill) / 2;
      assert 1 <= i;
      StealRight(heap, head, level, child, fill, right, noRight, parent, childNo, i);
      return;
    }
    // BUG()
    assert false;
  }

  lemma WeakFacts(t: Tree, l: nat, child: Ptr, fill: nat, k: nat)
    requires Weak(t, l, child, fill, k)
    ensures Inv(t, l + 1) && Filled(t, l + 2, 0) && 0 < l < t.height && k < t.span
  {
    assert NodeOk(t, child);
    assert forall p :: Has(t, p) && t.info[p].level >= l + 2 ==> p != child;
    hide NodeOk, KidOk, Linked;
  }

  lemma WeakReached(t: Tree, u: Tree, l: nat, child: Ptr, fill: nat, k: nat, up: Ptr)
    requires Weak(t, l, child, fill, k) && Reached(t, u, l + 1, l + 1, up, k)
    ensures Has(u, up) && InParent(u, l, child, fill, up, Pos(u.mem[up], k))
    ensures forall t' {:trigger Rebalanced(u, t', l)} :: Rebalanced(u, t', l) ==> Rebalanced(t, t', l)
  {
    LiftHolds(t, u, l, child);
    WeakKept(t, u, l, child, fill, k);
    ParentFound(u, l, child, fill, k, up);
    assert Base(t) && Base(u) && 4 <= u.n;
    forall t' | Rebalanced(u, t', l)
      ensures Rebalanced(t, t', l)
    {
      hide Rebalanced, Below, SlotsKept, Entries, Inv, Filled, Lowered;
      RebalancedAfter(t, u, t', l);
    }
    hide Rebalanced, Below, SlotsKept, Entries, Inv, Filled, Lowered;
  }

  lemma WeakKept(t: Tree, u: Tree, l: nat, child: Ptr, fill: nat, k: nat)
    requires Weak(t, l, child, fill, k) && Lowered(t, u, l + 1) && Inv(u, l) && Filled(u, l, child)
    ensures Weak(u, l, child, fill, k)
  {
    assert Base(u) && Base(t);
    hide Inv, Filled;
  }

  /** `rebalance`. The key pointer still reads a key of the child's range; it may point into the
      child itself. */
  method Rebalance(heap: Heap, head: Head, key: KeyRef, level: nat, child: Ptr, fill: nat, ghost k: nat)
    requires heap.Valid() && Weak(Snap(heap, head), level, child, fill, k) && RefOk(heap.mem, key) &&
      KeyAt(heap.mem, key) == k
    requires level < head.height
    modifies heap, heap.repr, head`info, head`node, head`height
    ensures heap.Valid() && heap.repr == old(heap.repr)
    ensures Rebalanced(old(Snap(heap, head)), Snap(heap, head), level)
    decreases head.height - level, 2
  {
    hide heap.Valid, Weak, Inv, Filled, Reached, InParent, Rebalanced, Fill, Pos;
    ghost var t := Snap(heap, head);
    WeakFacts(t, level, child, fill, k);
    var kk := heap.Load(key);
    var parent := FindLevel(heap, head, kk, level + 1);
    ghost var u := Snap(heap, head);
    WeakReached(t, u, level, child, fill, k, parent);
    InParentFacts(u, level, child, fill, parent, Pos(u.mem[parent], k));
    var childNo := GetPos(heap, parent, kk);
    var c := heap.GetVal(parent, childNo);
    ChildIs(u, level, child, fill, parent, childNo);
    assert c == child;
    RebalanceIn(heap, head, level, child, fill, parent, childNo);
  }

  lemma ChildIs(t: Tree, l: nat, child: Ptr, fill: nat, up: Ptr, at: nat)
    requires InParent(t, l, child, fill, up, at)
    ensures Has(t, up) && at < t.n && t.mem[up].vals[at] == child
  {
    hide Inv;
  }

  lemma ShiftedOut(s: seq<nat>, pos: nat, fill: nat)
    requires fill <= |s| && pos <= fill && 1 <= fill && PackedSlots(s, fill)
    ensures pos < fill ==> Over(s, pos, s, pos + 1, fill - 1 - pos)[fill - 1 := 0] == Remove1(s, pos)
    ensures pos == fill ==> s[fill - 1 := 0] == Remove1(s, fill - 1)
  {
    hide Over, Remove1;
  }

  lemma ShiftedNode(n: nat, nd: Node, pos: nat)
    requires Packed(n, nd) && 1 <= Fill(nd) && pos <= Fill(nd)
    ensures Sized(n, nd)
    ensures pos < Fill(nd) ==>
              var o := OverNode(nd, pos, nd, pos + 1, Fill(nd) - 1 - pos);
              Node(o.keys[Fill(nd) - 1 := 0], o.vals[Fill(nd) - 1 := 0]) == RemoveAt(nd, pos)
    ensures pos == Fill(nd) ==>
      Node(nd.keys[Fill(nd) - 1 := 0], nd.vals[Fill(nd) - 1 := 0]) == RemoveAt(nd, Fill(nd) - 1)
  {
    hide Over, Remove1;
    PackedBoth(n, nd);
    ShiftedOut(nd.keys, pos, Fill(nd));
    ShiftedOut(nd.vals, pos, Fill(nd));
  }

  /** The loop that removes a slot, and the cleared last slot. */
  method ShiftOut(heap: Heap, node: Ptr, pos: nat, fill: nat)
    requires heap.Valid() && node in heap.mem && Packed(heap.n, heap.mem[node])
    requires fill == Fill(heap.mem[node]) && pos <= fill <= heap.n && 1 <= fill && pos < heap.n
    modifies heap, heap.repr
    ensures heap.Valid() && heap.repr == old(heap.repr) && Sized(heap.n, old(heap.mem[node]))
    ensures heap.mem == old(heap.mem)[node := RemoveAt(old(heap.mem[node]), GoneSlot(old(heap.mem[node]), pos))]
  {
    hide heap.Valid, Packed, Fill, OverNode, RemoveAt;
    ghost var m: map<Ptr, Node> := heap.mem;
    ghost var nd := m[node];
    ShiftedNode(heap.n, nd, pos);
    if pos + 1 < fill {
      CopyUp(heap, node, pos, node, pos + 1, fill - 1 - pos);
      assert heap.mem == m[node := OverNode(nd, pos, nd, pos + 1, fill - 1 - pos)];
    } else {
      NothingOver(nd, pos);
      assert m == m[node := nd];
    }
    ghost var c := heap.mem[node];
    heap.ClearPair(node, fill - 1);
    NodeRewrite(m, node, c, RemoveAt(nd, GoneSlot(nd, pos)));
  }

  lemma NothingOver(nd: Node, pos: nat)
    requires |nd.keys| == |nd.vals| > pos
    ensures OverNode(nd, pos, nd, pos + 1, 0) == nd
  {
  }

  /** Slot `i` of `node` is about to be removed; after that the key pointer still reads a key of the
      range of `node`. */
  ghost predicate ToCut(t: Tree, t1: Tree, l: nat, node: Ptr, i: nat, key: KeyRef) {
    && Base(t) && CanCut(t1, l, node, i) && i < t1.n && HalfRemoved(t, Cut(t1, l, node, i), l, node, i)
    && if l > 1 then key == Slot(node, i) else key.Imm? && t1.info[node].lo <= key.k < t1.info[node].hi
  }

  /** After the cut the aliased key has become the next key, which routes to the same node. */
  lemma CutDone(t: Tree, t1: Tree, l: nat, node: Ptr, i: nat, key: KeyRef)
    requires ToCut(t, t1, l, node, i, key)
    ensures Has(t1, node) && Packed(t1.n, t1.mem[node]) && i < Fill(t1.mem[node]) <= t1.n && i < t1.n && 4 <= t1.n &&
      l <= t1.height && Base(t) && t.n == t1.n
    ensures var u := Cut(t1, l, node, i);
            && u == t1.(mem := t1.mem[node := RemoveAt(t1.mem[node], i)], info := u.info)
            && HalfRemoved(t, u, l, node, i) && Has(u, node) && Fill(u.mem[node]) + 1 == Fill(t1.mem[node])
            && RefOk(u.mem, key) && (l < u.height ==> 1 <= Fill(u.mem[node]))
            && (l < u.height && Fill(u.mem[node]) < u.n / 2 ==> Weak(u, l, node, Fill(u.mem[node]), KeyAt(u.mem, key)))
            && (l == u.height ==>
                node == u.root && Has(u, u.root) && Inv(u, l) && 0 < l && (Fill(u.mem[u.root]) == 0 ==> u.height == 1))
  {
    hide Remove1, Cut, KidOk, Linked, Entries, Below, Packed, Descending;
    CutShape(t1, l, node, i);
    var u := Cut(t1, l, node, i);
    assert NodeOk(t1, node) && NodeOk(u, node);
    assert 2 <= Fill(t1.mem[node]) || l == t1.height;
    assert u.info[node] == t1.info[node];
  }

  lemma CutFinished(t: Tree, u: Tree, l: nat, p: Ptr, i: nat)
    requires Base(t) && HalfRemoved(t, u, l, p, i) && i < t.n && Has(u, p)
    ensures Fill(u.mem[p]) >= 2 || (u.height == 1 && Fill(u.mem[p]) == 1) ==> Removed(t, u, l, p, i)
    ensures CanShrink(u, l) ==> Has(u, u.root) && 0 < u.n && 0 < u.height && Removed(t, Shrunk(u), l, p, i)
    ensures forall t' {:trigger Rebalanced(u, t', l)} :: Rebalanced(u, t', l) ==> Removed(t, t', l, p, i)
  {
    hide HalfRemoved, Rebalanced, Removed, CanShrink, Shrunk, Base, Fill;
    if Fill(u.mem[p]) >= 2 || (u.height == 1 && Fill(u.mem[p]) == 1) {
      RemovedFine(t, u, l, p, i);
    }
    if CanShrink(u, l) {
      ShrinkDefined(u, l);
      RemovedShrunk(t, u, l, p, i);
    }
    forall t' | Rebalanced(u, t', l)
      ensures Removed(t, t', l, p, i)
    {
      RemovedRebalanced(t, u, t', l, p, i);
    }
  }

  lemma ShrinkDefined(u: Tree, l: nat)
    requires CanShrink(u, l)
    ensures Has(u, u.root) && 0 < u.n && 0 < u.height
  {
    assert Base(u);
  }

  /** The rest of `btree_remove_level`, once the slot is known. */
  method TakeOut(heap: Heap, head: Head, key: KeyRef, level: nat, node: Ptr, pos: nat, fill: nat, ghost t: Tree)
    requires heap.Valid() && Has(Snap(heap, head), node) && fill == Fill(heap.mem[node]) && 1 <= fill &&
      pos <= fill && pos < heap.n
    requires ToCut(t, Snap(heap, head), level, node, GoneSlot(heap.mem[node], pos), key) && level <= head.height
    modifies heap, heap.repr, head`info, head`node, head`height
    ensures heap.Valid() && heap.repr == old(heap.repr)
    ensures Removed(t, Snap(heap, head), level, node, old(GoneSlot(heap.mem[node], pos)))
    decreases head.height - level, 3
  {
    hide heap.Valid, ToCut, Removed, Packed, Fill, RemoveAt, Cut, HalfRemoved, Weak, Rebalanced, CanShrink, Shrunk, Inv;
    ghost var t1 := Snap(heap, head);
    ghost var i := GoneSlot(heap.mem[node], pos);
    CutDone(t, t1, level, node, i, key);
    ghost var u := Cut(t1, level, node, i);
    CutFinished(t, u, level, node, i);
    ShiftOut(heap, node, pos, fill);
    head.info := u.info;
    assert Snap(heap, head) == u;
    if fill - 1 < heap.n / 2 {
      if level < head.height {
        Rebalance(heap, head, key, level, node, fill - 1, KeyAt(heap.mem, key));
      } else {
        Shrink(heap, head, fill - 1, level);
      }
    }
  }

  /** The three reads of `btree_remove_level` have found where to remove. */
  ghost predicate FoundSlot(t: Tree, t1: Tree, l: nat, key: KeyRef, p0: Ptr, i0: nat, node: Ptr) {
    && Has(t1, node) && 0 < t1.n && RefOk(t1.mem, key)
    && var k, nd := KeyAt(t1.mem, key), t1.mem[node];
    && var pos := Pos(nd, k);
    && pos <= Fill(nd) <= t1.n && 1 <= Fill(nd) && FillFrom(nd.vals, pos) == Fill(nd)
    && (l > 1 ==> pos < Fill(nd) && node == p0 && pos == i0)
    && (l > 1 || WordAt(nd, pos) == k ==> pos < t1.n ==> ToCut(t, t1, l, node, GoneSlot(nd, pos), key))
    && (l == 1 ==>
          && key.Imm?
          && (WordAt(nd, pos) == k && pos < t1.n ==> Answer(t, k, nd.vals[pos], true, false, node, GoneSlot(nd, pos)))
          && (WordAt(nd, pos) == k && pos == t1.n ==> Answer(t, k, 0, false, true, node, 0))
          && (WordAt(nd, pos) != k ==> Answer(t, k, 0, false, false, node, 0)))
  }

  lemma PreFacts(t: Tree, l: nat, key: KeyRef, p0: Ptr, i0: nat)
    requires RemovePre(t, l, key, p0, i0)
    ensures Inv(t, l) && Filled(t, l + 1, 0) && 0 < l <= t.height && RefOk(t.mem, key) && KeyAt(t.mem, key) < t.span
  {
    if l > 1 {
      assert NodeOk(t, p0);
      hide LinksOk, KidsOk;
    }
  }

  lemma SlotFound(t: Tree, t1: Tree, l: nat, key: KeyRef, p0: Ptr, i0: nat, node: Ptr)
    requires RemovePre(t, l, key, p0, i0) && l > 1 && RefOk(t.mem, key) && Reached(t, t1, l, l, node, KeyAt(t.mem, key))
    ensures FoundSlot(t, t1, l, key, p0, i0, node)
  {
    hide Lowered, HalfRemoved, Cut;
    assert Base(t) && i0 < t.n by {
      assert NodeOk(t, p0);
    }
    KeyFound(t, t1, l, p0, i0, node);
    CutAway(t, t1, l, p0, i0);
    assert Fill(t1.mem[node]) <= t1.n;
    hide Inv, Filled;
  }

  lemma LeafSlotFound(t: Tree, t1: Tree, key: KeyRef, p0: Ptr, i0: nat, node: Ptr)
    requires RemovePre(t, 1, key, p0, i0) && Reached(t, t1, 1, 1, node, key.k) &&
      node == Down(t.mem, t.root, t.height, 1, key.k)
    ensures FoundSlot(t, t1, 1, key, p0, i0, node)
  {
    hide Filled, Lowered, HalfRemoved, Cut, Answer;
    LeafFacts(t, t1, key.k, node);
    LeafFound(t, t1, key.k, node);
    var i := GoneSlot(t.mem[node], Pos(t.mem[node], key.k));
    assert CanCut(t, 1, node, i);
    CutAway(t, t1, 1, node, i);
    assert Base(t) && t1.info[node].lo <= key.k < t1.info[node].hi;
    hide Inv, Reached;
  }
  lemma LevelFound(t: Tree, t1: Tree, l: nat, key: KeyRef, p0: Ptr, i0: nat, node: Ptr)
    requires RemovePre(t, l, key, p0, i0) && RefOk(t.mem, key) && Reached(t, t1, l, l, node, KeyAt(t.mem, key))
    requires l == 1 ==> node == Down(t.mem, t.root, t.height, 1, KeyAt(t.mem, key))
    ensures FoundSlot(t, t1, l, key, p0, i0, node) && KeyAt(t1.mem, key) == KeyAt(t.mem, key)
    ensures l == 1 ==> Lowered(t, t1, 1) && Inv(t1, 1) && Filled(t1, 1, 0)
  {
    if l > 1 {
      SlotFound(t, t1, l, key, p0, i0, node);
      assert Base(t) && t1.mem[p0] == t.mem[p0];
    } else {
      LeafSlotFound(t, t1, key, p0, i0, node);
      LoweredFilled(t, t1, 1, 1, 0);
    }
    hide FoundSlot, Inv, Filled;
  }

  lemma FoundFacts(t: Tree, t1: Tree, l: nat, key: KeyRef, p0: Ptr, i0: nat, node: Ptr)
    requires FoundSlot(t, t1, l, key, p0, i0, node)
    ensures Has(t1, node) && 0 < t1.n && RefOk(t1.mem, key)
    ensures var k, nd := KeyAt(t1.mem, key), t1.mem[node];
            var pos := Pos(nd, k);
            && pos <= Fill(nd) <= t1.n && 1 <= Fill(nd) && FillFrom(nd.vals, pos) == Fill(nd)
            && (l > 1 ==> pos < t1.n)
            && (l > 1 || WordAt(nd, pos) == k ==> pos < t1.n ==> ToCut(t, t1, l, node, GoneSlot(nd, pos), key))
  {
    hide ToCut, Answer;
  }

  lemma FoundResult(t: Tree, t1: Tree, t': Tree, l: nat, key: KeyRef, p0: Ptr, i0: nat, node: Ptr)
    requires FoundSlot(t, t1, l, key, p0, i0, node) && Has(t1, node) && RefOk(t1.mem, key) && 0 < Fill(t1.mem[node])
    requires var pos := Pos(t1.mem[node], KeyAt(t1.mem, key));
             && pos < t1.n && (l == 1 ==> WordAt(t1.mem[node], pos) == KeyAt(t1.mem, key))
             && Removed(t, t', l, node, GoneSlot(t1.mem[node], pos))
    ensures var pos := Pos(t1.mem[node], KeyAt(t1.mem, key));
            RemoveResult(t, t', l, key, p0, i0, t1.mem[node].vals[pos], true, false, node, GoneSlot(t1.mem[node], pos))
  {
    hide ToCut, Answer, Removed;
  }

  lemma FoundNothing(t: Tree, t1: Tree, key: KeyRef, p0: Ptr, i0: nat, node: Ptr, over: bool)
    requires FoundSlot(t, t1, 1, key, p0, i0, node) && Has(t1, node) && RefOk(t1.mem, key) && 0 < t1.n
    requires var pos := Pos(t1.mem[node], KeyAt(t1.mem, key));
      pos <= t1.n && (over <==> WordAt(t1.mem[node], pos) == KeyAt(t1.mem, key)) && (over ==> pos == t1.n)
    requires Lowered(t, t1, 1) && Inv(t1, 1) && Filled(t1, 1, 0)
    ensures RemoveResult(t, t1, 1, key, p0, i0, 0, false, over, node, 0)
  {
    hide ToCut, Answer, Lowered, Inv, Filled;
  }

  /** `btree_remove_level`. At the leaves the key is the caller's own; above them `merge` passes a
      pointer to the very slot that is to go. */
  method RemoveLevel(heap: Heap, head: Head, key: KeyRef, level: nat, ghost p0: Ptr, ghost i0: nat)
      returns (ret: nat, over: bool, ghost hit: bool, ghost p: Ptr, ghost i: nat)
    requires heap.Valid() && RemovePre(Snap(heap, head), level, key, p0, i0) && level <= head.height
    modifies heap, heap.repr, head`info, head`node, head`height
    ensures heap.Valid() && heap.repr == old(heap.repr)
    ensures RemoveResult(old(Snap(heap, head)), Snap(heap, head), level, key, p0, i0, ret, hit, over, p, i)
    decreases head.height - level, 4
  {
    hide heap.Valid, RemovePre, RemoveResult, FoundSlot, ToCut, Removed, Reached, Inv, Filled, Lowered, Fill, Pos;
    if level > head.height {
      // a level above the root: not reached
      assert false;
    }
    ghost var t := Snap(heap, head);
    PreFacts(t, level, key, p0, i0);
    var kk := heap.Load(key);
    var node := FindLevel(heap, head, kk, level);
    ghost var t1 := Snap(heap, head);
    LevelFound(t, t1, level, key, p0, i0, node);
    FoundFacts(t, t1, level, key, p0, i0, node);
    var pos := GetPos(heap, node, kk);
    var fill := GetFill(heap, node, pos);
    over, hit, p, i := false, true, node, GoneSlot(heap.mem[node], pos);
    if level == 1 {
      var word := heap.GetWord(node, pos);
      if word != kk {
        FoundNothing(t, t1, key, p0, i0, node, false);
        return 0, false, false, node, 0;
      }
      if pos == heap.n {
        // the value read next lies outside the node; what it holds is not part of this model
        FoundNothing(t, t1, key, p0, i0, node, true);
        return 0, true, false, node, 0;
      }
    }
    ret := heap.GetVal(node, pos);
    TakeOut(heap, head, key, level, node, pos, fill, t);
    FoundResult(t, t1, Snap(heap, head), level, key, p0, i0, node);
  }
}
