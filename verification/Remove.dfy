/** The steps of `btree_remove_level`, `rebalance` and `btree_shrink` on the tree. */
module RemoveProof {
  import opened Nodes
  import opened Trees
  import opened Find
  import opened InsertProof
  import opened SplitProof
  import opened CutProof
  import opened BorderProof
  import opened MergeProof

  /** `find_level` for a higher level leaves level `l` as well formed as it was. */
  lemma LiftNode(t: Tree, t1: Tree, l: nat, p: Ptr)
    requires Base(t) && Base(t1) && Lowered(t, t1, l + 1) && p in t.info && t.info[p].level == l && NodeOk(t, p)
    ensures NodeOk(t1, p)
  {
  }

  lemma LiftKid(t: Tree, t1: Tree, l: nat, p: Ptr, i: nat)
    requires Base(t) && Base(t1) && Lowered(t, t1, l + 1) && Has(t, p) && t.info[p].level == l && KidOk(t, p, i)
    ensures KidOk(t1, p, i)
  {
  }

  lemma LiftLink(t: Tree, t1: Tree, l: nat, c: Ptr)
    requires Base(t) && Base(t1) && Lowered(t, t1, l + 1) && c in t.info && t.info[c].level + 1 == l && Linked(t, c)
    ensures Linked(t1, c)
  {
  }

  lemma LiftKids(t: Tree, t1: Tree, l: nat)
    requires Base(t) && Base(t1) && Lowered(t, t1, l + 1) && KidsOk(t, l) && KidsOk(t1, l + 1)
    ensures KidsOk(t1, l)
  {
    forall p, i | Has(t1, p) && t1.info[p].level >= l && t1.info[p].level > 1 && 0 <= i < Fill(t1.mem[p])
      ensures KidOk(t1, p, i)
    {
      if t1.info[p].level == l {
        assert Has(t, p) && t.info[p].level == l && t1.mem[p].vals == t.mem[p].vals;
        assert KidOk(t, p, i);
        LiftKid(t, t1, l, p, i);
      }
    }
  }

  lemma LiftNodes(t: Tree, t1: Tree, l: nat)
    requires Base(t) && Base(t1) && Lowered(t, t1, l + 1) && NodesOk(t, l) && NodesOk(t1, l + 1)
    ensures NodesOk(t1, l)
  {
    forall p | p in t1.info && t1.info[p].level >= l
      ensures NodeOk(t1, p)
    {
      if t1.info[p].level == l {
        assert NodeOk(t, p);
        LiftNode(t, t1, l, p);
      }
    }
  }

  lemma LiftLinks(t: Tree, t1: Tree, l: nat)
    requires Base(t) && Base(t1) && Lowered(t, t1, l + 1) && LinksOk(t, l) && LinksOk(t1, l + 1)
    ensures LinksOk(t1, l)
  {
    forall c | c in t1.info && t1.info[c].level + 1 >= l
      ensures Linked(t1, c)
    {
      if t1.info[c].level + 1 == l {
        assert Linked(t, c);
        LiftLink(t, t1, l, c);
      }
    }
  }

  lemma LiftInv(t: Tree, t1: Tree, l: nat)
    requires Inv(t, l) && Lowered(t, t1, l + 1) && Inv(t1, l + 1)
    ensures Inv(t1, l) && Lowered(t, t1, l)
  {
    assert Base(t) && Base(t1);
    LiftNodes(t, t1, l);
    LiftKids(t, t1, l);
    LiftLinks(t, t1, l);
    hide NodesOk, KidsOk, LinksOk;
  }

  /** What the search for the parent leaves to be rebalanced. */
  lemma LiftHolds(t: Tree, t1: Tree, l: nat, weak: Ptr)
    requires Inv(t, l) && Filled(t, l, weak) && Lowered(t, t1, l + 1) && Inv(t1, l + 1)
    ensures Inv(t1, l) && Filled(t1, l, weak) && Lowered(t, t1, l)
    ensures Below(t, t1, l, {}, {}) && SlotsKept(t, t1, l) && Entries(t1, l) == Entries(t, l)
  {
    LiftInv(t, t1, l);
    assert Base(t) && Base(t1);
    LoweredFilled(t, t1, l, l, weak);
    LoweredBelow(t, t1, l);
    LoweredSlots(t, t1, l);
    hide Inv, Filled, SlotsKept, Below;
    LoweredEntries(t, t1, l);
  }

  lemma SlotsTrans(t: Tree, t1: Tree, t2: Tree, l: nat)
    requires SlotsKept(t, t1, l) && SlotsKept(t1, t2, l) && t1.info.Keys == t.info.Keys
    requires forall c :: c in t.info ==> t1.info[c].level == t.info[c].level
    ensures SlotsKept(t, t2, l)
  {
    hide SLo, SHi, Linked;
    forall c | c in t.info && Linked(t, c) && t.info[c].level + 1 == l && c in t2.info
      ensures Linked(t2, c) && SLo(t2, c) <= SLo(t, c) && SHi(t, c) <= SHi(t2, c)
    {
      assert c in t1.info && Linked(t1, c);
    }
  }

  lemma RebalancedAfter(t: Tree, t1: Tree, t2: Tree, l: nat)
    requires Base(t) && t.height == t1.height && Lowered(t, t1, l)
    requires Below(t, t1, l, {}, {}) && SlotsKept(t, t1, l) && Entries(t1, l) == Entries(t, l)
    requires Rebalanced(t1, t2, l)
    ensures Rebalanced(t, t2, l)
  {
    BelowTrans(t, t1, t2, l, {}, {});
    assert t.info.Keys <= t.mem.Keys;
    SlotsTrans(t, t1, t2, l);
    hide Inv, Filled, SlotsKept, Below, Entries, Lowered;
  }

  /** `child` of level `l` has to be rebalanced; `k` routes to it. */
  ghost predicate Weak(t: Tree, l: nat, child: Ptr, fill: nat, k: nat) {
    && Inv(t, l) && Filled(t, l, child) && 0 < l < t.height
    && Has(t, child) && t.info[child].level == l && t.info[child].lo <= k < t.info[child].hi
    && fill == Fill(t.mem[child]) && 1 <= fill && fill < t.n / 2
  }

  /** The parent search ends in the parent of the child, at the slot of the child: the BUG_ON of
      `rebalance` does not fire, and there is a neighbour. */
  lemma ParentFound(t: Tree, l: nat, child: Ptr, fill: nat, k: nat, up: Ptr)
    requires Weak(t, l, child, fill, k)
    requires Has(t, up) && t.info[up].level == l + 1 && t.info[up].lo <= k < t.info[up].hi
    ensures var i := Pos(t.mem[up], k); i < Fill(t.mem[up]) && t.mem[up].vals[i] == child
    ensures FillFrom(t.mem[up].vals, Pos(t.mem[up], k)) == Fill(t.mem[up]) && 2 <= Fill(t.mem[up]) <= t.n
    ensures child != up
  {
    assert Linked(t, child) && child != t.root;
    var p, at := t.info[child].up, t.info[child].at;
    assert KidOk(t, p, at) && NodeOk(t, p);
    hide Filled;
    SameNode(t, l, up, p, k);
    assert t.mem[p].keys[at] <= k && (at > 0 ==> k < t.mem[p].keys[at - 1]);
    assert Pos(t.mem[p], k) == at;
    PosInFill(t.n, t.mem[p], k);
    assert Filled(t, l, child);
  }

  lemma PairFound(t: Tree, l: nat, child: Ptr, up: Ptr, at: nat)
    requires Inv(t, l) && Filled(t, l, child) && 0 < l < t.height && Has(t, child) && 1 <= Fill(t.mem[child])
    requires Has(t, up) && t.info[up].level == l + 1 && at + 1 < Fill(t.mem[up]) <= t.n
    requires child == t.mem[up].vals[at] || child == t.mem[up].vals[at + 1]
    ensures Neighbours(t, l, t.mem[up].vals[at], t.mem[up].vals[at + 1], up, at)
    ensures var s := if child == t.mem[up].vals[at] then t.mem[up].vals[at + 1] else t.mem[up].vals[at];
      2 <= Fill(t.mem[s]) <= t.n
  {
    assert KidOk(t, up, at) && KidOk(t, up, at + 1);
    var x, y := t.mem[up].vals[at], t.mem[up].vals[at + 1];
    assert NodeOk(t, x) && NodeOk(t, y);
    hide Inv, NodeOk;
    assert Has(t, x) && Has(t, y);
  }

  /** Slot `i` of `p` is gone; the level has not been rebalanced yet. */
  ghost predicate HalfRemoved(t: Tree, u: Tree, l: nat, p: Ptr, i: nat) {
    && Has(t, p) && i + (if l > 1 then 1 else 0) < t.n && u.n == t.n
    && Inv(u, l) && Filled(u, l, p) && Below(t, u, l, Born(l, t.mem[p].vals[i]), {}) && u.height == t.height
    && 0 < l <= u.height && Has(u, p) && u.info[p].level == l
    && Entries(u, l) == Entries(t, l) - {(t.mem[p].keys[i], t.mem[p].vals[i])}
    && (l > 1 ==>
          var s := t.mem[p].vals[i + 1];
          && t.mem[p].vals[i] !in u.info && 1 <= Fill(u.mem[p])
          && s in u.info && Linked(u, s) && u.info[s].level + 1 == l && SlotHi(t, p, i) <= SHi(u, s))
  }

  /** The search for a key of `p` ends in `p`. */
  lemma KeyFound(t: Tree, t1: Tree, l: nat, p: Ptr, i: nat, q: Ptr)
    requires CanCut(t, l, p, i) && i < t.n && Reached(t, t1, l, l, q, t.mem[p].keys[i])
    ensures q == p && t1.mem[p] == t.mem[p] && CanCut(t1, l, p, i) && SlotHi(t, p, i) <= SlotHi(t1, p, i)
    ensures Pos(t1.mem[p], t.mem[p].keys[i]) == i && FillFrom(t1.mem[p].vals, i) == Fill(t1.mem[p])
  {
    var k := t.mem[p].keys[i];
    assert Base(t) && Base(t1) && NodeOk(t, p);
    LoweredFilled(t, t1, l, l, 0);
    assert Has(t1, p) && t1.mem[p] == t.mem[p];
    hide Filled, NodeOk, KidOk, Linked;
    SameNode(t1, l, p, q, k);
    PosInFill(t.n, t.mem[p], k);
  }

  lemma CutHalf(t: Tree, l: nat, p: Ptr, i: nat)
    requires CanCut(t, l, p, i) && i < t.n
    ensures HalfRemoved(t, Cut(t, l, p, i), l, p, i)
  {
    CutInv(t, l, p, i);
    CutFilled(t, l, p, i);
    CutBelow(t, l, p, i);
    CutEntries(t, l, p, i);
    CutShape(t, l, p, i);
    if l > 1 {
      CutSlots(t, l, p, i);
    }
    hide Inv, Filled, Below, Entries, Cut, Linked, NodeOk, SHi, SlotHi, Packed, Descending, CutInfo, Fill;
  }

  lemma HalfAfter(t: Tree, t1: Tree, u: Tree, l: nat, p: Ptr, i: nat)
    requires Base(t) && Base(t1) && Lowered(t, t1, l) && Has(t, p) && Has(t1, p) && i < t.n
    requires SlotHi(t, p, i) <= SlotHi(t1, p, i) && t1.mem[p] == t.mem[p] && HalfRemoved(t1, u, l, p, i)
    ensures HalfRemoved(t, u, l, p, i)
  {
    LoweredBelow(t, t1, l);
    hide Inv, Filled, Below, Entries, Linked, SHi, SlotHi;
    LoweredEntries(t, t1, l);
    BelowTrans(t, t1, u, l, Born(l, t.mem[p].vals[i]), {});
  }

  lemma CutAway(t: Tree, t1: Tree, l: nat, p: Ptr, i: nat)
    requires CanCut(t, l, p, i) && CanCut(t1, l, p, i) && Lowered(t, t1, l) && i < t.n
    requires SlotHi(t, p, i) <= SlotHi(t1, p, i) && t1.mem[p] == t.mem[p]
    ensures HalfRemoved(t, Cut(t1, l, p, i), l, p, i)
  {
    assert Base(t) && Base(t1);
    CutHalf(t1, l, p, i);
    hide Inv, Filled, HalfRemoved, Cut, SlotHi;
    HalfAfter(t, t1, Cut(t1, l, p, i), l, p, i);
  }

  lemma BelowAfter(t: Tree, u: Tree, t': Tree, l: nat, gone: set<Ptr>)
    requires Below(t, u, l, gone, {}) && Below(u, t', l, {}, {}) && gone !! u.info.Keys
    requires t.info.Keys <= t.mem.Keys && u.info.Keys <= u.mem.Keys
    ensures Below(t, t', l, gone, {}) && gone !! t'.info.Keys
  {
    assert t'.mem.Keys - t'.info.Keys == t.mem.Keys - t.info.Keys + gone;
    forall v | v in gone
      ensures v !in t'.info
    {
      assert v in t'.mem.Keys - t'.info.Keys;
    }
  }

  lemma RemovedRebalanced(t: Tree, u: Tree, t': Tree, l: nat, p: Ptr, i: nat)
    requires Base(t) && HalfRemoved(t, u, l, p, i) && Rebalanced(u, t', l)
    ensures Removed(t, t', l, p, i)
  {
    var gone := Born(l, t.mem[p].vals[i]);
    assert Base(u);
    BelowAfter(t, u, t', l, gone);
    hide Inv, Filled, Below, Entries, Linked, SHi, SlotHi;
    if l > 1 {
      var s := t.mem[p].vals[i + 1];
      KidStays(u, t', l, s);
    }
  }

  lemma KidStays(u: Tree, t': Tree, l: nat, s: Ptr)
    requires Base(u) && Below(u, t', l, {}, {}) && SlotsKept(u, t', l) && s in u.info && Linked(u, s) &&
      u.info[s].level + 1 == l
    ensures s in t'.info && t'.info[s].level + 1 == l && Linked(t', s) && SHi(u, s) <= SHi(t', s)
  {
    hide Linked, SHi, SLo;
    assert s in t'.info;
  }

  /** The tree after `btree_shrink` took the root away. */
  ghost function Shrunk(u: Tree): Tree
    requires Has(u, u.root) && 0 < u.n && 0 < u.height
  {
    u.(mem := u.mem - {u.root}, info := u.info - {u.root}, root := u.mem[u.root].vals[0], height := u.height - 1)
  }

  ghost predicate CanShrink(u: Tree, l: nat) {
    && Inv(u, l) && 0 < l == u.height && Has(u, u.root)
    && Fill(u.mem[u.root]) == (if u.height == 1 then 0 else 1)
  }

  /** The only node left on the level below the root is the root's only child. */
  lemma OnlyChild(u: Tree, l: nat, c: Ptr)
    requires CanShrink(u, l) && c in u.info && u.info[c].level + 1 == l
    ensures l > 1 && c == u.mem[u.root].vals[0]
  {
    assert Linked(u, c);
  }

  lemma ShrunkBase(u: Tree, l: nat)
    requires CanShrink(u, l)
    ensures Base(u) && Base(Shrunk(u)) && (l > 1 ==> Shrunk(u).root in u.info && Shrunk(u).root != u.root)
    ensures l == 1 ==> u.info.Keys == {u.root} && Shrunk(u).root == 0
  {
    var t' := Shrunk(u);
    assert NodeOk(u, u.root);
    if l > 1 {
      assert KidOk(u, u.root, 0);
      forall p | p in t'.info
        ensures 1 <= t'.info[p].level <= t'.height && (t'.info[p].level == t'.height <==> p == t'.root)
      {
        if u.info[p].level + 1 == l {
          OnlyChild(u, l, p);
        }
      }
      hide NodeOk, Linked, KidOk;
    } else {
      assert u.info.Keys == {u.root};
      assert t'.info == map[];
    }
  }

  lemma ShrunkInv(u: Tree, l: nat)
    requires CanShrink(u, l)
    ensures Inv(Shrunk(u), l) && Filled(Shrunk(u), l, 0)
  {
    ShrunkBase(u, l);
    var t' := Shrunk(u);
    assert forall p :: p in t'.info ==> t'.info[p].level < l;
    forall c | c in t'.info && t'.info[c].level + 1 >= l
      ensures Linked(t', c)
    {
      OnlyChild(u, l, c);
    }
  }

  lemma ShrunkBelow(u: Tree, l: nat)
    requires CanShrink(u, l)
    ensures Below(u, Shrunk(u), l, {}, {})
  {
    assert Base(u);
    hide Inv;
    assert u.info[u.root].level == l;
  }

  /** Shrinking completes a removal at the top level. */
  lemma RemovedShrunk(t: Tree, u: Tree, l: nat, p: Ptr, i: nat)
    requires Base(t) && HalfRemoved(t, u, l, p, i) && CanShrink(u, l) && i < t.n
    ensures Removed(t, Shrunk(u), l, p, i)
  {
    hide Below, Entries, Linked, NodeOk;
    var t', gone := Shrunk(u), Born(l, t.mem[p].vals[i]);
    assert Base(u);
    ShrunkInv(u, l);
    ShrunkBelow(u, l);
    ShrunkBase(u, l);
    BelowAfter(t, u, t', l, gone);
    if l == 1 {
      assert p == u.root;
      EmptyRoot(u);
    } else {
      ShrunkKid(t, u, l, p, i);
    }
    hide Inv, Filled, SHi, SlotHi, Shrunk, Base;
  }

  lemma ShrunkKid(t: Tree, u: Tree, l: nat, p: Ptr, i: nat)
    requires Base(t) && HalfRemoved(t, u, l, p, i) && CanShrink(u, l) && l > 1
    ensures i + 1 < t.n
    ensures var s, t' := t.mem[p].vals[i + 1], Shrunk(u);
            s in t'.info && Linked(t', s) && t'.info[s].level + 1 == l && SlotHi(t, p, i) <= SHi(t', s)
  {
    var s := t.mem[p].vals[i + 1];
    OnlyChild(u, l, s);
    assert Linked(u, s) && s != u.root;
    assert KidOk(u, u.root, 0) && NodeOk(u, u.root);
    hide Entries, Filled, Below, Fill;
  }

  lemma EmptyRoot(u: Tree)
    requires CanShrink(u, 1)
    ensures Entries(Shrunk(u), 1) == Entries(u, 1)
  {
    ShrunkBase(u, 1);
    assert NodeOk(u, u.root);
    assert Ents(u.mem[u.root]) == {};
    assert Entries(u, 1) == {};
  }

  /** Nothing to rebalance: the node kept enough entries. */
  lemma RemovedFine(t: Tree, u: Tree, l: nat, p: Ptr, i: nat)
    requires Base(t) && HalfRemoved(t, u, l, p, i) && i < t.n
    requires Fill(u.mem[p]) >= 2 || (u.height == 1 && Fill(u.mem[p]) == 1)
    ensures Removed(t, u, l, p, i)
  {
    assert u.height == 1 ==> p == u.root;
    hide Inv, Below, Entries, Linked, SHi, SlotHi;
    forall q | Has(u, q) && u.info[q].level >= l && q != 0
      ensures Fill(u.mem[q]) >= (if q == u.root && u.height == 1 then 1 else 2)
    {
      assert q == p || q != p;
    }
  }

  ghost predicate Absent(t: Tree, k: nat) {
    forall v: nat {:trigger (k, v) in Entries(t, 1)} :: (k, v) !in Entries(t, 1)
  }

  /** The search for `k` ends behind the keys of its leaf, and the word there, the first value, equals
      `k`: `btree_remove_level` would go on to read a value outside the node. */
  ghost predicate Overrun(t: Tree, k: nat) {
    var q := Down(t.mem, t.root, t.height, 1, k);
    0 < t.height && q in t.mem && 0 < |t.mem[q].keys| == |t.mem[q].vals| && Pos(t.mem[q], k) == |t.mem[q].keys| &&
        t.mem[q].vals[0] == k
  }

  /** Slot `i` of leaf `p` is the last one of the leaf and holds the smallest key of the tree. */
  ghost predicate Least(t: Tree, p: Ptr, i: nat) {
    && Has(t, p) && t.info[p].level == 1 && i + 1 == Fill(t.mem[p]) && i < t.n
    && forall e {:trigger e in Entries(t, 1)} :: e in Entries(t, 1) ==> t.mem[p].keys[i] <= e.0
  }

  /** What removing key `k` at the leaves finds: the entry; or, for the absent key 0, an unused slot
      that looks like it, which makes the smallest entry go; or nothing; or a slot outside the leaf. */
  ghost predicate Answer(t: Tree, k: nat, ret: nat, hit: bool, over: bool, p: Ptr, i: nat) {
    && (over <==> Absent(t, k) && Overrun(t, k))
    && (over ==> !hit && ret == 0)
    && (hit ==>
          && Has(t, p) && t.info[p].level == 1 && i < Fill(t.mem[p]) && i < t.n
          && if ret != 0 then t.mem[p].keys[i] == k && ret == t.mem[p].vals[i]
             else k == 0 && Absent(t, 0) && Least(t, p, i) && Fill(t.mem[p]) < t.n)
    && (!hit && !over ==>
          && ret == 0 && Absent(t, k)
          && (k == 0 ==> exists q, j :: Least(t, q, j) && Fill(t.mem[q]) == t.n))
  }

  /** The word `bkey(node, pos)` reads: a key, or for `pos == no_pairs` the first value. */
  ghost function WordAt(nd: Node, pos: nat): nat
    requires 0 < |nd.keys| == |nd.vals| && pos <= |nd.keys|
  {
    if pos < |nd.keys| then nd.keys[pos] else nd.vals[0]
  }

  /** Every entry whose key routes to leaf `q` is in `q`. */
  lemma EntryHere(t: Tree, t1: Tree, k: nat, q: Ptr, e: (nat, nat))
    requires Base(t) && Reached(t, t1, 1, 1, q, k) && e in Entries(t, 1) && t1.info[q].lo <= e.0 < t1.info[q].hi
    ensures Has(t1, q) && exists j ::
      0 <= j < Fill(t1.mem[q]) && j < t1.n && e == (t1.mem[q].keys[j], t1.mem[q].vals[j])
  {
    var r :| r in t.info && Has(t, r) && t.info[r].level == 1 && e in Ents(t.mem[r]);
    assert Has(t1, r) && t1.mem[r] == t.mem[r];
    hide Filled;
    EntInRange(t1, 1, r, e);
    assert NodeOk(t1, q);
    hide NodeOk, KidOk, Linked;
    SameNode(t1, 1, q, r, e.0);
    var j :| 0 <= j < t1.n && t1.mem[q].vals[j] != 0 && e == (t1.mem[q].keys[j], t1.mem[q].vals[j]);
    assert j < Fill(t1.mem[q]);
  }

  lemma LeafFacts(t: Tree, t1: Tree, k: nat, q: Ptr)
    requires Inv(t, 1) && Filled(t, 1, 0) && Reached(t, t1, 1, 1, q, k)
    ensures Has(t1, q) && Has(t, q) && t1.mem[q] == t.mem[q] && t.info[q].level == 1 && t1.n == t.n && 0 < t.n
    ensures Pos(t.mem[q], k) <= Fill(t.mem[q]) <= t.n && 1 <= Fill(t.mem[q])
    ensures FillFrom(t.mem[q].vals, Pos(t.mem[q], k)) == Fill(t.mem[q])
    ensures forall i :: 0 <= i < Fill(t.mem[q]) ==>
      CanCut(t, 1, q, i) && CanCut(t1, 1, q, i) && SlotHi(t, q, i) <= SlotHi(t1, q, i)
    ensures NodeOk(t1, q) && Packed(t.n, t.mem[q]) && Descending(t.mem[q])
  {
    assert Base(t) && Base(t1);
    LoweredFilled(t, t1, 1, 1, 0);
    assert NodeOk(t1, q);
    assert Has(t1, q) && Has(t, q);
    PosInFill(t1.n, t1.mem[q], k);
    hide Inv;
  }

  /** The last slot of the leaf that key 0 routes to holds the smallest key. */
  lemma LeastFound(t: Tree, t1: Tree, q: Ptr)
    requires Inv(t, 1) && Filled(t, 1, 0) && Reached(t, t1, 1, 1, q, 0)
    ensures Has(t, q) && 0 < Fill(t.mem[q]) && Least(t, q, Fill(t.mem[q]) - 1)
  {
    LeafFacts(t, t1, 0, q);
    var i := Fill(t.mem[q]) - 1;
    assert Base(t);
    hide Inv;
    forall e | e in Entries(t, 1)
      ensures t.mem[q].keys[i] <= e.0
    {
      if e.0 < t.mem[q].keys[i] {
        assert t1.info[q].lo <= e.0 < t1.info[q].hi;
        EntryHere(t, t1, 0, q, e);
      }
    }
  }

  lemma LeafMiss(t: Tree, t1: Tree, k: nat, q: Ptr)
    requires Inv(t, 1) && Filled(t, 1, 0) && Reached(t, t1, 1, 1, q, k)
    requires Has(t, q) && Pos(t.mem[q], k) <= Fill(t.mem[q]) <= t.n
    requires Pos(t.mem[q], k) < Fill(t.mem[q]) ==> t.mem[q].keys[Pos(t.mem[q], k)] != k
    ensures Absent(t, k)
  {
    LeafFacts(t, t1, k, q);
    assert Base(t);
    hide Inv;
    forall v: nat
      ensures (k, v) !in Entries(t, 1)
    {
      if (k, v) in Entries(t, 1) {
        EntryHere(t, t1, k, q, (k, v));
      }
    }
  }

  /** The slot that goes when `btree_remove_level` removes from leaf `q` at slot `pos`. */
  ghost function GoneSlot(nd: Node, pos: nat): nat
    requires 0 < Fill(nd)
  {
    if pos < Fill(nd) then pos else Fill(nd) - 1
  }

  lemma LeafFound(t: Tree, t1: Tree, k: nat, q: Ptr)
    requires Inv(t, 1) && Filled(t, 1, 0) && Reached(t, t1, 1, 1, q, k) && q == Down(t.mem, t.root, t.height, 1, k)
    ensures Has(t, q) && t1.mem[q] == t.mem[q] && 0 < t.n && Pos(t.mem[q], k) <= Fill(t.mem[q]) <= t.n &&
      1 <= Fill(t.mem[q])
    ensures var nd, pos := t.mem[q], Pos(t.mem[q], k);
            && (WordAt(nd, pos) == k && pos < t.n ==> Answer(t, k, nd.vals[pos], true, false, q, GoneSlot(nd, pos)))
            && (WordAt(nd, pos) == k && pos == t.n ==> Answer(t, k, 0, false, true, q, 0))
            && (WordAt(nd, pos) != k ==> Answer(t, k, 0, false, false, q, 0))
  {
    LeafFacts(t, t1, k, q);
    var nd, pos := t.mem[q], Pos(t.mem[q], k);
    hide Inv, Filled, Reached;
    if pos == Fill(nd) || nd.keys[pos] != k {
      LeafMiss(t, t1, k, q);
      if k == 0 {
        LeastFound(t, t1, q);
      }
    }
  }
}
