/** The proof of `merge`: the left node swallows its right neighbour, the two swap places under
    their separators, and the slot now holding the right node is removed one level up. */
module MergeProof {
  import opened Nodes
  import opened Trees
  import opened Resplit
  import opened SplitProof
  import opened CutProof
  import opened BorderProof

  /** Slot `i` of node `p` has been removed from level `l`, with all that followed further up. */
  ghost predicate Removed(t: Tree, t': Tree, l: nat, p: Ptr, i: nat) {
    && Has(t, p) && i + (if l > 1 then 1 else 0) < t.n
    && Inv(t', l) && Filled(t', l, 0) && Below(t, t', l, Born(l, t.mem[p].vals[i]), {})
    && t'.height <= t.height && l <= t'.height + 1
    && (l <= t'.height || l == 1 ==> Entries(t', l) == Entries(t, l) - {(t.mem[p].keys[i], t.mem[p].vals[i])})
    && (l > 1 ==>
          var s := t.mem[p].vals[i + 1];
          && t.mem[p].vals[i] !in t'.info
          && s in t'.info && Linked(t', s) && t'.info[s].level + 1 == l && SlotHi(t, p, i) <= SHi(t', s))
  }

  ghost predicate CanMerge(t: Tree, l: nat, x: Ptr, y: Ptr, up: Ptr, at: nat) {
    Neighbours(t, l, x, y, up, at) && Fill(t.mem[x]) + Fill(t.mem[y]) <= t.n && Filled(t, l + 1, 0)
  }

  ghost function MergedKid(d: Info, l: nat, x: Ptr, fx: nat, y: Ptr): Info {
    if d.level + 1 == l && d.up == y then d.(up := x, at := fx + d.at) else d
  }

  /** The memory when `merge` calls `btree_remove_level`. */
  ghost function Exchanged(t: Tree, l: nat, x: Ptr, y: Ptr, up: Ptr, at: nat): Tree
    requires Has(t, x) && Has(t, y) && Has(t, up) && at + 1 < t.n && Fill(t.mem[x]) + Fill(t.mem[y]) <= t.n
  {
    var b := t.mem[up].keys[at];
    t.(mem := t.mem[x := JoinNode(t.mem[x], Fill(t.mem[x]), t.mem[y], Fill(t.mem[y]))]
                   [up := Node(t.mem[up].keys, t.mem[up].vals[at := y][at + 1 := x])],
       info := map c | c in t.info ::
         if c == x then t.info[x].(lo := t.info[y].lo, hi := b, at := at + 1)
         else if c == y then t.info[y].(lo := b, hi := b, at := at)
         else MergedKid(t.info[c], l, x, Fill(t.mem[x]), y))
  }

  lemma ExchangedShape(t: Tree, l: nat, x: Ptr, y: Ptr, up: Ptr, at: nat)
    requires CanMerge(t, l, x, y, up, at)
    ensures at + 1 < t.n && up != x && up != y
    ensures var u, b := Exchanged(t, l, x, y, up, at), t.mem[up].keys[at];
            && Base(u) && u.n == t.n && u.span == t.span && u.root == t.root && u.height == t.height
            && u.mem.Keys == t.mem.Keys && u.info.Keys == t.info.Keys
            && (forall q {:trigger u.mem[q]} :: q in t.mem && q != x && q != up ==> u.mem[q] == t.mem[q])
            && u.mem[x] == JoinNode(t.mem[x], Fill(t.mem[x]), t.mem[y], Fill(t.mem[y]))
            && u.mem[up] == Node(t.mem[up].keys, t.mem[up].vals[at := y][at + 1 := x])
            && Fill(u.mem[up]) == Fill(t.mem[up]) && Sized(t.n, u.mem[up])
            && (forall q {:trigger u.info[q]} :: q in t.info && q != x && q != y ==>
                  u.info[q] == MergedKid(t.info[q], l, x, Fill(t.mem[x]), y))
            && u.info[x] == t.info[x].(lo := t.info[y].lo, hi := b, at := at + 1)
            && u.info[y] == t.info[y].(lo := b, hi := b, at := at)
  {
    NeighbourFacts(t, l, x, y, up, at);
    FillIs(Node(t.mem[up].keys, t.mem[up].vals[at := y][at + 1 := x]), Fill(t.mem[up]));
    hide Inv, Filled, NodeOk, Join;
  }

  lemma ExchangedNode(t: Tree, l: nat, x: Ptr, y: Ptr, up: Ptr, at: nat, q: Ptr)
    requires CanMerge(t, l, x, y, up, at) && q in t.info && t.info[q].level > l
    ensures at + 1 < t.n && NodeOk(Exchanged(t, l, x, y, up, at), q)
  {
    hide Filled, Base;
    ExchangedShape(t, l, x, y, up, at);
    assert NodeOk(t, q);
    NeighbourFacts(t, l, x, y, up, at);
    hide Inv, Exchanged, Neighbours;
  }

  lemma ExchangedKid(t: Tree, l: nat, x: Ptr, y: Ptr, up: Ptr, at: nat, q: Ptr, i: nat)
    requires CanMerge(t, l, x, y, up, at) && Has(t, q) && t.info[q].level > l && i < Fill(t.mem[q])
    ensures at + 1 < t.n && KidOk(Exchanged(t, l, x, y, up, at), q, i)
  {
    hide Base, NodeOk;
    ExchangedShape(t, l, x, y, up, at);
    NeighbourFacts(t, l, x, y, up, at);
    assert KidOk(t, q, i);
    hide Inv, Filled, Exchanged, Neighbours;
  }

  lemma ExchangedLink(t: Tree, l: nat, x: Ptr, y: Ptr, up: Ptr, at: nat, c: Ptr)
    requires CanMerge(t, l, x, y, up, at) && c in t.info && t.info[c].level >= l
    ensures at + 1 < t.n && Linked(Exchanged(t, l, x, y, up, at), c)
  {
    ExchangedShape(t, l, x, y, up, at);
    NeighbourFacts(t, l, x, y, up, at);
    assert Linked(t, c);
    hide Inv, Filled, Exchanged, Neighbours, Base, NodeOk;
  }

  /** The swap leaves the upper levels well formed, and the slot of `y` can be removed. */
  lemma ExchangedInv(t: Tree, l: nat, x: Ptr, y: Ptr, up: Ptr, at: nat)
    requires CanMerge(t, l, x, y, up, at)
    ensures at + 1 < t.n && Inv(Exchanged(t, l, x, y, up, at), l + 1)
  {
    hide NodeOk, Linked, Exchanged, Base;
    ExchangedShape(t, l, x, y, up, at);
    var u := Exchanged(t, l, x, y, up, at);
    hide KidOk, CanMerge;
    forall q | q in u.info && u.info[q].level >= l + 1
      ensures NodeOk(u, q)
    {
      ExchangedNode(t, l, x, y, up, at, q);
    }
    forall q, i | Has(u, q) && u.info[q].level >= l + 1 && u.info[q].level > 1 && 0 <= i < Fill(u.mem[q])
      ensures KidOk(u, q, i)
    {
      assert q in t.info && t.info[q].level == u.info[q].level;
      ExchangedHas(t, l, x, y, up, at, q);
      ExchangedKid(t, l, x, y, up, at, q, i);
    }
    forall c | c in u.info && u.info[c].level + 1 >= l + 1
      ensures Linked(u, c)
    {
      ExchangedLink(t, l, x, y, up, at, c);
    }
  }

  lemma ExchangedHas(t: Tree, l: nat, x: Ptr, y: Ptr, up: Ptr, at: nat, q: Ptr)
    requires CanMerge(t, l, x, y, up, at) && q in t.info && t.info[q].level > l
    ensures at + 1 < t.n && Has(t, q) && Has(Exchanged(t, l, x, y, up, at), q)
    ensures Fill(Exchanged(t, l, x, y, up, at).mem[q]) == Fill(t.mem[q])
  {
    ExchangedShape(t, l, x, y, up, at);
    assert NodeOk(t, q);
    hide Inv, Filled, Exchanged, Neighbours, Fill;
  }

  lemma ExchangedCut(t: Tree, l: nat, x: Ptr, y: Ptr, up: Ptr, at: nat)
    requires CanMerge(t, l, x, y, up, at)
    ensures at + 1 < t.n && CanCut(Exchanged(t, l, x, y, up, at), l + 1, up, at)
  {
    ExchangedInv(t, l, x, y, up, at);
    ExchangedShape(t, l, x, y, up, at);
    NeighbourFacts(t, l, x, y, up, at);
    var u := Exchanged(t, l, x, y, up, at);
    hide Inv, Exchanged, Neighbours, NodeOk;
    forall q | Has(u, q) && u.info[q].level >= l + 1 && q != 0
      ensures Fill(u.mem[q]) >= (if q == u.root && u.height == 1 then 1 else 2)
    {
      assert t.info[q].level == u.info[q].level;
      ExchangedHas(t, l, x, y, up, at, q);
    }
  }

  /** How the tree after the recursive removal relates to the one before the merge, on level `l`
      and below. */
  ghost predicate SameBelow(t: Tree, u: Tree, l: nat, x: Ptr, y: Ptr)
    requires x in t.mem
  {
    && (forall q {:trigger u.info[q]} {:trigger q in u.info} :: q in t.info && t.info[q].level <= l && q != y ==>
          && q in u.info && q in u.mem && u.info[q].level == t.info[q].level
          && (q != x ==>
              q in t.mem && u.mem[q] == t.mem[q] && u.info[q].lo == t.info[q].lo && u.info[q].hi == t.info[q].hi)
          && (t.info[q].level < l ==> u.info[q] == MergedKid(t.info[q], l, x, Fill(t.mem[x]), y)))
    && (forall q {:trigger t.info[q]} {:trigger q in t.info} :: q in u.info && u.info[q].level <= l ==>
          q in t.info && q != y && t.info[q].level == u.info[q].level)
    && (forall q {:trigger u.mem[q]} {:trigger q in u.mem} :: q in t.mem && q !in t.info ==>
        q in u.mem && u.mem[q] == t.mem[q])
    && y in u.mem && u.mem.Keys - u.info.Keys == t.mem.Keys - t.info.Keys + {y}
  }

  /** The state after the recursive removal, as seen from level `l`. */
  ghost predicate Swallowed(t: Tree, u: Tree, l: nat, x: Ptr, y: Ptr, up: Ptr, at: nat) {
    && CanMerge(t, l, x, y, up, at)
    && u.n == t.n && u.span == t.span && Inv(u, l + 1) && Filled(u, l + 1, 0)
    && l <= u.height <= t.height && SameBelow(t, u, l, x, y)
    && x in u.info && x in u.mem && u.mem[x] == JoinNode(t.mem[x], Fill(t.mem[x]), t.mem[y], Fill(t.mem[y]))
    && u.info[x].lo == t.info[y].lo
    && Linked(u, x) && t.info[x].hi <= SHi(u, x)
  }

  lemma SwallowedHolds(t: Tree, u: Tree, l: nat, x: Ptr, y: Ptr, up: Ptr, at: nat)
    requires CanMerge(t, l, x, y, up, at) && at + 1 < t.n && Removed(Exchanged(t, l, x, y, up, at), u, l + 1, up, at)
    ensures Swallowed(t, u, l, x, y, up, at)
  {
    NeighbourFacts(t, l, x, y, up, at);
    ExchangedShape(t, l, x, y, up, at);
    var o := Exchanged(t, l, x, y, up, at);
    assert o.mem[up].vals[at] == y && o.mem[up].vals[at + 1] == x;
    assert SlotHi(o, up, at) == SlotHi(t, up, at);
    assert Below(o, u, l + 1, {y}, {}) && x in u.info && y !in u.info;
    SwallowedBelow(t, u, l, x, y, up, at);
    assert u.mem[x] == o.mem[x] && u.info[x].lo == o.info[x].lo;
    hide Inv, Filled, Exchanged, NodeOk, Linked, Neighbours, SHi, SlotHi, Entries, Fill, Join, Packed, Descending,
        SameBelow, Below;
  }

  lemma SwallowedBelow(t: Tree, u: Tree, l: nat, x: Ptr, y: Ptr, up: Ptr, at: nat)
    requires CanMerge(t, l, x, y, up, at) && at + 1 < t.n &&
      Below(Exchanged(t, l, x, y, up, at), u, l + 1, {y}, {}) && y !in u.info
    ensures SameBelow(t, u, l, x, y)
  {
    hide Inv, Filled, Exchanged, NodeOk, Linked, Fill;
    NeighbourFacts(t, l, x, y, up, at);
    ExchangedShape(t, l, x, y, up, at);
    var o := Exchanged(t, l, x, y, up, at);
    assert y in o.mem && y in o.info && t.info.Keys <= t.mem.Keys;
    SwallowedSets(t, o, u, l, y);
    hide Neighbours, Join, Packed, Descending, Base;
  }

  lemma SwallowedSets(t: Tree, o: Tree, u: Tree, l: nat, y: Ptr)
    requires Below(o, u, l + 1, {y}, {}) && y in o.info && y in o.mem && y !in u.info
    requires o.mem.Keys == t.mem.Keys && o.info.Keys == t.info.Keys
    ensures y in u.mem && u.mem.Keys - u.info.Keys == t.mem.Keys - t.info.Keys + {y}
  {
    assert y in u.mem.Keys - u.info.Keys;
  }

  /** Freeing the right node completes the merge. */
  ghost function Merged(t: Tree, u: Tree, x: Ptr, y: Ptr): Tree
    requires x in t.info && x in u.info
  {
    u.(mem := u.mem - {y}, info := u.info[x := u.info[x].(hi := t.info[x].hi)])
  }

  lemma MergedNode(t: Tree, u: Tree, l: nat, x: Ptr, y: Ptr, up: Ptr, at: nat, q: Ptr)
    requires Swallowed(t, u, l, x, y, up, at) && q in u.info && u.info[q].level >= l
    ensures x in t.info && NodeOk(Merged(t, u, x, y), q)
  {
    NeighbourFacts(t, l, x, y, up, at);
    assert y !in u.info;
    if q == x {
      JoinFacts(t.n, t.mem[x], Fill(t.mem[x]), t.mem[y], Fill(t.mem[y]));
      hide Inv, Filled, Neighbours, Linked, SHi, NodeOk, Join;
      MergedSelf(t, u, l, x, y, up, at);
    } else if u.info[q].level > l {
      assert NodeOk(u, q);
      hide Inv, Filled, Neighbours, Linked, SHi;
    } else {
      assert NodeOk(t, q);
      hide Inv, Filled, Neighbours, Linked, SHi;
    }
  }

  lemma MergedSelf(t: Tree, u: Tree, l: nat, x: Ptr, y: Ptr, up: Ptr, at: nat)
    requires Swallowed(t, u, l, x, y, up, at)
    ensures x in t.info && NodeOk(Merged(t, u, x, y), x) && Fill(u.mem[x]) == Fill(t.mem[x]) + Fill(t.mem[y])
  {
    hide Inv, Filled, Neighbours, Linked, SHi, Join;
    NeighbourFacts(t, l, x, y, up, at);
    JoinFacts(t.n, t.mem[x], Fill(t.mem[x]), t.mem[y], Fill(t.mem[y]));
  }

  lemma MergedKidOk(t: Tree, u: Tree, l: nat, x: Ptr, y: Ptr, up: Ptr, at: nat, q: Ptr, i: nat)
    requires Swallowed(t, u, l, x, y, up, at) && Has(u, q) && q != y && u.info[q].level >= l && u.info[q].level > 1
    requires i < Fill(u.mem[q])
    ensures x in t.info && KidOk(Merged(t, u, x, y), q, i)
  {
    hide Fill, Linked;
    NeighbourFacts(t, l, x, y, up, at);
    if q == x {
      MergedOwnKid(t, u, l, x, y, up, at, i);
    } else if u.info[q].level > l {
      assert KidOk(u, q, i);
      hide Inv, Filled, Neighbours, NodeOk;
    } else {
      assert KidOk(t, q, i);
      hide Inv, Filled, Neighbours, NodeOk, Linked, SHi;
    }
  }

  /** The slots of the swallowing node, seen as slots of the pair. */
  lemma JoinSlots(x: Node, y: Node, g: nat)
    requires |x.keys| == |x.vals| == |y.keys| == |y.vals| && Fill(x) + Fill(y) <= |x.keys| && g < Fill(x) + Fill(y)
    ensures JoinNode(x, Fill(x), y, Fill(y)).keys[g] == PairKey(x, y, g) &&
      JoinNode(x, Fill(x), y, Fill(y)).vals[g] == PairVal(x, y, g)
  {
  }

  /** The range of slot `g` of the pair. */
  ghost function PairTop(t: Tree, x: Ptr, y: Ptr, g: nat): nat
    requires Has(t, x) && Has(t, y) && g < Fill(t.mem[x]) + Fill(t.mem[y])
  {
    if g == 0 then t.info[x].hi else PairKey(t.mem[x], t.mem[y], g - 1)
  }

  lemma OwnHas(t: Tree, u: Tree, l: nat, x: Ptr, y: Ptr, up: Ptr, at: nat)
    requires Swallowed(t, u, l, x, y, up, at)
    ensures Has(t, x) && Has(t, y)
  {
  }

  lemma OwnInfo(t: Tree, u: Tree, l: nat, x: Ptr, y: Ptr, up: Ptr, at: nat, c: Ptr)
    requires Swallowed(t, u, l, x, y, up, at) && c in t.info && t.info[c].level + 1 == l && c in u.info
    requires x in t.mem && (t.info[c].up == x || t.info[c].up == y)
    ensures u.info[c].up == x && u.info[c].at == (if t.info[c].up == x then t.info[c].at
      else Fill(t.mem[x]) + t.info[c].at)
    ensures c != u.root && Neighbours(t, l, x, y, up, at) && x != y
  {
    assert u.info[c].level == t.info[c].level && c != y && Base(u);
    hide Inv, Filled, Linked, SHi, Fill;
  }

  /** The child in slot `g` of the pair. */
  lemma OwnChild(t: Tree, l: nat, x: Ptr, y: Ptr, up: Ptr, at: nat, g: nat)
    requires Neighbours(t, l, x, y, up, at) && l > 1 && g < Fill(t.mem[x]) + Fill(t.mem[y])
    ensures var c := PairVal(t.mem[x], t.mem[y], g);
            && c in t.info && t.info[c].level + 1 == l && (t.info[c].up == x || t.info[c].up == y)
            && g == (if t.info[c].up == x then t.info[c].at else Fill(t.mem[x]) + t.info[c].at)
            && PairKey(t.mem[x], t.mem[y], g) <= t.info[c].lo && t.info[c].hi <= PairTop(t, x, y, g)
  {
    NeighbourFacts(t, l, x, y, up, at);
    var fx := Fill(t.mem[x]);
    if g < fx {
      assert KidOk(t, x, g);
    } else {
      assert KidOk(t, y, g - fx);
    }
    hide Inv, Neighbours, NodeOk;
  }

  lemma OwnStays(t: Tree, u: Tree, l: nat, x: Ptr, y: Ptr, up: Ptr, at: nat, c: Ptr)
    requires Swallowed(t, u, l, x, y, up, at) && c in t.info && t.info[c].level + 1 == l
    ensures c != x && c != y && x in t.info && c in u.info
    ensures u.info[c].level + 1 == l && u.info[c].lo == t.info[c].lo && u.info[c].hi == t.info[c].hi
    ensures x in u.info && u.info[x].level == l && Has(u, x) &&
      u.mem[x] == JoinNode(t.mem[x], Fill(t.mem[x]), t.mem[y], Fill(t.mem[y]))
  {
    assert u.info[x].level == l && y != c && x != c;
    hide Inv, Filled, Linked, SHi, Fill, JoinNode;
  }

  lemma MergedOwnKid(t: Tree, u: Tree, l: nat, x: Ptr, y: Ptr, up: Ptr, at: nat, g: nat)
    requires Swallowed(t, u, l, x, y, up, at) && l > 1 && g < Fill(u.mem[x])
    ensures x in t.info && KidOk(Merged(t, u, x, y), x, g)
  {
    hide Fill, NodeOk, JoinNode;
    MergedSelf(t, u, l, x, y, up, at);
    OwnHas(t, u, l, x, y, up, at);
    assert Neighbours(t, l, x, y, up, at) && Fill(t.mem[x]) + Fill(t.mem[y]) <= t.n == u.n;
    hide Swallowed, Neighbours, PairTop;
    var c := PairVal(t.mem[x], t.mem[y], g);
    OwnChild(t, l, x, y, up, at, g);
    OwnStays(t, u, l, x, y, up, at, c);
    OwnInfo(t, u, l, x, y, up, at, c);
    OwnSlot(t, x, y, g);
    var t' := Merged(t, u, x, y);
    assert Has(t', x) && t'.mem[x] == u.mem[x] && t'.info[c] == u.info[c] && t'.info[x].level == l &&
        t'.info[x].hi == t.info[x].hi;
    hide Merged, PairVal, PairKey;
  }

  lemma OwnSlot(t: Tree, x: Ptr, y: Ptr, g: nat)
    requires Has(t, x) && Has(t, y) && Fill(t.mem[x]) + Fill(t.mem[y]) <= t.n && g < Fill(t.mem[x]) + Fill(t.mem[y])
    ensures var j := JoinNode(t.mem[x], Fill(t.mem[x]), t.mem[y], Fill(t.mem[y]));
            && j.keys[g] == PairKey(t.mem[x], t.mem[y], g) && j.vals[g] == PairVal(t.mem[x], t.mem[y], g)
            && PairTop(t, x, y, g) == if g == 0 then t.info[x].hi else j.keys[g - 1]
  {
    JoinSlots(t.mem[x], t.mem[y], g);
    if g > 0 {
      JoinSlots(t.mem[x], t.mem[y], g - 1);
    }
    hide JoinNode, PairKey, PairVal;
  }

  lemma MergedLink(t: Tree, u: Tree, l: nat, x: Ptr, y: Ptr, up: Ptr, at: nat, c: Ptr)
    requires Swallowed(t, u, l, x, y, up, at) && c in u.info && u.info[c].level + 1 >= l
    ensures x in t.info && Linked(Merged(t, u, x, y), c)
  {
    assert y !in u.info && c != y;
    if u.info[c].level >= l {
      assert Linked(u, c);
      hide Inv, Filled, Neighbours, NodeOk, SHi, Join, SameBelow;
    } else {
      MergedLowLink(t, u, l, x, y, up, at, c);
    }
  }

  lemma MergedLowLink(t: Tree, u: Tree, l: nat, x: Ptr, y: Ptr, up: Ptr, at: nat, c: Ptr)
    requires Swallowed(t, u, l, x, y, up, at) && c in u.info && u.info[c].level + 1 == l
    ensures x in t.info && Linked(Merged(t, u, x, y), c)
  {
    hide NodeOk, Fill, KidOk;
    hide SHi, Join;
    NeighbourFacts(t, l, x, y, up, at);
    MergedSelf(t, u, l, x, y, up, at);
    assert c in t.info && c != y && Linked(t, c);
    hide Inv, Filled, Neighbours, Base;
  }

  lemma MergedNodes(t: Tree, u: Tree, l: nat, x: Ptr, y: Ptr, up: Ptr, at: nat)
    requires Swallowed(t, u, l, x, y, up, at)
    ensures x in t.info && NodesOk(Merged(t, u, x, y), l)
  {
    var t' := Merged(t, u, x, y);
    hide Swallowed, NodeOk;
    forall q | q in t'.info && t'.info[q].level >= l
      ensures NodeOk(t', q)
    {
      MergedNode(t, u, l, x, y, up, at, q);
    }
  }

  lemma MergedKids(t: Tree, u: Tree, l: nat, x: Ptr, y: Ptr, up: Ptr, at: nat)
    requires Swallowed(t, u, l, x, y, up, at)
    ensures x in t.info && KidsOk(Merged(t, u, x, y), l)
  {
    var t' := Merged(t, u, x, y);
    hide Swallowed, KidOk;
    forall q, i | Has(t', q) && t'.info[q].level >= l && t'.info[q].level > 1 && 0 <= i < Fill(t'.mem[q])
      ensures KidOk(t', q, i)
    {
      assert Has(u, q) && q != y;
      MergedKidOk(t, u, l, x, y, up, at, q, i);
    }
  }

  /** Once the right node is gone, level `l` is well formed again. */
  lemma MergedInv(t: Tree, u: Tree, l: nat, x: Ptr, y: Ptr, up: Ptr, at: nat)
    requires Swallowed(t, u, l, x, y, up, at)
    ensures x in t.info && Inv(Merged(t, u, x, y), l)
  {
    hide Fill, NodeOk, SHi;
    hide Linked;
    var t' := Merged(t, u, x, y);
    assert y !in u.info && Base(t') by {
      hide SameBelow, NodeOk, Linked, SHi, Fill;
    }
    MergedNodes(t, u, l, x, y, up, at);
    MergedKids(t, u, l, x, y, up, at);
    hide Swallowed, NodesOk, KidsOk, Base;
    forall c | c in t'.info && t'.info[c].level + 1 >= l
      ensures Linked(t', c)
    {
      MergedLink(t, u, l, x, y, up, at, c);
    }
  }

  lemma MergedEntries(t: Tree, u: Tree, l: nat, x: Ptr, y: Ptr, up: Ptr, at: nat)
    requires Swallowed(t, u, l, x, y, up, at)
    ensures x in t.info && Entries(Merged(t, u, x, y), l) == Entries(t, l)
  {
    var t' := Merged(t, u, x, y);
    NeighbourFacts(t, l, x, y, up, at);
    MergedSelf(t, u, l, x, y, up, at);
    JoinEnts(t.n, t.mem[x], t.mem[y]);
    assert Has(t', x) && t'.info[x].level == l;
    UnionTwo(t, x, y);
    UnionOne(t', x);
    MergedRearranged(t, u, l, x, y, up, at);
    hide Swallowed, Rearranged, Entries, Union, Neighbours, NodeOk, Ents, Join;
    RearrangedEntries(t, t', l, {x, y}, {x}, {});
  }

  lemma MergedRearranged(t: Tree, u: Tree, l: nat, x: Ptr, y: Ptr, up: Ptr, at: nat)
    requires Swallowed(t, u, l, x, y, up, at)
    ensures x in t.info && Rearranged(t, Merged(t, u, x, y), l, {x, y}, {x})
  {
    MergedSelf(t, u, l, x, y, up, at);
    assert x in t.info && t.info[x].level == l && t.info[y].level == l && u.info[x].level == l && y !in u.info;
    assert forall q :: q in t.mem ==> Sized(t.n, t.mem[q]);
    assert forall q :: q in u.mem ==> Sized(u.n, u.mem[q]);
    hide Swallowed, NodeOk, Fill;
    SameBelowRearranged(t, u, l, x, y);
  }

  lemma SameBelowKeeps(t: Tree, u: Tree, l: nat, x: Ptr, y: Ptr, q: Ptr)
    requires x in t.info && x in t.mem && x in u.info && t.info[x].level == l && u.n == t.n &&
      SameBelow(t, u, l, x, y) && y !in u.info
    requires (forall q :: q in t.mem ==> Sized(t.n, t.mem[q])) && (forall q :: q in u.mem ==> Sized(u.n, u.mem[q]))
    requires q in t.info && t.info[q].level == l && q != x && q != y && q in t.mem
    ensures Has(Merged(t, u, x, y), q) && Merged(t, u, x, y).info[q].level == l && Merged(t, u, x, y).mem[q] == t.mem[q]
  {
    hide Fill, MergedKid;
  }

  lemma SameBelowFrom(t: Tree, u: Tree, l: nat, x: Ptr, y: Ptr, q: Ptr)
    requires x in t.info && x in t.mem && x in u.info && t.info[x].level == l && u.n == t.n &&
      SameBelow(t, u, l, x, y) && y !in u.info
    requires (forall q :: q in t.mem ==> Sized(t.n, t.mem[q])) && t.info.Keys <= t.mem.Keys
    requires Has(Merged(t, u, x, y), q) && Merged(t, u, x, y).info[q].level == l && q != x
    ensures Has(t, q) && t.info[q].level == l && Merged(t, u, x, y).mem[q] == t.mem[q] && q != y
  {
    hide Fill, MergedKid;
    assert q in u.info && q in t.info;
  }

  lemma SameBelowSelf(t: Tree, u: Tree, l: nat, x: Ptr, y: Ptr)
    requires x in t.info && x in u.info && x in u.mem && u.info[x].level == l && x != y && forall q :: q in u.mem ==>
      Sized(u.n, u.mem[q])
    ensures Has(Merged(t, u, x, y), x) && Merged(t, u, x, y).info[x].level == l
  {
  }

  lemma SameBelowRearranged(t: Tree, u: Tree, l: nat, x: Ptr, y: Ptr)
    requires Has(t, x) && Has(t, y) && x != y && t.info[x].level == l && t.info[y].level == l
    requires x in u.info && x in u.mem && u.info[x].level == l && u.n == t.n && SameBelow(t, u, l, x, y) && y !in u.info
    requires (forall q :: q in t.mem ==> Sized(t.n, t.mem[q])) && (forall q :: q in u.mem ==> Sized(u.n, u.mem[q]))
    requires t.info.Keys <= t.mem.Keys && u.info.Keys <= u.mem.Keys
    ensures Rearranged(t, Merged(t, u, x, y), l, {x, y}, {x})
  {
    hide SameBelow, Merged, Fill, Sized;
    forall q | Has(t, q) && t.info[q].level == l && q !in {x, y}
      ensures Has(Merged(t, u, x, y), q) && Merged(t, u, x, y).info[q].level == l &&
        Merged(t, u, x, y).mem[q] == t.mem[q]
    {
      SameBelowKeeps(t, u, l, x, y, q);
    }
    forall q | Has(Merged(t, u, x, y), q) && Merged(t, u, x, y).info[q].level == l && q !in {x}
      ensures Has(t, q) && t.info[q].level == l && Merged(t, u, x, y).mem[q] == t.mem[q] && q != y
    {
      SameBelowFrom(t, u, l, x, y, q);
    }
    SameBelowSelf(t, u, l, x, y);
  }

  lemma MergedBelow(t: Tree, u: Tree, l: nat, x: Ptr, y: Ptr, up: Ptr, at: nat)
    requires Swallowed(t, u, l, x, y, up, at)
    ensures x in t.info && Below(t, Merged(t, u, x, y), l, {}, {})
  {
    assert x in t.info && t.info[x].level == l && y in t.info && t.info[y].level == l && u.info[x].level == l &&
        y !in u.info;
    assert u.n == t.n && u.span == t.span && SameBelow(t, u, l, x, y);
    hide Swallowed, SameBelow;
    SameBelowBelow(t, u, l, x, y);
  }

  lemma SameBelowBelow(t: Tree, u: Tree, l: nat, x: Ptr, y: Ptr)
    requires x in t.info && x in t.mem && y in t.info && t.info[x].level == l && t.info[y].level == l &&
      x in u.info && u.info[x].level == l
    requires u.n == t.n && u.span == t.span && SameBelow(t, u, l, x, y) && y !in u.info
    ensures Below(t, Merged(t, u, x, y), l, {}, {})
  {
    hide Fill;
  }

  lemma MergedFilled(t: Tree, u: Tree, l: nat, x: Ptr, y: Ptr, up: Ptr, at: nat, weak: Ptr)
    requires Swallowed(t, u, l, x, y, up, at) && Filled(t, l, weak) && (weak == x || weak == y)
    ensures x in t.info && Filled(Merged(t, u, x, y), l, 0)
  {
    hide NodeOk, KidOk, Linked, Inv;
    var t' := Merged(t, u, x, y);
    NeighbourFacts(t, l, x, y, up, at);
    MergedSelf(t, u, l, x, y, up, at);
    assert l < t.height && t.info[x].level == l;
    hide SHi, Join, Neighbours;
    forall q | Has(t', q) && t'.info[q].level >= l && q != 0
      ensures Fill(t'.mem[q]) >= (if q == t'.root && t'.height == 1 then 1 else 2)
    {
      assert Has(u, q);
      if t'.info[q].level == l && q != x {
        assert Has(t, q);
      }
    }
  }

  lemma OwnBefore(t: Tree, l: nat, x: Ptr, y: Ptr, up: Ptr, at: nat, c: Ptr)
    requires Neighbours(t, l, x, y, up, at) && Linked(t, c) && t.info[c].level + 1 == l &&
      (t.info[c].up == x || t.info[c].up == y)
    ensures c != t.root && c != y && c != x
    ensures var g := if t.info[c].up == x then t.info[c].at else Fill(t.mem[x]) + t.info[c].at;
            && g < Fill(t.mem[x]) + Fill(t.mem[y])
            && SLo(t, c) == PairKey(t.mem[x], t.mem[y], g) && SHi(t, c) <= PairTop(t, x, y, g)
  {
    hide NodeOk, KidOk, Inv, Packed, Descending, Fill;
    NeighbourFacts(t, l, x, y, up, at);
    assert Base(t);
    hide Neighbours;
  }

  lemma OwnAfter(t: Tree, u: Tree, l: nat, x: Ptr, y: Ptr, up: Ptr, at: nat, c: Ptr, g: nat)
    requires Swallowed(t, u, l, x, y, up, at) && x in t.info && Has(t, x) && Has(t, y) &&
      g < Fill(t.mem[x]) + Fill(t.mem[y])
    requires c in u.info && c != x && c != u.root && u.info[c].up == x && u.info[c].at == g &&
      Linked(Merged(t, u, x, y), c)
    ensures SLo(Merged(t, u, x, y), c) == PairKey(t.mem[x], t.mem[y], g) &&
      SHi(Merged(t, u, x, y), c) == PairTop(t, x, y, g)
  {
    assert Fill(t.mem[x]) + Fill(t.mem[y]) <= t.n;
    hide NodeOk, KidOk, Inv, Filled, Packed, Descending, Fill, SameBelow, Neighbours, Base;
    JoinSlots(t.mem[x], t.mem[y], g);
    if g > 0 {
      JoinSlots(t.mem[x], t.mem[y], g - 1);
    }
    hide JoinNode;
  }

  /** A child of the pair keeps its range. */
  lemma MergedOwnSlot(t: Tree, u: Tree, l: nat, x: Ptr, y: Ptr, up: Ptr, at: nat, c: Ptr)
    requires Swallowed(t, u, l, x, y, up, at) && c in t.info && Linked(t, c) && t.info[c].level + 1 == l && c in u.info
    requires x in t.info && Linked(Merged(t, u, x, y), c) && (t.info[c].up == x || t.info[c].up == y)
    ensures SLo(Merged(t, u, x, y), c) <= SLo(t, c) && SHi(t, c) <= SHi(Merged(t, u, x, y), c)
  {
    MergedSelf(t, u, l, x, y, up, at);
    hide Swallowed, Linked, SLo, SHi, Neighbours, Fill, NodeOk;
    OwnHas(t, u, l, x, y, up, at);
    OwnInfo(t, u, l, x, y, up, at, c);
    OwnBefore(t, l, x, y, up, at, c);
    OwnAfter(t, u, l, x, y, up, at, c, u.info[c].at);
  }

  lemma MergedOtherSlot(t: Tree, u: Tree, l: nat, x: Ptr, y: Ptr, up: Ptr, at: nat, c: Ptr)
    requires Swallowed(t, u, l, x, y, up, at) && c in t.info && Linked(t, c) && t.info[c].level + 1 == l && c in u.info
    requires x in t.info && Linked(Merged(t, u, x, y), c) && t.info[c].up != x && t.info[c].up != y
    ensures SLo(Merged(t, u, x, y), c) <= SLo(t, c) && SHi(t, c) <= SHi(Merged(t, u, x, y), c)
  {
    assert c != y && c != t.root && c != u.root && c != x;
    assert u.info[c] == t.info[c];
    assert t.info[t.info[c].up].level == l;
    hide NodeOk, KidOk, Inv, Neighbours, Filled, Base;
  }

  lemma MergedSlot(t: Tree, u: Tree, l: nat, x: Ptr, y: Ptr, up: Ptr, at: nat, c: Ptr)
    requires Swallowed(t, u, l, x, y, up, at) && c in t.info && Linked(t, c) && t.info[c].level + 1 == l && c in u.info
    ensures x in t.info && Linked(Merged(t, u, x, y), c)
    ensures SLo(Merged(t, u, x, y), c) <= SLo(t, c) && SHi(t, c) <= SHi(Merged(t, u, x, y), c)
  {
    MergedLink(t, u, l, x, y, up, at, c);
    if t.info[c].up == x || t.info[c].up == y {
      MergedOwnSlot(t, u, l, x, y, up, at, c);
    } else {
      MergedOtherSlot(t, u, l, x, y, up, at, c);
    }
    hide Swallowed;
  }

  lemma MergedSlots(t: Tree, u: Tree, l: nat, x: Ptr, y: Ptr, up: Ptr, at: nat)
    requires Swallowed(t, u, l, x, y, up, at)
    ensures x in t.info && SlotsKept(t, Merged(t, u, x, y), l)
  {
    var t' := Merged(t, u, x, y);
    hide Swallowed, Linked;
    forall c | c in t.info && Linked(t, c) && t.info[c].level + 1 == l && c in t'.info
      ensures Linked(t', c) && SLo(t', c) <= SLo(t, c) && SHi(t, c) <= SHi(t', c)
    {
      MergedSlot(t, u, l, x, y, up, at, c);
    }
  }

  /** Merging two neighbours rebalances the level. */
  lemma MergedHolds(t: Tree, u: Tree, l: nat, x: Ptr, y: Ptr, up: Ptr, at: nat, weak: Ptr)
    requires Swallowed(t, u, l, x, y, up, at) && Filled(t, l, weak) && (weak == x || weak == y)
    ensures x in t.info && Rebalanced(t, Merged(t, u, x, y), l)
  {
    MergedInv(t, u, l, x, y, up, at);
    MergedEntries(t, u, l, x, y, up, at);
    MergedBelow(t, u, l, x, y, up, at);
    MergedFilled(t, u, l, x, y, up, at, weak);
    MergedSlots(t, u, l, x, y, up, at);
    hide Inv, Filled, Below, SlotsKept, Entries, Linked, SameBelow, CanMerge, SHi;
  }
}
