/** The proof of `steal_l` and `steal_r`: the parent key between two neighbours moves, then entries
    move across it. */
module BorderProof {
  import opened Nodes
  import opened Trees
  import opened Resplit

  /** Two neighbouring nodes of level `l`, in slots `at` and `at + 1` of node `up`. */
  ghost predicate Neighbours(t: Tree, l: nat, x: Ptr, y: Ptr, up: Ptr, at: nat) {
    && 0 < l && Inv(t, l) && Has(t, x) && Has(t, y) && Has(t, up) && x != y
    && t.info[x].level == l && t.info[y].level == l && t.info[up].level == l + 1
    && at + 1 < Fill(t.mem[up]) && t.mem[up].vals[at] == x && t.mem[up].vals[at + 1] == y
    && 0 < Fill(t.mem[x]) && 0 < Fill(t.mem[y])
  }

  /** What the invariant says about the pair. */
  lemma NeighbourFacts(t: Tree, l: nat, x: Ptr, y: Ptr, up: Ptr, at: nat)
    requires Neighbours(t, l, x, y, up, at)
    ensures Base(t) && NodeOk(t, x) && NodeOk(t, y) && NodeOk(t, up) && x != up && y != up
    ensures t.info[x].up == up && t.info[x].at == at && t.info[y].up == up && t.info[y].at == at + 1
    ensures at + 1 < t.n && Fill(t.mem[x]) <= t.n && Fill(t.mem[y]) <= t.n && Fill(t.mem[up]) <= t.n
    ensures t.mem[up].keys[at + 1] <= t.info[y].lo < t.info[y].hi <= t.mem[up].keys[at] <= t.info[x].lo < t.info[x].hi
    ensures t.info[x].hi <= SlotHi(t, up, at)
    ensures forall i :: 0 <= i < Fill(t.mem[x]) ==> t.info[x].lo <= t.mem[x].keys[i] < t.info[x].hi
    ensures forall i :: 0 <= i < Fill(t.mem[y]) ==> t.info[y].lo <= t.mem[y].keys[i] < t.info[y].hi
    ensures t.mem[x].keys[Fill(t.mem[x]) - 1] > t.mem[y].keys[0]
  {
    assert KidOk(t, up, at) && KidOk(t, up, at + 1);
    assert NodeOk(t, x) && NodeOk(t, y) && NodeOk(t, up);
    assert t.info[x].lo <= t.mem[x].keys[0] < t.info[x].hi && t.info[y].lo <= t.mem[y].keys[0] < t.info[y].hi;
    hide Inv;
  }

  /** The tree after the border between `x` and `y` was set to the key of entry a - 1. */
  ghost function Bordered(t: Tree, x: Ptr, y: Ptr, up: Ptr, at: nat, b: nat): Tree
    requires Has(t, up) && at < t.n && x in t.info && y in t.info
  {
    t.(mem := t.mem[up := Node(t.mem[up].keys[at := b], t.mem[up].vals)],
       info := t.info[x := t.info[x].(lo := b)][y := t.info[y].(hi := b)])
  }

  ghost predicate CanBorder(t: Tree, l: nat, x: Ptr, y: Ptr, up: Ptr, at: nat, a: nat) {
    && Neighbours(t, l, x, y, up, at)
    && 0 < a < Fill(t.mem[x]) + Fill(t.mem[y]) && a <= t.n && Fill(t.mem[x]) + Fill(t.mem[y]) <= a + t.n
  }

  ghost function BorderKey(t: Tree, x: Ptr, y: Ptr, a: nat): nat
    requires Has(t, x) && Has(t, y) && 0 < a <= Fill(t.mem[x]) + Fill(t.mem[y])
  {
    PairKey(t.mem[x], t.mem[y], a - 1)
  }

  /** The new border keeps the parent in order. */
  lemma BorderRange(t: Tree, l: nat, x: Ptr, y: Ptr, up: Ptr, at: nat, a: nat)
    requires CanBorder(t, l, x, y, up, at, a)
    ensures at + 1 < t.n
    ensures var b := BorderKey(t, x, y, a);
            && t.mem[up].keys[at + 1] < b && t.info[y].lo < b < t.info[x].hi
            && t.info[up].lo <= b < t.info[up].hi && (at > 0 ==> b < t.mem[up].keys[at - 1])
  {
    NeighbourFacts(t, l, x, y, up, at);
    var fx := Fill(t.mem[x]);
    if a > fx {
      assert t.mem[y].keys[a - 1 - fx] > t.mem[y].keys[a - fx];
    }
    hide Inv, Neighbours;
  }

  lemma BorderPair(t: Tree, l: nat, x: Ptr, y: Ptr, up: Ptr, at: nat, a: nat)
    requires CanBorder(t, l, x, y, up, at, a)
    ensures PairOk(t.n, t.mem[x], t.mem[y], a)
    ensures var b := BorderKey(t, x, y, a);
            && (forall g {:trigger PairKey(t.mem[x], t.mem[y], g)} :: 0 <= g < a ==>
                  b <= PairKey(t.mem[x], t.mem[y], g) < t.info[x].hi)
            && (forall g {:trigger PairKey(t.mem[x], t.mem[y], g)} :: a <= g < Fill(t.mem[x]) + Fill(t.mem[y]) ==>
                  t.info[y].lo <= PairKey(t.mem[x], t.mem[y], g) < b)
  {
    NeighbourFacts(t, l, x, y, up, at);
    hide Inv, Neighbours;
  }

  lemma BorderShape(t: Tree, l: nat, x: Ptr, y: Ptr, up: Ptr, at: nat, a: nat)
    requires CanBorder(t, l, x, y, up, at, a)
    ensures at < t.n
    ensures var u, b := Bordered(t, x, y, up, at, BorderKey(t, x, y, a)), BorderKey(t, x, y, a);
            && Base(u) && u.n == t.n && u.span == t.span && u.root == t.root && u.height == t.height
            && u.mem.Keys == t.mem.Keys && u.info.Keys == t.info.Keys
            && (forall q {:trigger u.mem[q]} :: q in t.mem && q != up ==> u.mem[q] == t.mem[q])
            && (forall q {:trigger u.info[q]} :: q in t.info && q != x && q != y ==> u.info[q] == t.info[q])
            && u.info[x] == t.info[x].(lo := b) && u.info[y] == t.info[y].(hi := b)
            && u.mem[up] == Node(t.mem[up].keys[at := b], t.mem[up].vals) && Fill(u.mem[up]) == Fill(t.mem[up])
  {
    NeighbourFacts(t, l, x, y, up, at);
    FillIs(Node(t.mem[up].keys[at := BorderKey(t, x, y, a)], t.mem[up].vals), Fill(t.mem[up]));
    hide Inv, Neighbours, NodeOk, PairKey;
  }

  lemma BorderNode(t: Tree, l: nat, x: Ptr, y: Ptr, up: Ptr, at: nat, a: nat, q: Ptr)
    requires CanBorder(t, l, x, y, up, at, a) && q in t.info && t.info[q].level >= l && q != x && q != y
    ensures at < t.n && NodeOk(Bordered(t, x, y, up, at, BorderKey(t, x, y, a)), q)
  {
    hide Bordered, BorderKey, Base;
    BorderShape(t, l, x, y, up, at, a);
    BorderRange(t, l, x, y, up, at, a);
    assert NodeOk(t, q);
    hide Inv, Neighbours;
  }

  lemma BorderKid(t: Tree, l: nat, x: Ptr, y: Ptr, up: Ptr, at: nat, a: nat, q: Ptr, i: nat)
    requires CanBorder(t, l, x, y, up, at, a) && Has(t, q) && t.info[q].level >= l && t.info[q].level > 1 &&
      i < Fill(t.mem[q])
    requires q != x && q != y
    ensures at < t.n && KidOk(Bordered(t, x, y, up, at, BorderKey(t, x, y, a)), q, i)
  {
    hide Bordered, BorderKey, Base, NodeOk;
    BorderShape(t, l, x, y, up, at, a);
    BorderRange(t, l, x, y, up, at, a);
    NeighbourFacts(t, l, x, y, up, at);
    assert KidOk(t, q, i);
    hide Inv, Neighbours;
  }

  lemma BorderPairKid(t: Tree, l: nat, x: Ptr, y: Ptr, up: Ptr, at: nat, a: nat, g: nat)
    requires CanBorder(t, l, x, y, up, at, a) && l > 1 && g < Fill(t.mem[x]) + Fill(t.mem[y])
    ensures at < t.n && PairKid(Bordered(t, x, y, up, at, BorderKey(t, x, y, a)), l, x, y, g)
  {
    BorderShape(t, l, x, y, up, at, a);
    NeighbourFacts(t, l, x, y, up, at);
    var fx := Fill(t.mem[x]);
    if g < fx {
      assert KidOk(t, x, g);
    } else {
      assert KidOk(t, y, g - fx);
    }
    hide Inv, Neighbours, Bordered, BorderKey, Base, NodeOk;
  }

  /** Once the border is set the pair is ready for its entries to move. */
  lemma BorderUpper(t: Tree, l: nat, x: Ptr, y: Ptr, up: Ptr, at: nat, a: nat)
    requires CanBorder(t, l, x, y, up, at, a)
    ensures at < t.n && Inv(Bordered(t, x, y, up, at, BorderKey(t, x, y, a)), l + 1)
  {
    BorderShape(t, l, x, y, up, at, a);
    var u := Bordered(t, x, y, up, at, BorderKey(t, x, y, a));
    hide NodeOk, KidOk, Neighbours, Bordered, BorderKey, Base;
    forall q | q in u.info && u.info[q].level >= l + 1
      ensures NodeOk(u, q)
    {
      BorderNode(t, l, x, y, up, at, a, q);
    }
    forall q, i | Has(u, q) && u.info[q].level >= l + 1 && u.info[q].level > 1 && 0 <= i < Fill(u.mem[q])
      ensures KidOk(u, q, i)
    {
      assert Has(t, q) && i < Fill(t.mem[q]);
      BorderKid(t, l, x, y, up, at, a, q, i);
    }
    BorderLinks(t, l, x, y, up, at, a);
  }

  lemma BorderLinks(t: Tree, l: nat, x: Ptr, y: Ptr, up: Ptr, at: nat, a: nat)
    requires CanBorder(t, l, x, y, up, at, a)
    ensures at < t.n && LinksOk(Bordered(t, x, y, up, at, BorderKey(t, x, y, a)), l)
  {
    BorderShape(t, l, x, y, up, at, a);
    var u := Bordered(t, x, y, up, at, BorderKey(t, x, y, a));
    hide Bordered, BorderKey, NodeOk, KidOk, Neighbours;
    forall c | c in u.info && u.info[c].level + 1 >= l
      ensures Linked(u, c)
    {
      BorderLink(t, l, x, y, up, at, a, c);
    }
  }

  lemma BorderLink(t: Tree, l: nat, x: Ptr, y: Ptr, up: Ptr, at: nat, a: nat, c: Ptr)
    requires CanBorder(t, l, x, y, up, at, a) && c in t.info && t.info[c].level + 1 >= l
    ensures at < t.n && Linked(Bordered(t, x, y, up, at, BorderKey(t, x, y, a)), c)
  {
    BorderShape(t, l, x, y, up, at, a);
    assert Linked(t, c);
    hide Bordered, BorderKey, NodeOk, KidOk, Neighbours, Inv;
  }

  lemma BorderLower(t: Tree, l: nat, x: Ptr, y: Ptr, up: Ptr, at: nat, a: nat)
    requires CanBorder(t, l, x, y, up, at, a)
    ensures at < t.n
    ensures var u := Bordered(t, x, y, up, at, BorderKey(t, x, y, a));
            && (forall q {:trigger NodeOk(u, q)} :: q in u.info && u.info[q].level == l && q != x && q != y ==>
                NodeOk(u, q))
            && (l > 1 ==> forall q, i {:trigger KidOk(u, q, i)} ::
                  Has(u, q) && u.info[q].level == l && q != x && q != y && 0 <= i < Fill(u.mem[q]) ==> KidOk(u, q, i))
            && (l > 1 ==> forall g {:trigger PairKid(u, l, x, y, g)} ::
                  0 <= g < Fill(t.mem[x]) + Fill(t.mem[y]) ==> PairKid(u, l, x, y, g))
  {
    BorderShape(t, l, x, y, up, at, a);
    var u := Bordered(t, x, y, up, at, BorderKey(t, x, y, a));
    hide NodeOk, KidOk, PairKid, Neighbours, Bordered, BorderKey, Base, Inv;
    forall q | q in u.info && u.info[q].level == l && q != x && q != y
      ensures NodeOk(u, q)
    {
      BorderNode(t, l, x, y, up, at, a, q);
    }
    forall q, i | l > 1 && Has(u, q) && u.info[q].level == l && q != x && q != y && 0 <= i < Fill(u.mem[q])
      ensures KidOk(u, q, i)
    {
      assert Has(t, q) && i < Fill(t.mem[q]);
      BorderKid(t, l, x, y, up, at, a, q, i);
    }
    forall g | l > 1 && 0 <= g < Fill(t.mem[x]) + Fill(t.mem[y])
      ensures PairKid(u, l, x, y, g)
    {
      BorderPairKid(t, l, x, y, up, at, a, g);
    }
  }

  lemma BorderReady(t: Tree, l: nat, x: Ptr, y: Ptr, up: Ptr, at: nat, a: nat)
    requires CanBorder(t, l, x, y, up, at, a)
    ensures at < t.n
    ensures var u := Bordered(t, x, y, up, at, BorderKey(t, x, y, a)); Ready(u, l, x, y, a) && SameLevel(t, u, l, x, y)
  {
    hide PairKid, Bordered, Base, Inv, PairOk, PairKey;
    NeighbourFacts(t, l, x, y, up, at);
    BorderShape(t, l, x, y, up, at, a);
    BorderRange(t, l, x, y, up, at, a);
    BorderPair(t, l, x, y, up, at, a);
    BorderUpper(t, l, x, y, up, at, a);
    BorderLinks(t, l, x, y, up, at, a);
    BorderLower(t, l, x, y, up, at, a);
    hide NodeOk, KidOk, Neighbours, Linked;
  }

  ghost function Stolen(t: Tree, l: nat, x: Ptr, y: Ptr, up: Ptr, at: nat, a: nat): Tree
    requires Has(t, x) && Has(t, y) && Has(t, up) && at < t.n && x != up && y != up &&
      PairOk(t.n, t.mem[x], t.mem[y], a)
    requires 0 < a
  {
    Moved(Bordered(t, x, y, up, at, BorderKey(t, x, y, a)), l, x, y, a)
  }

  lemma StolenDefined(t: Tree, l: nat, x: Ptr, y: Ptr, up: Ptr, at: nat, a: nat)
    requires CanBorder(t, l, x, y, up, at, a)
    ensures x != up && y != up && at < t.n && PairOk(t.n, t.mem[x], t.mem[y], a)
  {
    NeighbourFacts(t, l, x, y, up, at);
    BorderPair(t, l, x, y, up, at, a);
  }

  lemma BorderBelow(t: Tree, l: nat, x: Ptr, y: Ptr, up: Ptr, at: nat, a: nat)
    requires CanBorder(t, l, x, y, up, at, a)
    ensures at < t.n && Below(t, Bordered(t, x, y, up, at, BorderKey(t, x, y, a)), l, {}, {})
  {
    BorderShape(t, l, x, y, up, at, a);
    NeighbourFacts(t, l, x, y, up, at);
    hide Bordered, BorderKey, Inv, Neighbours;
  }

  lemma StolenBelow(t: Tree, l: nat, x: Ptr, y: Ptr, up: Ptr, at: nat, a: nat)
    requires CanBorder(t, l, x, y, up, at, a) && x != up && y != up && at < t.n && PairOk(t.n, t.mem[x], t.mem[y], a)
    ensures Below(t, Stolen(t, l, x, y, up, at, a), l, {}, {})
  {
    BorderBelow(t, l, x, y, up, at, a);
    BorderReady(t, l, x, y, up, at, a);
    var u := Bordered(t, x, y, up, at, BorderKey(t, x, y, a));
    hide Below, Neighbours, Inv, BorderKey, SameLevel, PairOk;
    MovedShape(u, l, x, y, a);
    OnlyPairBelow(u, Stolen(t, l, x, y, up, at, a), l, x, y, a);
    BelowTrans(t, u, Stolen(t, l, x, y, up, at, a), l, {}, {});
  }

  lemma StolenEntries(t: Tree, l: nat, x: Ptr, y: Ptr, up: Ptr, at: nat, a: nat)
    requires CanBorder(t, l, x, y, up, at, a) && x != up && y != up && at < t.n && PairOk(t.n, t.mem[x], t.mem[y], a)
    ensures Entries(Stolen(t, l, x, y, up, at, a), l) == Entries(t, l)
  {
    BorderShape(t, l, x, y, up, at, a);
    BorderReady(t, l, x, y, up, at, a);
    var u := Bordered(t, x, y, up, at, BorderKey(t, x, y, a));
    MovedEntries(u, l, x, y, a);
    hide Entries, Ready, Neighbours, Inv, Bordered, BorderKey, SameLevel, PairOk, Moved;
    SameEntries(t, u, l);
  }

  lemma StolenShape(t: Tree, l: nat, x: Ptr, y: Ptr, up: Ptr, at: nat, a: nat)
    requires CanBorder(t, l, x, y, up, at, a) && x != up && y != up && at < t.n && PairOk(t.n, t.mem[x], t.mem[y], a)
    ensures var t' := Stolen(t, l, x, y, up, at, a);
            && t'.n == t.n && t'.root == t.root && t'.height == t.height && t'.info.Keys == t.info.Keys &&
                t'.mem.Keys == t.mem.Keys
            && Has(t', x) && Has(t', y) && Fill(t'.mem[x]) == a &&
                Fill(t'.mem[y]) == Fill(t.mem[x]) + Fill(t.mem[y]) - a
            && (forall q {:trigger t'.info[q]} :: q in t.info ==> t'.info[q].level == t.info[q].level)
            && (forall q {:trigger t'.mem[q]} :: q in t.mem && q != x && q != y ==>
                |t'.mem[q].vals| == |t.mem[q].vals| && t'.mem[q].vals == t.mem[q].vals)
  {
    hide Ready, SameLevel, PairKey, PairVal, Packed, Descending, BorderKey, Fill, NodeOk;
    var u := Bordered(t, x, y, up, at, BorderKey(t, x, y, a));
    BorderShape(t, l, x, y, up, at, a);
    BorderReady(t, l, x, y, up, at, a);
    MovedShape(u, l, x, y, a);
    MovedPair(u, l, x, y, a);
    hide Neighbours, Inv, Bordered, Moved, Base, PairOk;
  }

  lemma StolenFilled(t: Tree, l: nat, x: Ptr, y: Ptr, up: Ptr, at: nat, a: nat, weak: Ptr)
    requires CanBorder(t, l, x, y, up, at, a) && x != up && y != up && at < t.n && PairOk(t.n, t.mem[x], t.mem[y], a)
    requires Filled(t, l, weak) && (weak == x || weak == y) && 2 <= a && a + 2 <= Fill(t.mem[x]) + Fill(t.mem[y])
    ensures Filled(Stolen(t, l, x, y, up, at, a), l, 0)
  {
    hide CanBorder, Stolen, PairOk;
    BorderSized(t, l, x, y, up, at, a);
    StolenShape(t, l, x, y, up, at, a);
    var t' := Stolen(t, l, x, y, up, at, a);
    forall q | Has(t', q) && t'.info[q].level >= l && q != 0
      ensures Fill(t'.mem[q]) >= (if q == t'.root && t'.height == 1 then 1 else 2)
    {
      assert Has(t, q);
    }
  }

  lemma BorderSized(t: Tree, l: nat, x: Ptr, y: Ptr, up: Ptr, at: nat, a: nat)
    requires CanBorder(t, l, x, y, up, at, a)
    ensures Has(t, x) && Has(t, y) && Has(t, up) && l < t.height && t.info.Keys <= t.mem.Keys
    ensures forall q :: q in t.mem ==> Sized(t.n, t.mem[q])
  {
    assert Base(t);
  }

  /** Stealing entries from a neighbour rebalances the level. */
  lemma StolenHolds(t: Tree, l: nat, x: Ptr, y: Ptr, up: Ptr, at: nat, a: nat, weak: Ptr)
    requires CanBorder(t, l, x, y, up, at, a)
    requires Filled(t, l, weak) && (weak == x || weak == y) && 2 <= a && a + 2 <= Fill(t.mem[x]) + Fill(t.mem[y])
    ensures x != up && y != up && at < t.n && PairOk(t.n, t.mem[x], t.mem[y], a)
    ensures Rebalanced(t, Stolen(t, l, x, y, up, at, a), l)
  {
    StolenDefined(t, l, x, y, up, at, a);
    StolenBelow(t, l, x, y, up, at, a);
    StolenEntries(t, l, x, y, up, at, a);
    StolenFilled(t, l, x, y, up, at, a, weak);
    BorderShape(t, l, x, y, up, at, a);
    BorderReady(t, l, x, y, up, at, a);
    assert Base(t) && l < t.height;
    var u := Bordered(t, x, y, up, at, BorderKey(t, x, y, a));
    MovedInv(u, l, x, y, a);
    MovedShape(u, l, x, y, a);
    hide Entries, Ready, Neighbours, Inv, Bordered, BorderKey, SameLevel, PairOk, Moved, Below, Filled, SlotsKept;
    MovedSlots(t, u, l, x, y, a);
  }
}
