/** Moving the border between two neighbouring nodes. Splitting a node, stealing entries from
    either neighbour and merging two neighbours all keep the entries of the pair in order and only
    change how many of them the left node holds. */
module Resplit {
  import opened Nodes
  import opened Trees

  ghost function LeftPart(x: Node, y: Node, a: nat): Node
    requires |x.keys| == |x.vals| == |y.keys| == |y.vals|
    requires a <= |x.keys| && a <= Fill(x) + Fill(y)
  {
    if a <= Fill(x) then FrontNode(x, a) else JoinNode(x, Fill(x), y, a - Fill(x))
  }

  ghost function RightPart(x: Node, y: Node, a: nat): Node
    requires |x.keys| == |x.vals| == |y.keys| == |y.vals|
    requires a <= Fill(x) + Fill(y) <= a + |x.keys|
  {
    if a <= Fill(x) then JoinNode(BackNode(x, a), Fill(x) - a, y, Fill(y)) else BackNode(y, a - Fill(x))
  }

  ghost function PairKey(x: Node, y: Node, g: nat): nat
    requires |x.keys| == |x.vals| == |y.keys| == |y.vals| && g < Fill(x) + Fill(y)
  {
    if g < Fill(x) then x.keys[g] else y.keys[g - Fill(x)]
  }

  ghost function PairVal(x: Node, y: Node, g: nat): nat
    requires |x.keys| == |x.vals| == |y.keys| == |y.vals| && g < Fill(x) + Fill(y)
  {
    if g < Fill(x) then x.vals[g] else y.vals[g - Fill(x)]
  }

  ghost predicate PairOk(n: nat, x: Node, y: Node, a: nat) {
    && Packed(n, x) && Descending(x) && Packed(n, y) && Descending(y)
    && a <= n && a <= Fill(x) + Fill(y) <= a + n
    && (0 < Fill(x) && 0 < Fill(y) ==> x.keys[Fill(x) - 1] > y.keys[0])
  }

  lemma LeftFacts(n: nat, x: Node, y: Node, a: nat)
    requires PairOk(n, x, y, a)
    ensures var r := LeftPart(x, y, a);
            && Packed(n, r) && Descending(r) && Fill(r) == a
            && forall i :: 0 <= i < a ==> r.keys[i] == PairKey(x, y, i) && r.vals[i] == PairVal(x, y, i)
  {
    hide Front, Join, Descending;
    if a <= Fill(x) {
      FrontFacts(n, x, a);
    } else {
      JoinFacts(n, x, Fill(x), y, a - Fill(x));
    }
  }

  lemma RightFacts(n: nat, x: Node, y: Node, a: nat)
    requires PairOk(n, x, y, a)
    ensures var r := RightPart(x, y, a);
            && Packed(n, r) && Descending(r) && Fill(r) == Fill(x) + Fill(y) - a
            && forall i :: 0 <= i < Fill(x) + Fill(y) - a ==>
                 r.keys[i] == PairKey(x, y, i + a) && r.vals[i] == PairVal(x, y, i + a)
  {
    hide Back, Join, Descending;
    if a <= Fill(x) {
      BackFacts(n, x, a);
      JoinFacts(n, BackNode(x, a), Fill(x) - a, y, Fill(y));
    } else {
      BackFacts(n, y, a - Fill(x));
    }
  }

  lemma PartsEnts(n: nat, x: Node, y: Node, a: nat)
    requires PairOk(n, x, y, a)
    ensures Ents(LeftPart(x, y, a)) + Ents(RightPart(x, y, a)) == Ents(x) + Ents(y)
  {
    hide Fill;
    if a <= Fill(x) {
      BackFacts(n, x, a);
      FrontBackEnts(n, x, a);
      JoinEnts(n, BackNode(x, a), y);
    } else {
      var b := a - Fill(x);
      FrontFacts(n, y, b);
      FrontBackEnts(n, y, b);
      JoinEnts(n, x, FrontNode(y, b));
      assert JoinNode(x, Fill(x), FrontNode(y, b), b) == JoinNode(x, Fill(x), y, b);
    }
  }

  /** The tree after the left node `x` of the pair (x, y) on level `l` keeps the first `a` entries. */
  ghost function Moved(t: Tree, l: nat, x: Ptr, y: Ptr, a: nat): Tree
    requires Has(t, x) && Has(t, y) && PairOk(t.n, t.mem[x], t.mem[y], a)
  {
    t.(mem := t.mem[x := LeftPart(t.mem[x], t.mem[y], a)][y := RightPart(t.mem[x], t.mem[y], a)],
       info := map c | c in t.info :: MovedInfo(t.info[c], l, x, Fill(t.mem[x]), y, a))
  }

  ghost function MovedInfo(d: Info, l: nat, x: Ptr, fx: nat, y: Ptr, a: nat): Info {
    if d.level + 1 == l && (d.up == x || d.up == y) then
      var g := if d.up == x then d.at else fx + d.at;
      if g < a then d.(up := x, at := g) else d.(up := y, at := g - a)
    else d
  }

  /** Slot `g` of the pair points to a child, recorded for its present node, of the right interval. */
  ghost predicate PairKid(t: Tree, l: nat, x: Ptr, y: Ptr, g: nat) {
    && Has(t, x) && Has(t, y) && g < Fill(t.mem[x]) + Fill(t.mem[y])
    && var fx := Fill(t.mem[x]);
    && var c := PairVal(t.mem[x], t.mem[y], g);
    && c in t.info
    && t.info[c].level + 1 == l
    && t.info[c].up == (if g < fx then x else y)
    && t.info[c].at == (if g < fx then g else g - fx)
    && PairKey(t.mem[x], t.mem[y], g) <= t.info[c].lo
    && t.info[c].hi <= (if g == 0 then t.info[x].hi else PairKey(t.mem[x], t.mem[y], g - 1))
  }

  /** Everything is in place for the border of the pair to move to `a`: the upper levels already
      record the new intervals of `x` and `y`. */
  ghost predicate Ready(t: Tree, l: nat, x: Ptr, y: Ptr, a: nat) {
    && 0 < l && Inv(t, l + 1)
    && Has(t, x) && Has(t, y) && x != y && t.info[x].level == l && t.info[y].level == l
    && PairOk(t.n, t.mem[x], t.mem[y], a) && 0 < a
    && t.info[x].hi <= t.span && t.info[y].hi <= t.span
    && var total := Fill(t.mem[x]) + Fill(t.mem[y]);
    && (forall g :: 0 <= g < a ==> t.info[x].lo <= PairKey(t.mem[x], t.mem[y], g) < t.info[x].hi)
    && (forall g :: a <= g < total ==> t.info[y].lo <= PairKey(t.mem[x], t.mem[y], g) < t.info[y].hi)
    && (a < total ==> PairKey(t.mem[x], t.mem[y], a - 1) <= t.info[y].hi)
    && (forall p {:trigger NodeOk(t, p)} :: p in t.info && t.info[p].level == l && p != x && p != y ==> NodeOk(t, p))
    && (l > 1 ==> forall p, i {:trigger KidOk(t, p, i)} ::
          Has(t, p) && t.info[p].level == l && p != x && p != y && 0 <= i < Fill(t.mem[p]) ==> KidOk(t, p, i))
    && (l > 1 ==> forall g {:trigger PairKid(t, l, x, y, g)} :: 0 <= g < total ==> PairKid(t, l, x, y, g))
    && (forall c {:trigger Linked(t, c)} :: c in t.info && t.info[c].level + 1 == l ==> Linked(t, c))
  }

  /** What moving the border touches: the two nodes and the parent links of their children. */
  ghost predicate OnlyPair(t: Tree, t': Tree, l: nat, x: Ptr, y: Ptr, a: nat) {
    && Has(t, x) && Has(t, y) && t.info[x].level == l && t.info[y].level == l && Has(t', x) && Has(t', y)
    && t'.n == t.n && t'.span == t.span && t'.root == t.root && t'.height == t.height
    && t'.mem.Keys == t.mem.Keys && t'.info.Keys == t.info.Keys
    && (forall q {:trigger t'.mem[q]} :: q in t.mem && q != x && q != y ==> t'.mem[q] == t.mem[q])
    && (forall q {:trigger t'.info[q]} :: q in t.info ==>
        t'.info[q] == MovedInfo(t.info[q], l, x, Fill(t.mem[x]), y, a))
  }

  lemma MovedShape(t: Tree, l: nat, x: Ptr, y: Ptr, a: nat)
    requires Ready(t, l, x, y, a)
    ensures OnlyPair(t, Moved(t, l, x, y, a), l, x, y, a) && Base(Moved(t, l, x, y, a))
  {
    hide LeftPart, RightPart;
    LeftFacts(t.n, t.mem[x], t.mem[y], a);
    RightFacts(t.n, t.mem[x], t.mem[y], a);
    hide LeftPart, RightPart, NodeOk, KidOk, Linked, PairKid;
  }

  lemma OnlyPairRearranged(t: Tree, t': Tree, l: nat, x: Ptr, y: Ptr, a: nat)
    requires OnlyPair(t, t', l, x, y, a)
    ensures Rearranged(t, t', l, {x, y}, {x, y})
  {
    hide Fill;
    assert t'.info[x].level == l && t'.info[y].level == l;
    assert forall p :: Has(t, p) && t.info[p].level == l && p != x && p != y ==> Has(t', p) && t'.info[p].level == l;
    assert forall p :: Has(t', p) && t'.info[p].level == l && p != x && p != y ==> Has(t, p) && t.info[p].level == l;
  }

  lemma OnlyPairBelow(t: Tree, t': Tree, l: nat, x: Ptr, y: Ptr, a: nat)
    requires OnlyPair(t, t', l, x, y, a)
    ensures Below(t, t', l, {}, {})
  {
    hide Fill;
  }

  lemma MovedPair(t: Tree, l: nat, x: Ptr, y: Ptr, a: nat)
    requires Ready(t, l, x, y, a)
    ensures var t' := Moved(t, l, x, y, a);
            && Has(t', x) && Has(t', y)
            && Packed(t.n, t'.mem[x]) && Descending(t'.mem[x]) && Packed(t.n, t'.mem[y]) && Descending(t'.mem[y])
            && Fill(t'.mem[x]) == a && Fill(t'.mem[y]) == Fill(t.mem[x]) + Fill(t.mem[y]) - a
            && (forall i {:trigger t'.mem[x].keys[i]} {:trigger t'.mem[x].vals[i]} :: 0 <= i < a ==>
                  t'.mem[x].keys[i] == PairKey(t.mem[x], t.mem[y], i) &&
                      t'.mem[x].vals[i] == PairVal(t.mem[x], t.mem[y], i))
            && (forall i {:trigger t'.mem[y].keys[i]} {:trigger t'.mem[y].vals[i]} :: 0 <= i < Fill(t'.mem[y]) ==>
                  t'.mem[y].keys[i] == PairKey(t.mem[x], t.mem[y], i + a) &&
                      t'.mem[y].vals[i] == PairVal(t.mem[x], t.mem[y], i + a))
  {
    hide LeftPart, RightPart;
    LeftFacts(t.n, t.mem[x], t.mem[y], a);
    RightFacts(t.n, t.mem[x], t.mem[y], a);
    hide LeftPart, RightPart, NodeOk, Inv;
  }

  lemma MovedNode(t: Tree, l: nat, x: Ptr, y: Ptr, a: nat, q: Ptr)
    requires Ready(t, l, x, y, a) && q in t.info && t.info[q].level >= l
    ensures NodeOk(Moved(t, l, x, y, a), q)
  {
    hide LeftPart, RightPart;
    MovedShape(t, l, x, y, a);
    MovedPair(t, l, x, y, a);
    assert q == x || q == y || NodeOk(t, q);
    hide Moved, MovedInfo, Inv, Base;
  }

  lemma MovedKid(t: Tree, l: nat, x: Ptr, y: Ptr, a: nat, q: Ptr, i: nat)
    requires Ready(t, l, x, y, a) && Has(t, q) && t.info[q].level >= l && t.info[q].level > 1
    requires i < Fill(Moved(t, l, x, y, a).mem[q])
    ensures KidOk(Moved(t, l, x, y, a), q, i)
  {
    hide LeftPart, RightPart;
    if q == x || q == y {
      MovedPair(t, l, x, y, a);
      var g := if q == x then i else i + a;
      assert PairKid(t, l, x, y, g);
      hide Moved, Inv, NodeOk, KidOk, PairKid;
      if q == x {
        MovedLeftKid(t, l, x, y, a, g);
      } else {
        MovedRightKid(t, l, x, y, a, g);
      }
    } else {
      MovedShape(t, l, x, y, a);
      assert KidOk(t, q, i);
      hide Moved, Inv, Base, PairKid;
    }
  }

  lemma MovedLeftKid(t: Tree, l: nat, x: Ptr, y: Ptr, a: nat, g: nat)
    requires Ready(t, l, x, y, a) && l > 1 && PairKid(t, l, x, y, g) && g < a
    ensures KidOk(Moved(t, l, x, y, a), x, g)
  {
    hide LeftPart, RightPart, Moved, Inv, Base, NodeOk, Packed, Descending, PairOk;
    MovedShape(t, l, x, y, a);
    MovedPair(t, l, x, y, a);
  }

  lemma MovedRightKid(t: Tree, l: nat, x: Ptr, y: Ptr, a: nat, g: nat)
    requires Ready(t, l, x, y, a) && l > 1 && PairKid(t, l, x, y, g) && g >= a
    ensures KidOk(Moved(t, l, x, y, a), y, g - a)
  {
    hide LeftPart, RightPart;
    MovedShape(t, l, x, y, a);
    MovedPair(t, l, x, y, a);
    hide Moved, Inv, Base, NodeOk, Packed, Descending, PairOk;
  }

  /** The new slot of a child of the pair. */
  lemma MovedSlot(t: Tree, l: nat, x: Ptr, y: Ptr, a: nat, g: nat, c: Ptr)
    requires Ready(t, l, x, y, a) && g < Fill(t.mem[x]) + Fill(t.mem[y]) && c == PairVal(t.mem[x], t.mem[y], g)
    ensures var t' := Moved(t, l, x, y, a);
            && (g < a ==> Has(t', x) && g < Fill(t'.mem[x]) && t'.mem[x].vals[g] == c)
            && (g >= a ==> Has(t', y) && g - a < Fill(t'.mem[y]) && t'.mem[y].vals[g - a] == c)
  {
    hide LeftPart, RightPart;
    MovedPair(t, l, x, y, a);
    hide Moved, Inv, Base, NodeOk, KidOk, PairKid, PairKey, Packed, Descending, PairOk;
  }

  lemma MovedPairLink(t: Tree, l: nat, x: Ptr, y: Ptr, a: nat, c: Ptr)
    requires Ready(t, l, x, y, a) && c in t.info && t.info[c].level + 1 == l && Linked(t, c)
    requires c != t.root && (t.info[c].up == x || t.info[c].up == y)
    ensures Linked(Moved(t, l, x, y, a), c)
  {
    hide LeftPart, RightPart, Inv, PairKey, PairOk, Base, Moved, Ready;
    MovedShape(t, l, x, y, a);
    var g := if t.info[c].up == x then t.info[c].at else Fill(t.mem[x]) + t.info[c].at;
    MovedSlot(t, l, x, y, a, g, c);
  }

  lemma MovedOtherLink(t: Tree, t': Tree, l: nat, x: Ptr, y: Ptr, a: nat, c: Ptr)
    requires OnlyPair(t, t', l, x, y, a) && Linked(t, c)
    requires c == t.root || (t.info[c].up != x && t.info[c].up != y) || t.info[c].level >= l
    ensures Linked(t', c)
  {
    hide LeftPart, RightPart;
  }

  lemma MovedLink(t: Tree, l: nat, x: Ptr, y: Ptr, a: nat, c: Ptr)
    requires Ready(t, l, x, y, a) && c in t.info && t.info[c].level + 1 >= l
    ensures Linked(Moved(t, l, x, y, a), c)
  {
    hide LeftPart, RightPart;
    assert Linked(t, c);
    if c != t.root && t.info[c].level + 1 == l && (t.info[c].up == x || t.info[c].up == y) {
      MovedPairLink(t, l, x, y, a, c);
    } else {
      MovedShape(t, l, x, y, a);
      hide Ready, Inv;
      MovedOtherLink(t, Moved(t, l, x, y, a), l, x, y, a, c);
    }
  }

  /** Moving the border restores the invariant of level `l`. */
  lemma MovedInv(t: Tree, l: nat, x: Ptr, y: Ptr, a: nat)
    requires Ready(t, l, x, y, a)
    ensures Inv(Moved(t, l, x, y, a), l)
  {
    hide LeftPart, RightPart;
    var t' := Moved(t, l, x, y, a);
    MovedShape(t, l, x, y, a);
    hide NodeOk, KidOk, Linked, Moved, Ready, Base;
    forall q | q in t'.info && t'.info[q].level >= l
      ensures NodeOk(t', q)
    {
      MovedNode(t, l, x, y, a, q);
    }
    forall q, i | Has(t', q) && t'.info[q].level >= l && t'.info[q].level > 1 && 0 <= i < Fill(t'.mem[q])
      ensures KidOk(t', q, i)
    {
      MovedKid(t, l, x, y, a, q, i);
    }
    forall c | c in t'.info && t'.info[c].level + 1 >= l
      ensures Linked(t', c)
    {
      MovedLink(t, l, x, y, a, c);
    }
  }

  /** Moving the border changes no entry of level `l`. */
  lemma MovedEntries(t: Tree, l: nat, x: Ptr, y: Ptr, a: nat)
    requires Ready(t, l, x, y, a)
    ensures Entries(Moved(t, l, x, y, a), l) == Entries(t, l)
  {
    hide LeftPart, RightPart;
    var t' := Moved(t, l, x, y, a);
    MovedShape(t, l, x, y, a);
    PartsEnts(t.n, t.mem[x], t.mem[y], a);
    UnionTwo(t, x, y);
    UnionTwo(t', x, y);
    OnlyPairRearranged(t, t', l, x, y, a);
    hide OnlyPair, Moved, Ready, Union, Rearranged, Entries, Ents, Inv;
    RearrangedEntries(t, t', l, {x, y}, {x, y}, {});
  }

  /** `t` is ready for the border of the pair to move, and on level `l` it still looks like `t1`,
      `x` being either an old node or a new empty one. */
  ghost predicate SameLevel(t1: Tree, t: Tree, l: nat, x: Ptr, y: Ptr) {
    && t1.span == t.span && t1.n == t.n
    && Has(t, x) && Has(t, y) && Has(t1, y) && t1.info[y].level == l && t1.mem[y] == t.mem[y]
    && (forall c {:trigger t1.info[c]} :: c in t1.info && t1.info[c].level + 1 == l && c in t.info ==>
        t.info[c] == t1.info[c])
    && (forall q {:trigger Has(t1, q)} :: Has(t1, q) && t1.info[q].level == l && q != x && q != y ==>
          Has(t, q) && t.mem[q] == t1.mem[q] && t1.info[q].hi <= t.info[q].hi)
    && (Fill(t.mem[x]) > 0 ==>
          Has(t1, x) && t1.info[x].level == l && t1.mem[x] == t.mem[x] && t1.info[x].hi <= t.info[x].hi)
    && (Fill(t.mem[x]) == 0 ==> x !in t1.info)
    && t1.info[y].hi <= (if Fill(t.mem[x]) > 0 && Fill(t.mem[x]) <= t.n then t.mem[x].keys[Fill(t.mem[x]) - 1]
        else t.info[x].hi)
  }

  /** The range slot `g` of the pair stands for. */
  ghost function PairHi(t: Tree, x: Ptr, y: Ptr, g: nat): nat
    requires Has(t, x) && Has(t, y) && g < Fill(t.mem[x]) + Fill(t.mem[y])
  {
    if g == 0 then t.info[x].hi else PairKey(t.mem[x], t.mem[y], g - 1)
  }

  lemma OldBounds(t1: Tree, t: Tree, l: nat, x: Ptr, y: Ptr, c: Ptr)
    requires SameLevel(t1, t, l, x, y) && c in t1.info && Linked(t1, c) && t1.info[c].level + 1 == l && c != t1.root
    requires t1.info[c].up == x || t1.info[c].up == y
    ensures var g := if t1.info[c].up == x then t1.info[c].at else Fill(t.mem[x]) + t1.info[c].at;
            && g < Fill(t.mem[x]) + Fill(t.mem[y])
            && SLo(t1, c) == PairKey(t.mem[x], t.mem[y], g) && SHi(t1, c) <= PairHi(t, x, y, g)
            && c == PairVal(t.mem[x], t.mem[y], g)
  {
    var up := t1.info[c].up;
    assert Has(t1, up) && t1.info[up].level == l;
  }

  lemma NewBounds(t: Tree, l: nat, x: Ptr, y: Ptr, a: nat, g: nat)
    requires Ready(t, l, x, y, a) && g < Fill(t.mem[x]) + Fill(t.mem[y])
    ensures var t' := Moved(t, l, x, y, a);
            var q, i := if g < a then x else y, if g < a then g else g - a;
            && Has(t', q) && i < t.n
            && t'.mem[q].keys[i] == PairKey(t.mem[x], t.mem[y], g)
            && PairHi(t, x, y, g) <= SlotHi(t', q, i)
  {
    hide LeftPart, RightPart, NodeOk, KidOk, PairKid, Inv, Base;
    MovedPair(t, l, x, y, a);
    MovedShape(t, l, x, y, a);
    hide Moved, Packed, Descending, PairOk;
    if g >= a {
      assert PairKey(t.mem[x], t.mem[y], a - 1) <= t.info[y].hi || g - a > 0;
    }
  }

  lemma MovedSlot1(t1: Tree, t: Tree, l: nat, x: Ptr, y: Ptr, a: nat, c: Ptr)
    requires Ready(t, l, x, y, a) && SameLevel(t1, t, l, x, y) && c in t1.info && c in t.info
    requires Linked(t1, c) && t1.info[c].level + 1 == l && c != t1.root && c != t.root
    ensures Linked(Moved(t, l, x, y, a), c)
    ensures SLo(Moved(t, l, x, y, a), c) <= SLo(t1, c) && SHi(t1, c) <= SHi(Moved(t, l, x, y, a), c)
  {
    hide Fill;
    hide LeftPart, RightPart, Inv, Base, NodeOk, KidOk, PairKid;
    MovedLink(t, l, x, y, a, c);
    MovedShape(t, l, x, y, a);
    var up := t1.info[c].up;
    if up == x || up == y {
      OldBounds(t1, t, l, x, y, c);
      var g := if up == x then t1.info[c].at else Fill(t.mem[x]) + t1.info[c].at;
      NewBounds(t, l, x, y, a, g);
      hide Moved, PairKey, PairVal, PairHi, Ready, PairOk;
    } else {
      assert Has(t1, up) && t1.info[up].level == l;
      hide Moved, Ready;
    }
  }

  /** Moving the border leaves every child at least the range its slot had before. */
  lemma MovedSlots(t1: Tree, t: Tree, l: nat, x: Ptr, y: Ptr, a: nat)
    requires Ready(t, l, x, y, a) && SameLevel(t1, t, l, x, y)
    requires t1.root !in t1.info || t1.info[t1.root].level + 1 != l
    requires t.root !in t.info || t.info[t.root].level + 1 != l
    ensures SlotsKept(t1, Moved(t, l, x, y, a), l)
  {
    MovedShape(t, l, x, y, a);
    var t' := Moved(t, l, x, y, a);
    hide LeftPart, RightPart, Inv, Base, Moved, Ready, Linked;
    forall c | Linked(t1, c) && c in t1.info && t1.info[c].level + 1 == l && c in t'.info
      ensures Linked(t', c) && SLo(t', c) <= SLo(t1, c) && SHi(t1, c) <= SHi(t', c)
    {
      MovedSlot1(t1, t, l, x, y, a, c);
    }
  }
}
