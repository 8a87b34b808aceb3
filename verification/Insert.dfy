/** Insertion: `btree_grow`, `split`, `btree_insert_level`, `btree_insert`. */
module InsertProof {
  import opened Nodes
  import opened Memory
  import opened Trees
  import opened Find
  import opened Resplit
  import opened SplitProof

  /** The tree after storing the pair (k, v) in slot `pos` of node `p`. */
  ghost function Place(t: Tree, p: Ptr, pos: nat, k: nat, v: nat): Tree
    requires Has(t, p) && pos < t.n && t.info[p].level > 0
  {
    var l := t.info[p].level;
    var moved := map c | c in t.info ::
                   if t.info[c].level + 1 == l && t.info[c].up == p && t.info[c].at >= pos && c != t.root
                   then t.info[c].(at := t.info[c].at + 1) else t.info[c];
    t.(mem := t.mem[p := InsertAt(t.mem[p], pos, k, v)],
       info := if l == 1 then t.info else moved[v := Info(l - 1, k, SlotHi(t, p, pos), p, pos)])
  }

  ghost predicate CanPlace(t: Tree, l: nat, p: Ptr, k: nat, v: nat) {
    && Inv(t, l) && Has(t, p) && t.info[p].level == l && NodeOk(t, p)
    && t.info[p].lo <= k < t.info[p].hi
    && Fill(t.mem[p]) < t.n && v != 0
    && var pos := Pos(t.mem[p], k);
    && (pos < Fill(t.mem[p]) ==> t.mem[p].keys[pos] != k)
    && (l > 1 ==>
          && v in t.mem && v !in t.info
          && pos < Fill(t.mem[p]) && t.mem[p].vals[pos] in t.info && t.info[t.mem[p].vals[pos]].hi <= k)
  }

  lemma PlaceBase(t: Tree, l: nat, p: Ptr, k: nat, v: nat)
    requires CanPlace(t, l, p, k, v)
    ensures Pos(t.mem[p], k) <= Fill(t.mem[p]) && Base(Place(t, p, Pos(t.mem[p], k), k, v))
  {
    hide Insert1;
    PosInFill(t.n, t.mem[p], k);
  }

  /** What `Place` touches: node `p`, the parent links of level l - 1, and the new child. */
  lemma PlaceShape(t: Tree, l: nat, p: Ptr, k: nat, v: nat)
    requires CanPlace(t, l, p, k, v)
    ensures Pos(t.mem[p], k) < t.n
    ensures var t' := Place(t, p, Pos(t.mem[p], k), k, v);
            && t'.n == t.n && t'.span == t.span && t'.root == t.root && t'.height == t.height
            && t'.mem == t.mem[p := InsertAt(t.mem[p], Pos(t.mem[p], k), k, v)] && Sized(t.n, t'.mem[p])
            && t'.info.Keys == t.info.Keys + Born(l, v)
            && (forall q {:trigger t'.info[q]} :: q in t.info ==> t'.info[q] == t.info[q].(at := t'.info[q].at))
            && (forall q {:trigger t'.info[q]} :: q in t.info && t.info[q].level + 1 != l ==> t'.info[q] == t.info[q])
            && (l > 1 ==> t'.info[v] == Info(l - 1, k, SlotHi(t, p, Pos(t.mem[p], k)), p, Pos(t.mem[p], k)))
  {
    hide Insert1;
    PlaceBase(t, l, p, k, v);
  }

  lemma PlaceNode(t: Tree, l: nat, p: Ptr, k: nat, v: nat, q: Ptr)
    requires CanPlace(t, l, p, k, v) && q in t.info && t.info[q].level >= l
    ensures Pos(t.mem[p], k) < t.n && NodeOk(Place(t, p, Pos(t.mem[p], k), k, v), q)
  {
    hide Packed, Descending, Base;
    hide Insert1, Place;
    PlaceBase(t, l, p, k, v);
    PlaceShape(t, l, p, k, v);
    assert NodeOk(t, q);
    if q == p {
      InsertAtFacts(t.n, t.mem[p], k, v);
    }
  }

  lemma PlaceKid(t: Tree, l: nat, p: Ptr, k: nat, v: nat, q: Ptr, i: nat)
    requires CanPlace(t, l, p, k, v) && Has(t, q) && t.info[q].level >= l && t.info[q].level > 1
    requires Pos(t.mem[p], k) < t.n && i < Fill(Place(t, p, Pos(t.mem[p], k), k, v).mem[q])
    ensures KidOk(Place(t, p, Pos(t.mem[p], k), k, v), q, i)
  {
    hide Insert1;
    PlaceBase(t, l, p, k, v);
    var pos := Pos(t.mem[p], k);
    if q == p {
      InsertAtFacts(t.n, t.mem[p], k, v);
      if i < pos {
        assert KidOk(t, q, i);
      } else if i > pos {
        assert KidOk(t, q, i - 1);
      }
    } else {
      assert KidOk(t, q, i);
    }
  }

  lemma PlaceOldLink(t: Tree, l: nat, p: Ptr, k: nat, v: nat, c: Ptr)
    requires CanPlace(t, l, p, k, v) && Pos(t.mem[p], k) < t.n && c in t.info && t.info[c].level + 1 >= l
    ensures Linked(Place(t, p, Pos(t.mem[p], k), k, v), c)
  {
    hide Insert1, KidOk;
    assert Linked(t, c) && NodeOk(t, p);
    PlaceBase(t, l, p, k, v);
    InsertAtFacts(t.n, t.mem[p], k, v);
    hide Inv, Base;
  }

  lemma PlaceLink(t: Tree, l: nat, p: Ptr, k: nat, v: nat, c: Ptr)
    requires CanPlace(t, l, p, k, v) && Pos(t.mem[p], k) < t.n
    requires c in Place(t, p, Pos(t.mem[p], k), k, v).info && Place(t, p, Pos(t.mem[p], k), k, v).info[c].level + 1 >= l
    ensures Linked(Place(t, p, Pos(t.mem[p], k), k, v), c)
  {
    hide Insert1;
    PlaceShape(t, l, p, k, v);
    PlaceBase(t, l, p, k, v);
    if c in t.info {
      PlaceOldLink(t, l, p, k, v, c);
    } else {
      InsertAtFacts(t.n, t.mem[p], k, v);
      hide Inv, NodeOk, Base;
    }
  }

  lemma PlaceNodes(t: Tree, l: nat, p: Ptr, k: nat, v: nat)
    requires CanPlace(t, l, p, k, v)
    ensures Pos(t.mem[p], k) < t.n && NodesOk(Place(t, p, Pos(t.mem[p], k), k, v), l)
  {
    PlaceShape(t, l, p, k, v);
    var t' := Place(t, p, Pos(t.mem[p], k), k, v);
    hide NodeOk, Place, CanPlace, Inv, Insert1;
    forall q | q in t'.info && t'.info[q].level >= l
      ensures NodeOk(t', q)
    {
      PlaceNode(t, l, p, k, v, q);
    }
  }

  lemma PlaceKids(t: Tree, l: nat, p: Ptr, k: nat, v: nat)
    requires CanPlace(t, l, p, k, v)
    ensures Pos(t.mem[p], k) < t.n && KidsOk(Place(t, p, Pos(t.mem[p], k), k, v), l)
  {
    PlaceShape(t, l, p, k, v);
    var t' := Place(t, p, Pos(t.mem[p], k), k, v);
    hide KidOk, Place, CanPlace, Inv, Insert1;
    forall q, i | Has(t', q) && t'.info[q].level >= l && t'.info[q].level > 1 && 0 <= i < Fill(t'.mem[q])
      ensures KidOk(t', q, i)
    {
      PlaceKid(t, l, p, k, v, q, i);
    }
  }

  lemma PlaceInv(t: Tree, l: nat, p: Ptr, k: nat, v: nat)
    requires CanPlace(t, l, p, k, v)
    ensures Pos(t.mem[p], k) < t.n && Inv(Place(t, p, Pos(t.mem[p], k), k, v), l)
  {
    PlaceBase(t, l, p, k, v);
    PlaceNodes(t, l, p, k, v);
    PlaceKids(t, l, p, k, v);
    hide NodesOk, KidsOk, Linked, Place, CanPlace, Base, Insert1;
    var t' := Place(t, p, Pos(t.mem[p], k), k, v);
    forall c | c in t'.info && t'.info[c].level + 1 >= l
      ensures Linked(t', c)
    {
      PlaceLink(t, l, p, k, v, c);
    }
  }

  lemma PlaceRearranged(t: Tree, l: nat, p: Ptr, k: nat, v: nat)
    requires CanPlace(t, l, p, k, v)
    ensures Pos(t.mem[p], k) < t.n
    ensures Rearranged(t, Place(t, p, Pos(t.mem[p], k), k, v), l, {p}, {p})
  {
    PlaceShape(t, l, p, k, v);
    hide Inv, NodeOk, Place;
  }

  lemma PlaceEntries(t: Tree, l: nat, p: Ptr, k: nat, v: nat)
    requires CanPlace(t, l, p, k, v)
    ensures Pos(t.mem[p], k) < t.n
    ensures Entries(Place(t, p, Pos(t.mem[p], k), k, v), l) == Entries(t, l) + {(k, v)}
  {
    PlaceShape(t, l, p, k, v);
    PlaceBase(t, l, p, k, v);
    PlaceRearranged(t, l, p, k, v);
    var pos := Pos(t.mem[p], k);
    var t' := Place(t, p, pos, k, v);
    InsertAtEnts(t.n, t.mem[p], pos, k, v);
    UnionOne(t, p);
    UnionOne(t', p);
    hide Entries, Inv, NodeOk, Place, Insert1, Rearranged, Union, Ents;
    RearrangedEntries(t, t', l, {p}, {p}, {(k, v)});
  }

  lemma PlaceBelow(t: Tree, l: nat, p: Ptr, k: nat, v: nat)
    requires CanPlace(t, l, p, k, v)
    ensures Pos(t.mem[p], k) < t.n
    ensures Below(t, Place(t, p, Pos(t.mem[p], k), k, v), l, {}, Born(l, v))
  {
    PlaceShape(t, l, p, k, v);
    hide Inv, NodeOk, Place;
  }

  lemma PlaceFilled(t: Tree, l: nat, p: Ptr, k: nat, v: nat)
    requires CanPlace(t, l, p, k, v) && Filled(t, l, p)
    requires Fill(t.mem[p]) == 0 ==> p == t.root && t.height == 1
    requires Fill(t.mem[p]) == 1 ==> p == t.root
    ensures Pos(t.mem[p], k) < t.n && Filled(Place(t, p, Pos(t.mem[p], k), k, v), l, 0)
  {
    hide Insert1;
    PlaceBase(t, l, p, k, v);
    var t' := Place(t, p, Pos(t.mem[p], k), k, v);
    InsertAtFacts(t.n, t.mem[p], k, v);
    forall q | Has(t', q) && t'.info[q].level >= l && q != 0
      ensures Fill(t'.mem[q]) >= (if q == t'.root && t'.height == 1 then 1 else 2)
    {
      assert q != v || l == 1;
      assert Has(t, q);
    }
  }

  /** Insertion of (k, v) at level `l` is under way: since `tb` only separators above were lowered
      and nodes of level `l` split. `weak` is a root that has just been added. */
  ghost predicate Searching(tb: Tree, t: Tree, l: nat, k: nat, v: nat, s: Ptr, weak: Ptr) {
    && 0 < l <= t.height && tb.height <= t.height && k < t.span && v != 0
    && Inv(t, l) && Filled(t, l, weak) && Below(tb, t, l, {}, {}) && Entries(t, l) == Entries(tb, l)
    && (l > 1 ==> Sibling(t, l, k, v, s) && Linked(tb, s) && SHi(tb, s) <= SHi(t, s))
    && (weak != 0 ==>
          && weak == t.root && l == t.height && Has(t, weak)
          && Fill(t.mem[weak]) == (if t.height == 1 then 0 else 1))
  }

  lemma LoweredBelow(t: Tree, t': Tree, l: nat)
    requires Base(t) && Base(t') && Lowered(t, t', l)
    ensures Below(t, t', l, {}, {})
  {
  }

  lemma LoweredEntries(t: Tree, t': Tree, l: nat)
    requires Base(t) && Base(t') && Lowered(t, t', l)
    ensures Entries(t', l) == Entries(t, l)
  {
    assert forall p :: Has(t, p) && t.info[p].level == l ==> Has(t', p) && t'.info[p].level == l;
    assert forall p :: Has(t', p) && t'.info[p].level == l ==> Has(t, p) && t.info[p].level == l;
    assert Rearranged(t, t', l, {}, {});
    RearrangedEntries(t, t', l, {}, {}, {});
  }

  lemma LoweredSlots(t: Tree, t': Tree, l: nat)
    requires Inv(t, l) && Inv(t', l) && Lowered(t, t', l)
    ensures SlotsKept(t, t', l)
  {
    forall c | c in t.info && Linked(t, c) && t.info[c].level + 1 == l && c in t'.info
      ensures Linked(t', c) && SLo(t', c) <= SLo(t, c) && SHi(t, c) <= SHi(t', c)
    {
      assert Linked(t', c);
    }
  }

  lemma SiblingKept(t: Tree, t': Tree, l: nat, k: nat, v: nat, s: Ptr)
    requires l > 1 && Base(t) && Base(t') && Sibling(t, l, k, v, s) && Below(t, t', l, {}, {}) && SlotsKept(t, t', l)
    ensures Sibling(t', l, k, v, s) && SHi(t, s) <= SHi(t', s)
  {
    assert s in t'.info;
    assert Linked(t', s);
  }

  lemma SearchFind(tb: Tree, t: Tree, t': Tree, l: nat, k: nat, v: nat, s: Ptr, weak: Ptr, p: Ptr)
    requires Searching(tb, t, l, k, v, s, weak) && Reached(t, t', l, l, p, k)
    ensures Searching(tb, t', l, k, v, s, weak)
    ensures RoomFor(t, l, k) ==> Has(t', p) && Fill(t'.mem[p]) < t'.n
  {
    hide Filled, Below, SlotsKept, Entries, Linked, RoomFor, Sibling;
    assert Base(t) && Base(t');
    LoweredBelow(t, t', l);
    LoweredEntries(t, t', l);
    LoweredSlots(t, t', l);
    LoweredFilled(t, t', l, l, weak);
    BelowTrans(tb, t, t', l, {}, {});
    if l > 1 {
      SiblingKept(t, t', l, k, v, s);
    }
    if RoomFor(t, l, k) {
      SearchRoom(t, t', l, k, p);
    }
    hide Inv;
  }

  lemma SearchRoom(t: Tree, t': Tree, l: nat, k: nat, p: Ptr)
    requires Base(t) && Reached(t, t', l, l, p, k) && RoomFor(t, l, k)
    ensures Has(t', p) && Fill(t'.mem[p]) < t'.n
  {
    assert Has(t, p);
    if r :| Has(t, r) && t.info[r].level == l && t.info[r].lo <= k < t.info[r].hi && Fill(t.mem[r]) < t.n {
      assert Has(t', r);
      hide Filled;
      SameNode(t', l, p, r, k);
    }
  }

  lemma SearchSplit(tb: Tree, t: Tree, t': Tree, l: nat, k: nat, v: nat, s: Ptr)
    requires Searching(tb, t, l, k, v, s, 0) && SplitPost(t, t', l, k)
    ensures Searching(tb, t', l, k, v, s, 0)
  {
    assert Base(t) && Base(t');
    BelowTrans(tb, t, t', l, {}, {});
    assert t'.span == t.span;
    if l > 1 {
      SiblingKept(t, t', l, k, v, s);
    }
    hide Inv, Filled, Below, SlotsKept, Entries, Linked, RoomFor, Sibling;
  }

  /** The key is new to the node the search ended in. */
  lemma KeyIsNew(tb: Tree, t: Tree, l: nat, p: Ptr, k: nat)
    requires Base(t) && Has(t, p) && t.info[p].level == l && Entries(t, l) == Entries(tb, l) && NodeOk(t, p)
    requires forall x: nat {:trigger (k, x) in Entries(tb, l)} :: (k, x) !in Entries(tb, l)
    ensures Pos(t.mem[p], k) < Fill(t.mem[p]) ==> t.mem[p].keys[Pos(t.mem[p], k)] != k
  {
    var pos := Pos(t.mem[p], k);
    if pos < Fill(t.mem[p]) {
      var e := (t.mem[p].keys[pos], t.mem[p].vals[pos]);
      assert e in Ents(t.mem[p]);
      assert e in Entries(t, l);
    }
  }

  /** Above the leaves the new pair goes right before its sibling. */
  lemma SiblingPos(t: Tree, l: nat, p: Ptr, k: nat, v: nat, s: Ptr)
    requires Inv(t, l) && l > 1 && Sibling(t, l, k, v, s) && Has(t, p) && t.info[p].level == l <= t.height
    requires t.info[p].lo <= k < t.info[p].hi
    ensures Pos(t.mem[p], k) < Fill(t.mem[p]) && t.mem[p].vals[Pos(t.mem[p], k)] == s
    ensures SlotHi(t, p, Pos(t.mem[p], k)) == SHi(t, s)
  {
    assert s != t.root;
    var up, at := t.info[s].up, t.info[s].at;
    assert NodeOk(t, up) && NodeOk(t, p);
    assert t.info[up].lo <= k < t.info[up].hi;
    SameNode(t, l, p, up, k);
    assert t.mem[p].keys[at] <= k;
    assert at > 0 ==> k < t.mem[p].keys[at - 1];
    assert Pos(t.mem[p], k) == at;
  }

  lemma ReadyToPlace(tb: Tree, t: Tree, l: nat, k: nat, v: nat, s: Ptr, weak: Ptr, p: Ptr)
    requires Searching(tb, t, l, k, v, s, weak) && Has(t, p) && t.info[p].level == l && Fill(t.mem[p]) < t.n
    requires t.info[p].lo <= k < t.info[p].hi
    requires forall x: nat {:trigger (k, x) in Entries(tb, l)} :: (k, x) !in Entries(tb, l)
    ensures CanPlace(t, l, p, k, v)
    ensures l > 1 ==> SHi(tb, s) <= SlotHi(t, p, Pos(t.mem[p], k))
  {
    assert NodeOk(t, p);
    KeyIsNew(tb, t, l, p, k);
    if l > 1 {
      SiblingPos(t, l, p, k, v, s);
    }
    hide Inv, Filled, Below, Entries, Linked, NodeOk;
  }

  /** Storing the pair completes the insertion. */
  lemma PlaceHolds(tb: Tree, t: Tree, l: nat, k: nat, v: nat, s: Ptr, weak: Ptr, p: Ptr)
    requires Searching(tb, t, l, k, v, s, weak) && CanPlace(t, l, p, k, v)
    requires l > 1 ==> SHi(tb, s) <= SlotHi(t, p, Pos(t.mem[p], k))
    requires weak != 0 ==> weak == p
    ensures Pos(t.mem[p], k) < t.n
    ensures var t' := Place(t, p, Pos(t.mem[p], k), k, v);
            && Inv(t', l) && Filled(t', l, 0) && Below(tb, t', l, {}, Born(l, v))
            && l <= t'.height && tb.height <= t'.height
            && Entries(t', l) == Entries(tb, l) + {(k, v)}
            && (l > 1 ==>
                  && v in t'.info && t'.info[v].level + 1 == l && t'.info[v].lo == k
                  && Linked(tb, s) && SHi(tb, s) <= t'.info[v].hi)
  {
    PlaceInv(t, l, p, k, v);
    PlaceEntries(t, l, p, k, v);
    PlaceBelow(t, l, p, k, v);
    assert Has(t, p);
    assert Filled(t, l, p) && (Fill(t.mem[p]) <= 1 ==> p == t.root);
    PlaceFilled(t, l, p, k, v);
    PlaceShape(t, l, p, k, v);
    hide Inv, Filled, Below, Entries, Linked, NodeOk, CanPlace, Place, SHi, Sibling;
    BelowTrans(tb, t, Place(t, p, Pos(t.mem[p], k), k, v), l, {}, Born(l, v));
  }

  /** The tree after `btree_grow` put a new root `r` above the old one. */
  ghost function Grown(t: Tree, r: Ptr): Tree
    requires t.height > 0 ==> Has(t, t.root) && 0 < Fill(t.mem[t.root])
  {
    var nd := EmptyNode(t.n);
    if t.height == 0 || t.n == 0 then
      t.(mem := t.mem[r := nd], info := map[r := Info(1, 0, t.span, 0, 0)], root := r, height := 1)
    else
      t.(mem := t.mem[r := Node(nd.keys[0 := LastKey(t.mem[t.root])], nd.vals[0 := t.root])],
         info := t.info[t.root := t.info[t.root].(up := r, at := 0)][r := Info(t.height + 1, 0, t.span, 0, 0)],
         root := r, height := t.height + 1)
  }

  ghost predicate CanGrow(t: Tree, k: nat, v: nat, s: Ptr, r: Ptr) {
    InsertPre(t, t.height + 1, k, v, s) && r !in t.mem && r != 0
  }

  lemma GrowNode(t: Tree, k: nat, v: nat, s: Ptr, r: Ptr)
    requires CanGrow(t, k, v, s, r)
    ensures Base(t) && (t.height > 0 ==> s == t.root && Has(t, s) && 0 < Fill(t.mem[s]))
    ensures var g := Grown(t, r);
            && Base(g) && NodeOk(g, r) && Fill(g.mem[r]) == (if t.height == 0 then 0 else 1)
            && (t.height > 0 ==> KidOk(g, r, 0) && Linked(g, s))
  {
    var g := Grown(t, r);
    FillIs(g.mem[r], if t.height == 0 then 0 else 1);
  }

  lemma GrowInv(t: Tree, k: nat, v: nat, s: Ptr, r: Ptr)
    requires CanGrow(t, k, v, s, r)
    ensures t.height > 0 ==> Has(t, t.root) && 0 < Fill(t.mem[t.root])
    ensures Inv(Grown(t, r), t.height + 1)
  {
    GrowNode(t, k, v, s, r);
  }

  lemma GrowEntries(t: Tree, k: nat, v: nat, s: Ptr, r: Ptr)
    requires CanGrow(t, k, v, s, r)
    ensures t.height > 0 ==> Has(t, t.root) && 0 < Fill(t.mem[t.root])
    ensures t.height == 0 ==> Entries(Grown(t, r), 1) == {} == Entries(t, 1)
    ensures forall x: nat {:trigger (k, x) in Entries(Grown(t, r), t.height + 1)} ::
      (k, x) !in Entries(Grown(t, r), t.height + 1)
  {
    GrowNode(t, k, v, s, r);
    var g := Grown(t, r);
    assert forall p :: p in g.info && g.info[p].level == t.height + 1 ==> p == r;
    if t.height == 0 {
      assert Entries(g, 1) == {} && Entries(t, 1) == {};
    } else {
      forall x: nat
        ensures (k, x) !in Entries(g, t.height + 1)
      {
      }
    }
  }

  lemma GrowBelow(t: Tree, k: nat, v: nat, s: Ptr, r: Ptr)
    requires CanGrow(t, k, v, s, r)
    ensures t.height > 0 ==> Has(t, t.root) && 0 < Fill(t.mem[t.root])
    ensures Below(t, Grown(t, r), t.height + 1, {}, {})
  {
    hide Fill, NodeOk, KidOk, Base, SHi, Has;
    GrowNode(t, k, v, s, r);
    assert t.info.Keys <= t.mem.Keys;
    hide Linked, Filled, Inv, CanGrow;
  }

  lemma GrowSibling(t: Tree, k: nat, v: nat, s: Ptr, r: Ptr)
    requires CanGrow(t, k, v, s, r) && t.height > 0
    ensures Has(t, t.root) && 0 < Fill(t.mem[t.root])
    ensures Sibling(Grown(t, r), t.height + 1, k, v, s) && Linked(t, s) && SHi(t, s) <= SHi(Grown(t, r), s)
  {
    GrowNode(t, k, v, s, r);
    hide NodesOk, KidsOk, LinksOk, Filled;
  }

  lemma GrowFilled(t: Tree, k: nat, v: nat, s: Ptr, r: Ptr)
    requires CanGrow(t, k, v, s, r)
    ensures t.height > 0 ==> Has(t, t.root) && 0 < Fill(t.mem[t.root])
    ensures Filled(Grown(t, r), t.height + 1, r)
  {
    GrowNode(t, k, v, s, r);
    hide Fill, NodeOk, KidOk, Linked;
  }

  /** Growing prepares an insertion at the new top level. */
  lemma GrowSearching(t: Tree, k: nat, v: nat, s: Ptr, r: Ptr)
    requires CanGrow(t, k, v, s, r)
    ensures t.height > 0 ==> Has(t, t.root) && 0 < Fill(t.mem[t.root])
    ensures var g := Grown(t, r);
            && Searching(g, g, t.height + 1, k, v, s, r)
            && Below(t, g, t.height + 1, {}, {})
            && (t.height > 0 ==> Linked(t, s) && SHi(t, s) <= SHi(g, s))
            && (t.height == 0 ==> Entries(g, 1) == {} == Entries(t, 1))
            && (forall x: nat {:trigger (k, x) in Entries(g, t.height + 1)} :: (k, x) !in Entries(g, t.height + 1))
  {
    GrowNode(t, k, v, s, r);
    GrowInv(t, k, v, s, r);
    GrowEntries(t, k, v, s, r);
    GrowBelow(t, k, v, s, r);
    GrowFilled(t, k, v, s, r);
    if t.height > 0 {
      GrowSibling(t, k, v, s, r);
    }
    BelowSelf(Grown(t, r), t.height + 1);
    assert v != 0 && k < t.span && r != 0;
    hide Inv, Filled, Below, Entries, Linked, SHi, Sibling, Fill, NodeOk, KidOk;
  }

  lemma BelowSelf(t: Tree, l: nat)
    ensures Below(t, t, l, {}, {})
  {
  }
}
