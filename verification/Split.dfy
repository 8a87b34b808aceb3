/** The proof of `split`: a full node hands its left half to a new sibling, which is linked into
    the parent while still empty. */
module SplitProof {
  import opened Nodes
  import opened Trees
  import opened Find
  import opened Resplit

  ghost function Half(n: nat): nat { n / 2 }

  ghost function SplitKey(t: Tree, p: Ptr): nat
    requires Has(t, p) && 4 <= t.n
  {
    t.mem[p].keys[Half(t.n) - 1]
  }

  ghost function LastKey(nd: Node): nat
    requires |nd.keys| == |nd.vals| && 0 < Fill(nd)
  {
    nd.keys[Fill(nd) - 1]
  }

  ghost predicate Full(t: Tree, l: nat, p: Ptr) {
    && 0 < l && Inv(t, l) && Filled(t, l, 0) && Has(t, p) && t.info[p].level == l && Fill(t.mem[p]) == t.n
  }

  /** The new sibling is allocated, and the interval recorded for `p` shrinks to its right half. */
  ghost function Opened(t: Tree, p: Ptr, sib: Ptr): Tree
    requires Has(t, p) && Fill(t.mem[p]) == t.n && 4 <= t.n
  {
    t.(mem := t.mem[sib := EmptyNode(t.n)],
       info := t.info[p := t.info[p].(hi := SplitKey(t, p), lo := if p == t.root then LastKey(t.mem[p])
           else t.info[p].lo)])
  }

  /** What inserting at level `l` needs: an absent key and, above the leaves, the node `s` whose
      slot the key falls into, already restricted to the keys below it. */
  ghost predicate InsertPre(t: Tree, l: nat, k: nat, v: nat, s: Ptr) {
    && Inv(t, l) && Filled(t, l, 0) && 1 <= l <= t.height + 1 && v != 0 && k < t.span
    && (forall x: nat {:trigger (k, x) in Entries(t, l)} :: (k, x) !in Entries(t, l))
    && (l > 1 ==> Sibling(t, l, k, v, s))
    && (l > 1 && l == t.height + 1 ==>
          Has(t, s) && Packed(t.n, t.mem[s]) && 0 < Fill(t.mem[s])
          && LastKey(t.mem[s]) <= t.info[s].lo && LastKey(t.mem[s]) < k)
  }

  ghost predicate Sibling(t: Tree, l: nat, k: nat, v: nat, s: Ptr) {
    && v in t.mem && v !in t.info
    && s in t.info && t.info[s].level + 1 == l && Linked(t, s)
    && SLo(t, s) <= k < SHi(t, s) && t.info[s].hi <= k
  }

  ghost function Born(l: nat, v: Ptr): set<Ptr> {
    if l > 1 then {v} else {}
  }

  ghost predicate InsertPost(t: Tree, t': Tree, l: nat, k: nat, v: nat, s: Ptr) {
    && Inv(t', l) && Filled(t', l, 0) && Below(t, t', l, {}, Born(l, v))
    && l <= t'.height && t.height <= t'.height
    && (l <= t.height || l == 1 ==> Entries(t', l) == Entries(t, l) + {(k, v)})
    && (l > 1 ==>
          && v in t'.info && t'.info[v].level + 1 == l && t'.info[v].lo == k
          && Linked(t, s) && SHi(t, s) <= t'.info[v].hi)
  }

  /** The facts about full node `p` the rest of the proof uses. */
  lemma FullFacts(t: Tree, l: nat, p: Ptr)
    requires Full(t, l, p)
    ensures Base(t) && NodeOk(t, p) && Linked(t, p) && 2 <= Half(t.n) && 2 * Half(t.n) <= t.n
    ensures 0 < Fill(t.mem[p]) && LastKey(t.mem[p]) < SplitKey(t, p)
    ensures SLo(t, p) <= t.info[p].lo <= LastKey(t.mem[p]) && SplitKey(t, p) < t.info[p].hi <= SHi(t, p) <= t.span
  {
    assert NodeOk(t, p) && Linked(t, p);
    if p != t.root {
      assert KidOk(t, t.info[p].up, t.info[p].at) && NodeOk(t, t.info[p].up);
    }
  }

  lemma OpenedBase(t: Tree, l: nat, p: Ptr, sib: Ptr)
    requires Full(t, l, p) && sib !in t.mem && sib != 0
    ensures Base(t) && 4 <= t.n && Base(Opened(t, p, sib)) && sib !in t.info && t.info[p].level == l
    ensures forall q :: q in t.info ==> Opened(t, p, sib).info[q].level == t.info[q].level
    ensures forall q :: Has(t, q) <==> Has(Opened(t, p, sib), q)
    ensures forall q :: q in t.mem ==> q in Opened(t, p, sib).mem && Opened(t, p, sib).mem[q] == t.mem[q]
  {
    FullFacts(t, l, p);
    hide Inv, Fill, NodeOk, Linked;
  }

  lemma OpenedNodes(t: Tree, l: nat, p: Ptr, sib: Ptr)
    requires Full(t, l, p) && sib !in t.mem && sib != 0
    ensures Base(t) && NodesOk(Opened(t, p, sib), l + 1) && Filled(Opened(t, p, sib), l + 1, 0)
  {
    hide Linked, Fill, KidOk;
    OpenedBase(t, l, p, sib);
    var t' := Opened(t, p, sib);
    forall q | q in t'.info && t'.info[q].level >= l + 1
      ensures NodeOk(t', q)
    {
      assert NodeOk(t, q);
    }
    forall q | Has(t', q) && t'.info[q].level >= l + 1 && q != 0
      ensures Fill(t'.mem[q]) >= (if q == t'.root && t'.height == 1 then 1 else 2)
    {
      assert Has(t, q);
    }
  }

  lemma OpenedLinks(t: Tree, l: nat, p: Ptr, sib: Ptr)
    requires Full(t, l, p) && sib !in t.mem && sib != 0
    ensures Base(t) && LinksOk(Opened(t, p, sib), l + 1)
  {
    hide Fill, NodeOk, KidOk;
    OpenedBase(t, l, p, sib);
    var t' := Opened(t, p, sib);
    forall c | c in t'.info && t'.info[c].level + 1 >= l + 1
      ensures Linked(t', c)
    {
      assert Linked(t, c);
    }
  }

  lemma OpenedKids(t: Tree, l: nat, p: Ptr, sib: Ptr)
    requires Full(t, l, p) && sib !in t.mem && sib != 0
    ensures Base(t) && KidsOk(Opened(t, p, sib), l + 1)
  {
    FullFacts(t, l, p);
    hide Fill, NodeOk, Linked;
    OpenedBase(t, l, p, sib);
    var t' := Opened(t, p, sib);
    forall q, i | Has(t', q) && t'.info[q].level >= l + 1 && t'.info[q].level > 1 && 0 <= i < Fill(t'.mem[q])
      ensures KidOk(t', q, i)
    {
      assert Has(t, q) && KidOk(t, q, i);
    }
  }

  lemma OpenedInv(t: Tree, l: nat, p: Ptr, sib: Ptr)
    requires Full(t, l, p) && sib !in t.mem && sib != 0
    ensures Base(t) && Inv(Opened(t, p, sib), l + 1) && Filled(Opened(t, p, sib), l + 1, 0)
  {
    hide Full, NodesOk, KidsOk, LinksOk, Filled, Base;
    OpenedBase(t, l, p, sib);
    OpenedNodes(t, l, p, sib);
    OpenedKids(t, l, p, sib);
    OpenedLinks(t, l, p, sib);
  }

  /** No separator one level up equals the split key. */
  lemma SplitKeyIsNew(t: Tree, l: nat, p: Ptr, sib: Ptr, x: nat)
    requires Full(t, l, p) && sib !in t.mem && sib != 0
    ensures Base(t) && (SplitKey(t, p), x) !in Entries(Opened(t, p, sib), l + 1)
  {
    hide Fill, Linked, Base;
    FullFacts(t, l, p);
    var t', k := Opened(t, p, sib), SplitKey(t, p);
    if (k, x) in Entries(t', l + 1) {
      var q :| q in t'.info && Has(t', q) && t'.info[q].level == l + 1 && (k, x) in Ents(t'.mem[q]);
      assert Has(t, q) && t.mem[q] == t'.mem[q] && NodeOk(t, q);
      var i :| 0 <= i < t.n && t.mem[q].vals[i] != 0 && (k, x) == (t.mem[q].keys[i], t.mem[q].vals[i]);
      var up, at := t.info[p].up, t.info[p].at;
      assert NodeOk(t, up) && KidOk(t, up, at);
      SameNode(t, l, q, up, k);
      assert false;
    }
  }

  lemma OpenedPre(t: Tree, l: nat, p: Ptr, sib: Ptr)
    requires Full(t, l, p) && sib !in t.mem && sib != 0
    ensures Base(t) && InsertPre(Opened(t, p, sib), l + 1, SplitKey(t, p), sib, p)
  {
    FullFacts(t, l, p);
    OpenedInv(t, l, p, sib);
    var t', k := Opened(t, p, sib), SplitKey(t, p);
    assert l <= t.height;
    assert Linked(t', p) && Has(t', p) && t'.mem[p] == t.mem[p];
    hide Inv, Filled;
    forall x: nat
      ensures (k, x) !in Entries(t', l + 1)
    {
      SplitKeyIsNew(t, l, p, sib, x);
    }
  }

  /** The state after the new sibling has been linked into the parent, as seen from level `l`. */
  ghost predicate LinkedIn(t: Tree, u: Tree, l: nat, p: Ptr, sib: Ptr) {
    && Full(t, l, p) && Base(t) && sib !in t.info && sib != 0
    && u.n == t.n && u.span == t.span
    && Inv(u, l + 1) && Filled(u, l + 1, 0) && t.height <= u.height && l + 1 <= u.height
    && (forall q {:trigger q in u.info} {:trigger u.info[q]} :: q in t.info && t.info[q].level <= l ==>
          && q in u.info && q in u.mem && u.mem[q] == t.mem[q] && u.info[q].level == t.info[q].level
          && (q != p ==> u.info[q].lo == t.info[q].lo && u.info[q].hi == t.info[q].hi)
          && (t.info[q].level < l ==> u.info[q] == t.info[q]))
    && (forall q {:trigger q in t.info} {:trigger t.info[q]} :: q in u.info && u.info[q].level <= l && q != sib ==>
          q in t.info && t.info[q].level == u.info[q].level)
    && (forall q {:trigger q in u.mem} {:trigger u.mem[q]} :: q in t.mem && q !in t.info ==>
        q in u.mem && u.mem[q] == t.mem[q])
    && u.mem.Keys - u.info.Keys == t.mem.Keys - t.info.Keys
    && u.info[p].hi == SplitKey(t, p)
    && u.info[p].lo == (if p == t.root then LastKey(t.mem[p]) else t.info[p].lo)
    && sib in u.info && sib in u.mem && u.mem[sib] == EmptyNode(t.n)
    && u.info[sib].level == l && u.info[sib].lo == SplitKey(t, p) && t.info[p].hi <= u.info[sib].hi <= u.span
  }

  lemma OpenedShape(t: Tree, l: nat, p: Ptr, sib: Ptr)
    requires Full(t, l, p) && sib !in t.mem && sib != 0
    ensures Base(t)
    ensures var o := Opened(t, p, sib);
            && o.n == t.n && o.span == t.span && o.height == t.height && o.root == t.root
            && o.info.Keys == t.info.Keys && o.mem.Keys == t.mem.Keys + {sib} && o.mem[sib] == EmptyNode(t.n)
            && (forall q {:trigger o.info[q]} :: q in t.info && q != p ==> o.info[q] == t.info[q])
            && (forall q {:trigger o.mem[q]} :: q in t.mem ==> o.mem[q] == t.mem[q])
            && o.info[p] == t.info[p].(hi := SplitKey(t, p), lo := if p == t.root then LastKey(t.mem[p])
                else t.info[p].lo)
            && p in o.info && Linked(o, p) && SHi(o, p) == SHi(t, p)
  {
    FullFacts(t, l, p);
  }

  lemma HiInSpan(t: Tree, l: nat, c: Ptr)
    requires Inv(t, l + 1) && c in t.info && t.info[c].level == l < t.height
    ensures t.info[c].hi <= t.span
  {
    assert Linked(t, c);
    assert KidOk(t, t.info[c].up, t.info[c].at) && NodeOk(t, t.info[c].up);
  }

  lemma LinkedInHolds(t: Tree, u: Tree, l: nat, p: Ptr, sib: Ptr)
    requires Full(t, l, p) && sib !in t.mem && sib != 0
    requires Base(t) && InsertPost(Opened(t, p, sib), u, l + 1, SplitKey(t, p), sib, p)
    ensures LinkedIn(t, u, l, p, sib)
  {
    hide Entries, Linked, Fill;
    FullFacts(t, l, p);
    OpenedShape(t, l, p, sib);
    HiInSpan(u, l, sib);
    assert Base(u);
    hide Inv, Filled, Opened, SHi, SLo;
  }

  lemma EmptyPair(n: nat, e: Node, nd: Node)
    requires 4 <= n && Packed(n, nd) && Descending(nd) && Fill(nd) == n && e == EmptyNode(n)
    ensures Fill(e) == 0 && PairOk(n, e, nd, n / 2)
    ensures forall g {:trigger PairKey(e, nd, g)} :: 0 <= g < n ==> PairKey(e, nd, g) == nd.keys[g]
    ensures forall g {:trigger PairVal(e, nd, g)} :: 0 <= g < n ==> PairVal(e, nd, g) == nd.vals[g]
  {
    FillIs(e, 0);
  }

  lemma LinkedInPair(t: Tree, u: Tree, l: nat, p: Ptr, sib: Ptr)
    requires LinkedIn(t, u, l, p, sib)
    ensures Has(u, p) && Has(u, sib) && p != sib && Fill(u.mem[sib]) == 0 && u.mem[p] == t.mem[p]
    ensures PairOk(u.n, u.mem[sib], u.mem[p], Half(u.n))
    ensures forall g {:trigger PairKey(u.mem[sib], u.mem[p], g)} :: 0 <= g < u.n ==>
      PairKey(u.mem[sib], u.mem[p], g) == t.mem[p].keys[g]
    ensures forall g {:trigger PairVal(u.mem[sib], u.mem[p], g)} :: 0 <= g < u.n ==>
      PairVal(u.mem[sib], u.mem[p], g) == t.mem[p].vals[g]
  {
    FullFacts(t, l, p);
    hide Inv, Filled, Base, PairOk, PairKey, PairVal;
    EmptyPair(t.n, u.mem[sib], t.mem[p]);
  }

  lemma LinkedInRanges(t: Tree, u: Tree, l: nat, p: Ptr, sib: Ptr)
    requires LinkedIn(t, u, l, p, sib)
    ensures Has(u, p) && Has(u, sib) && Fill(u.mem[sib]) + Fill(u.mem[p]) == u.n
    ensures forall g :: 0 <= g < Half(u.n) ==> u.info[sib].lo <= PairKey(u.mem[sib], u.mem[p], g) < u.info[sib].hi
    ensures forall g :: Half(u.n) <= g < u.n ==> u.info[p].lo <= PairKey(u.mem[sib], u.mem[p], g) < u.info[p].hi
    ensures PairKey(u.mem[sib], u.mem[p], Half(u.n) - 1) <= u.info[p].hi
  {
    FullFacts(t, l, p);
    LinkedInPair(t, u, l, p, sib);
    hide Inv, Filled, Base, PairKey, PairOk;
  }

  lemma LinkedInKid(t: Tree, u: Tree, l: nat, p: Ptr, sib: Ptr, g: nat)
    requires LinkedIn(t, u, l, p, sib) && l > 1 && g < u.n
    ensures PairKid(u, l, sib, p, g)
  {
    LinkedInPair(t, u, l, p, sib);
    assert KidOk(t, p, g);
    hide Inv, Filled, PairOk;
  }

  lemma LinkedInLower(t: Tree, u: Tree, l: nat, p: Ptr, sib: Ptr)
    requires LinkedIn(t, u, l, p, sib)
    ensures forall q {:trigger NodeOk(u, q)} :: q in u.info && u.info[q].level == l && q != sib && q != p ==>
      NodeOk(u, q)
    ensures l > 1 ==> forall q, i {:trigger KidOk(u, q, i)} ::
              Has(u, q) && u.info[q].level == l && q != sib && q != p && 0 <= i < Fill(u.mem[q]) ==> KidOk(u, q, i)
    ensures forall c {:trigger Linked(u, c)} :: c in u.info && u.info[c].level + 1 == l ==> Linked(u, c)
  {
    forall q | q in u.info && u.info[q].level == l && q != sib && q != p
      ensures NodeOk(u, q)
    {
      assert q in t.info && NodeOk(t, q);
    }
    forall q, i | l > 1 && Has(u, q) && u.info[q].level == l && q != sib && q != p && 0 <= i < Fill(u.mem[q])
      ensures KidOk(u, q, i)
    {
      assert q in t.info && Has(t, q) && KidOk(t, q, i);
    }
    forall c | c in u.info && u.info[c].level + 1 == l
      ensures Linked(u, c)
    {
      assert c in t.info && Linked(t, c) && t.info[t.info[c].up].level == l;
    }
  }

  lemma LinkedInKids(t: Tree, u: Tree, l: nat, p: Ptr, sib: Ptr)
    requires LinkedIn(t, u, l, p, sib) && l > 1
    ensures forall g {:trigger PairKid(u, l, sib, p, g)} :: 0 <= g < u.n ==> PairKid(u, l, sib, p, g)
  {
    hide LinkedIn, PairKid;
    forall g | 0 <= g < u.n
      ensures PairKid(u, l, sib, p, g)
    {
      LinkedInKid(t, u, l, p, sib, g);
    }
  }

  /** Linking the empty sibling in leaves everything ready for moving the left half. */
  lemma SplitReady(t: Tree, u: Tree, l: nat, p: Ptr, sib: Ptr)
    requires LinkedIn(t, u, l, p, sib)
    ensures Ready(u, l, sib, p, Half(u.n))
  {
    LinkedInPair(t, u, l, p, sib);
    LinkedInRanges(t, u, l, p, sib);
    LinkedInLower(t, u, l, p, sib);
    FullFacts(t, l, p);
    hide NodeOk, KidOk, Linked, PairKey, PairVal, PairOk, PairKid, Inv, Filled;
    if l > 1 {
      LinkedInKids(t, u, l, p, sib);
    }
  }

  lemma SplitSameLevel(t: Tree, u: Tree, l: nat, p: Ptr, sib: Ptr)
    requires LinkedIn(t, u, l, p, sib)
    ensures SameLevel(t, u, l, sib, p)
  {
    LinkedInPair(t, u, l, p, sib);
    FullFacts(t, l, p);
    hide NodeOk, KidOk, Linked, PairKey, PairVal, PairOk, Inv, Filled;
    assert forall q :: Has(t, q) && t.info[q].level == l ==> q in u.info;
  }

  /** A node routed for `k` has room, or every node of the level has. */
  ghost predicate RoomFor(t: Tree, l: nat, k: nat) {
    || (exists r :: Has(t, r) && t.info[r].level == l && t.info[r].lo <= k < t.info[r].hi && Fill(t.mem[r]) < t.n)
    || (forall r {:trigger Has(t, r)} :: Has(t, r) && t.info[r].level == l ==> Fill(t.mem[r]) < t.n)
  }

  ghost predicate SplitPost(t: Tree, t': Tree, l: nat, k: nat) {
    && Inv(t', l) && Filled(t', l, 0) && Below(t, t', l, {}, {}) && SlotsKept(t, t', l)
    && Entries(t', l) == Entries(t, l) && t.height <= t'.height && RoomFor(t', l, k)
  }

  ghost function SplitDone(u: Tree, l: nat, p: Ptr, sib: Ptr): Tree
    requires Has(u, p) && Has(u, sib) && PairOk(u.n, u.mem[sib], u.mem[p], Half(u.n))
  {
    Moved(u, l, sib, p, Half(u.n))
  }

  lemma SplitBelow(t: Tree, u: Tree, l: nat, p: Ptr, sib: Ptr)
    requires LinkedIn(t, u, l, p, sib) && Ready(u, l, sib, p, Half(u.n))
    ensures Below(t, SplitDone(u, l, p, sib), l, {}, {})
  {
    hide Inv, Filled;
    var t' := SplitDone(u, l, p, sib);
    MovedShape(u, l, sib, p, Half(u.n));
    OnlyPairBelow(u, t', l, sib, p, Half(u.n));
    hide SplitDone, Ready, Linked, OnlyPair;
    assert Below(t, u, l, {}, {});
    BelowTrans(t, u, t', l, {}, {});
  }

  lemma SplitEntries(t: Tree, u: Tree, l: nat, p: Ptr, sib: Ptr)
    requires LinkedIn(t, u, l, p, sib) && Ready(u, l, sib, p, Half(u.n))
    ensures Entries(SplitDone(u, l, p, sib), l) == Entries(t, l)
  {
    MovedEntries(u, l, sib, p, Half(u.n));
    LinkedInPair(t, u, l, p, sib);
    UnionOne(u, sib);
    assert Ents(u.mem[sib]) == {};
    assert Rearranged(t, u, l, {}, {sib}) by {
      hide Inv, Filled, Ready, Entries, Union;
    }
    hide LinkedIn, Ready, Rearranged, Entries;
    RearrangedEntries(t, u, l, {}, {sib}, {});
  }

  lemma SplitHalves(t: Tree, u: Tree, l: nat, p: Ptr, sib: Ptr)
    requires LinkedIn(t, u, l, p, sib) && Ready(u, l, sib, p, Half(u.n))
    ensures var t' := SplitDone(u, l, p, sib);
            && Has(t', p) && Fill(t'.mem[p]) == u.n - Half(u.n) && Has(t', sib) && Fill(t'.mem[sib]) == Half(u.n)
            && t'.info[p].lo == u.info[p].lo && t'.info[p].hi == u.info[p].hi
            && t'.info[sib].lo == u.info[sib].lo && t'.info[sib].hi == u.info[sib].hi
            && t'.info[p].level == l && t'.info[sib].level == l
  {
    LinkedInPair(t, u, l, p, sib);
    MovedShape(u, l, sib, p, Half(u.n));
    MovedPair(u, l, sib, p, Half(u.n));
    hide SplitDone, Ready, Inv, Linked, Packed, Descending, PairKey, PairVal, PairOk, Filled;
  }

  lemma SplitFills(t: Tree, u: Tree, l: nat, p: Ptr, sib: Ptr)
    requires LinkedIn(t, u, l, p, sib) && Ready(u, l, sib, p, Half(u.n))
    ensures Filled(SplitDone(u, l, p, sib), l, 0)
  {
    var t' := SplitDone(u, l, p, sib);
    SplitHalves(t, u, l, p, sib);
    MovedShape(u, l, sib, p, Half(u.n));
    assert Base(t);
    FullFacts(t, l, p);
    hide SplitDone, Ready, Inv, Linked, MovedInfo, SLo, SHi, SplitKey, LastKey, NodeOk;
    forall q | Has(t', q) && t'.info[q].level >= l && q != 0
      ensures Fill(t'.mem[q]) >= 2
    {
      SplitFill1(t, u, l, p, sib, q);
    }
  }

  lemma SplitFill1(t: Tree, u: Tree, l: nat, p: Ptr, sib: Ptr, q: Ptr)
    requires LinkedIn(t, u, l, p, sib) && Ready(u, l, sib, p, Half(u.n))
    requires Has(SplitDone(u, l, p, sib), q) && SplitDone(u, l, p, sib).info[q].level >= l
    ensures Fill(SplitDone(u, l, p, sib).mem[q]) >= 2
  {
    hide Ready, Inv;
    SplitHalves(t, u, l, p, sib);
    MovedShape(u, l, sib, p, Half(u.n));
    hide SplitDone, Linked;
    if q != p && q != sib {
      assert Has(u, q);
      if u.info[q].level == l {
        assert Has(t, q);
      }
    }
  }

  /** Splitting the root leaves only its two halves on the level. */
  lemma SplitRootRoom(t: Tree, u: Tree, l: nat, p: Ptr, sib: Ptr, r: Ptr)
    requires LinkedIn(t, u, l, p, sib) && Ready(u, l, sib, p, Half(u.n)) && p == t.root
    requires Has(SplitDone(u, l, p, sib), r) && SplitDone(u, l, p, sib).info[r].level == l
    ensures r == p || r == sib
  {
    hide Ready, Inv, Linked, Filled, Fill;
    MovedShape(u, l, sib, p, Half(u.n));
    hide SplitDone;
    assert r in u.info && u.info[r].level == l;
  }

  lemma SplitRoom(t: Tree, u: Tree, l: nat, p: Ptr, sib: Ptr, k: nat)
    requires LinkedIn(t, u, l, p, sib) && Ready(u, l, sib, p, Half(u.n)) && t.info[p].lo <= k < t.info[p].hi
    ensures RoomFor(SplitDone(u, l, p, sib), l, k)
  {
    var t' := SplitDone(u, l, p, sib);
    SplitHalves(t, u, l, p, sib);
    FullFacts(t, l, p);
    assert t'.n == u.n;
    hide SplitDone, Ready, Inv, Linked, Filled, Base;
    if k >= SplitKey(t, p) {
      assert t'.info[sib].lo <= k < t'.info[sib].hi;
    } else if p != t.root {
      assert t'.info[p].lo <= k < t'.info[p].hi;
    } else {
      hide LinkedIn;
      forall r | Has(t', r) && t'.info[r].level == l
        ensures Fill(t'.mem[r]) < t'.n
      {
        SplitRootRoom(t, u, l, p, sib, r);
      }
    }
  }

  lemma SplitHolds(t: Tree, u: Tree, l: nat, p: Ptr, sib: Ptr, k: nat)
    requires LinkedIn(t, u, l, p, sib) && t.info[p].lo <= k < t.info[p].hi
    ensures Ready(u, l, sib, p, Half(u.n)) && SplitPost(t, SplitDone(u, l, p, sib), l, k)
  {
    SplitReady(t, u, l, p, sib);
    SplitSameLevel(t, u, l, p, sib);
    SplitBelow(t, u, l, p, sib);
    SplitEntries(t, u, l, p, sib);
    SplitFills(t, u, l, p, sib);
    SplitRoom(t, u, l, p, sib, k);
    MovedInv(u, l, sib, p, Half(u.n));
    assert Base(t) && Base(u) && l < u.height;
    MovedShape(u, l, sib, p, Half(u.n));
    hide Ready, SameLevel, Inv, Filled, Below, SlotsKept, RoomFor, Moved, Entries, Linked;
    MovedSlots(t, u, l, sib, p, Half(u.n));
  }

  /** Undoing an opened split: the sibling is freed and `p` gets its old interval back. */
  ghost function Closed(t: Tree, u: Tree, p: Ptr, sib: Ptr): Tree
    requires p in t.info && p in u.info
  {
    u.(mem := u.mem - {sib}, info := u.info[p := u.info[p].(lo := t.info[p].lo, hi := t.info[p].hi)])
  }

  ghost predicate Failed(t: Tree, u: Tree, l: nat, p: Ptr, sib: Ptr) {
    && Full(t, l, p) && Base(t) && sib !in t.mem && sib != 0
    && Inv(u, l + 1) && Lowered(Opened(t, p, sib), u, l + 1)
  }

  lemma FailedBase(t: Tree, u: Tree, l: nat, p: Ptr, sib: Ptr)
    requires Failed(t, u, l, p, sib)
    ensures p in u.info && sib !in u.info && Base(Closed(t, u, p, sib))
  {
    hide Opened, Linked, Full, SHi, NodesOk, KidsOk, LinksOk, Filled;
    OpenedShape(t, l, p, sib);
    assert sib !in t.info && Base(u);
  }

  lemma FailedShape(t: Tree, u: Tree, l: nat, p: Ptr, sib: Ptr)
    requires Failed(t, u, l, p, sib)
    ensures p in u.info
    ensures forall q {:trigger u.mem[q]} :: q in t.info && t.info[q].level <= l + 1 ==>
      q in u.mem && u.mem[q] == t.mem[q]
    ensures forall q {:trigger u.info[q]} :: q in t.info && t.info[q].level <= l && q != p ==> u.info[q] == t.info[q]
  {
    OpenedShape(t, l, p, sib);
    assert sib !in t.info && t.info.Keys <= t.mem.Keys;
    hide Opened, Linked, Inv, Full, SHi, Base;
  }

  lemma FailedLowered(t: Tree, u: Tree, l: nat, p: Ptr, sib: Ptr)
    requires Failed(t, u, l, p, sib)
    ensures p in u.info && Lowered(t, Closed(t, u, p, sib), l)
  {
    hide Linked, SHi, Base;
    OpenedShape(t, l, p, sib);
    assert sib !in t.info && Base(u) && Base(t);
    hide Opened, Inv, Full;
  }

  lemma FailedNode(t: Tree, u: Tree, l: nat, p: Ptr, sib: Ptr, q: Ptr)
    requires Failed(t, u, l, p, sib) && q in u.info && u.info[q].level >= l
    ensures p in u.info && NodeOk(Closed(t, u, p, sib), q)
  {
    FailedShape(t, u, l, p, sib);
    if u.info[q].level > l {
      assert NodeOk(u, q);
    } else {
      assert NodeOk(t, q);
    }
    hide Inv, Full, Opened, Lowered;
  }

  lemma FailedUpKid(t: Tree, u: Tree, l: nat, p: Ptr, sib: Ptr, q: Ptr, i: nat)
    requires Failed(t, u, l, p, sib) && Has(u, q) && u.info[q].level > l + 1 && i < Fill(u.mem[q])
    ensures p in u.info && KidOk(Closed(t, u, p, sib), q, i)
  {
    hide Full, Linked, Filled, Lowered, Fill;
    FailedShape(t, u, l, p, sib);
    FailedLevel(t, u, l, p, sib);
    assert KidOk(u, q, i) && Base(u);
    hide Inv, Failed, Base;
  }

  lemma FailedLevel(t: Tree, u: Tree, l: nat, p: Ptr, sib: Ptr)
    requires Failed(t, u, l, p, sib)
    ensures p in u.info && p in t.info && t.info[p].level == l == u.info[p].level && sib !in t.info && sib !in u.info
    ensures forall q :: q in t.info ==> q in u.info && u.info[q].level == t.info[q].level
  {
    hide Linked, SHi, Base, Fill, NodeOk, KidOk;
    OpenedShape(t, l, p, sib);
    assert Base(u) && Base(t);
    hide Opened, Inv;
  }

  lemma FailedLowKid(t: Tree, u: Tree, l: nat, p: Ptr, sib: Ptr, q: Ptr, i: nat)
    requires Failed(t, u, l, p, sib) && Has(u, q) && Has(t, q) && l <= t.info[q].level <= l + 1 && t.info[q].level > 1
    requires i < Fill(u.mem[q])
    ensures p in u.info && KidOk(Closed(t, u, p, sib), q, i)
  {
    hide Linked, Filled, Fill;
    FailedShape(t, u, l, p, sib);
    FailedLowered(t, u, l, p, sib);
    FailedLevel(t, u, l, p, sib);
    assert KidOk(t, q, i);
    hide Inv, Full, Failed, Base;
  }

  lemma FailedKid(t: Tree, u: Tree, l: nat, p: Ptr, sib: Ptr, q: Ptr, i: nat)
    requires Failed(t, u, l, p, sib) && Has(u, q) && Has(t, q) && u.info[q].level >= l && u.info[q].level > 1
    requires i < Fill(u.mem[q])
    ensures p in u.info && KidOk(Closed(t, u, p, sib), q, i)
  {
    hide Failed, KidOk, Fill;
    FailedLevel(t, u, l, p, sib);
    if t.info[q].level > l + 1 {
      FailedUpKid(t, u, l, p, sib, q, i);
    } else {
      FailedLowKid(t, u, l, p, sib, q, i);
    }
  }

  lemma FailedNodes(t: Tree, u: Tree, l: nat, p: Ptr, sib: Ptr)
    requires Failed(t, u, l, p, sib)
    ensures p in u.info && NodesOk(Closed(t, u, p, sib), l)
  {
    FailedShape(t, u, l, p, sib);
    hide Failed, NodeOk;
    forall q | q in Closed(t, u, p, sib).info && Closed(t, u, p, sib).info[q].level >= l
      ensures NodeOk(Closed(t, u, p, sib), q)
    {
      FailedNode(t, u, l, p, sib, q);
    }
  }

  /** A split that finds no memory further up leaves level `l` as it was. */
  lemma FailedLinks(t: Tree, u: Tree, l: nat, p: Ptr, sib: Ptr)
    requires Failed(t, u, l, p, sib)
    ensures p in u.info && LinksOk(Closed(t, u, p, sib), l)
  {
    hide Filled;
    hide NodeOk, KidOk, SHi, Fill;
    FailedLevel(t, u, l, p, sib);
    FailedLowered(t, u, l, p, sib);
    var t' := Closed(t, u, p, sib);
    assert Base(t) && Base(u) && LinksOk(t, l);
    assert forall q :: Has(t, q) ==> Has(t', q) && t'.mem[q].vals == t.mem[q].vals;
    hide Failed, Full, Base;
    forall c | c in t'.info && t'.info[c].level + 1 >= l
      ensures Linked(t', c)
    {
      assert Linked(t, c);
    }
  }

  lemma FailedKids(t: Tree, u: Tree, l: nat, p: Ptr, sib: Ptr)
    requires Failed(t, u, l, p, sib)
    ensures p in u.info && KidsOk(Closed(t, u, p, sib), l)
  {
    hide NodeOk, KidOk, Linked, Full, Fill;
    FailedLevel(t, u, l, p, sib);
    FailedLowered(t, u, l, p, sib);
    var t' := Closed(t, u, p, sib);
    assert forall q :: Has(t', q) ==>
        Has(t, q) && Has(u, q) && t'.mem[q] == u.mem[q] && t'.info[q].level == u.info[q].level;
    hide Failed, Lowered;
    forall q, i | Has(t', q) && t'.info[q].level >= l && t'.info[q].level > 1 && 0 <= i < Fill(t'.mem[q])
      ensures KidOk(t', q, i)
    {
      FailedKid(t, u, l, p, sib, q, i);
    }
  }

  /** A failed split leaves the tree well formed. */
  lemma FailedInv(t: Tree, u: Tree, l: nat, p: Ptr, sib: Ptr)
    requires Failed(t, u, l, p, sib)
    ensures p in u.info && Inv(Closed(t, u, p, sib), l) && Lowered(t, Closed(t, u, p, sib), l)
  {
    hide Failed, NodesOk, KidsOk, LinksOk, Base, Lowered;
    FailedBase(t, u, l, p, sib);
    FailedLowered(t, u, l, p, sib);
    FailedNodes(t, u, l, p, sib);
    FailedKids(t, u, l, p, sib);
    FailedLinks(t, u, l, p, sib);
  }
}
