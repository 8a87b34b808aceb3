/** Taking one slot out of a node, and what that does to its level. */
module CutProof {
  import opened Nodes
  import opened Trees
  import opened Find
  import opened SplitProof

  /** The tree after slot `i` of node `p` on level `l` is removed; above the leaves the child of that
      slot leaves the tree. */
  ghost function Cut(t: Tree, l: nat, p: Ptr, i: nat): Tree
    requires Has(t, p) && i < t.n
  {
    var v := t.mem[p].vals[i];
    t.(mem := t.mem[p := RemoveAt(t.mem[p], i)],
       info := if l <= 1 then t.info
               else map c | c in t.info && c != v :: CutInfo(t.info[c], l, p, i))
  }

  ghost function CutInfo(d: Info, l: nat, p: Ptr, i: nat): Info {
    if d.level + 1 == l && d.up == p && d.at > i then d.(at := d.at - 1) else d
  }

  ghost predicate CanCut(t: Tree, l: nat, p: Ptr, i: nat) {
    && 0 < l && Inv(t, l) && Filled(t, l, 0) && Has(t, p) && t.info[p].level == l
    && i < Fill(t.mem[p]) && (l > 1 ==> i + 1 < Fill(t.mem[p]))
  }

  lemma CutShape(t: Tree, l: nat, p: Ptr, i: nat)
    requires CanCut(t, l, p, i)
    ensures i < t.n && Fill(t.mem[p]) <= t.n
    ensures var t', v := Cut(t, l, p, i), t.mem[p].vals[i];
            && t'.n == t.n && t'.span == t.span && t'.root == t.root && t'.height == t.height
            && t'.mem == t.mem[p := RemoveAt(t.mem[p], i)]
            && Packed(t.n, t'.mem[p]) && Descending(t'.mem[p]) && Fill(t'.mem[p]) == Fill(t.mem[p]) - 1
            && t'.info.Keys == t.info.Keys - Born(l, v)
            && (forall q {:trigger t'.info[q]} :: q in t'.info ==>
                t'.info[q] == (if l <= 1 then t.info[q] else CutInfo(t.info[q], l, p, i)))
            && (l > 1 ==> v in t.info && v != p && v != t.root && t.info[v].level + 1 == l)
            && Base(t')
  {
    assert NodeOk(t, p);
    assert l > 1 ==> KidOk(t, p, i);
    RemoveAtFacts(t.n, t.mem[p], i);
    hide NodesOk, KidsOk, LinksOk, Filled, KidOk, NodeOk, Linked, Remove1;
  }

  lemma CutNode(t: Tree, l: nat, p: Ptr, i: nat, q: Ptr)
    requires CanCut(t, l, p, i) && q in t.info && t.info[q].level >= l
    ensures i < t.n && NodeOk(Cut(t, l, p, i), q)
  {
    CutShape(t, l, p, i);
    assert NodeOk(t, q);
    hide Cut, Inv, Filled, Linked, KidOk;
  }

  lemma CutKid(t: Tree, l: nat, p: Ptr, i: nat, q: Ptr, j: nat)
    requires CanCut(t, l, p, i) && i < t.n && Has(Cut(t, l, p, i), q) && q in t.info && t.info[q].level >= l &&
      t.info[q].level > 1
    requires j < Fill(Cut(t, l, p, i).mem[q])
    ensures KidOk(Cut(t, l, p, i), q, j)
  {
    hide Base;
    CutShape(t, l, p, i);
    assert l > 1 ==> KidOk(t, p, i);
    assert Has(t, q);
    if q == p {
      assert KidOk(t, p, if j < i then j else j + 1);
      assert NodeOk(t, p);
      hide Cut, Inv, Filled, Linked, Remove1, Packed;
    } else {
      assert KidOk(t, q, j);
      hide Cut, Inv, Filled, Linked, Remove1, Packed;
    }
  }

  lemma CutLink(t: Tree, l: nat, p: Ptr, i: nat, c: Ptr)
    requires CanCut(t, l, p, i) && i < t.n && c in Cut(t, l, p, i).info && c in t.info && t.info[c].level + 1 >= l
    ensures Linked(Cut(t, l, p, i), c)
  {
    hide Filled;
    hide Cut, NodeOk, Remove1;
    CutShape(t, l, p, i);
    assert Linked(t, c);
    hide Inv, KidOk;
  }

  lemma CutNodes(t: Tree, l: nat, p: Ptr, i: nat)
    requires CanCut(t, l, p, i)
    ensures i < t.n && NodesOk(Cut(t, l, p, i), l)
  {
    CutShape(t, l, p, i);
    var t' := Cut(t, l, p, i);
    hide NodeOk, Cut, CanCut, Base;
    forall q | q in t'.info && t'.info[q].level >= l
      ensures NodeOk(t', q)
    {
      assert q in t.info;
      CutNode(t, l, p, i, q);
    }
  }

  lemma CutKids(t: Tree, l: nat, p: Ptr, i: nat)
    requires CanCut(t, l, p, i)
    ensures i < t.n && KidsOk(Cut(t, l, p, i), l)
  {
    CutShape(t, l, p, i);
    var t' := Cut(t, l, p, i);
    hide KidOk, Cut, CanCut, Base;
    forall q, j | Has(t', q) && t'.info[q].level >= l && t'.info[q].level > 1 && 0 <= j < Fill(t'.mem[q])
      ensures KidOk(t', q, j)
    {
      assert q in t.info;
      CutKid(t, l, p, i, q, j);
    }
  }

  /** Removing a slot keeps the invariant; only the fill limit of `p` may suffer. */
  lemma CutInv(t: Tree, l: nat, p: Ptr, i: nat)
    requires CanCut(t, l, p, i)
    ensures i < t.n && Inv(Cut(t, l, p, i), l)
  {
    CutShape(t, l, p, i);
    CutNodes(t, l, p, i);
    CutKids(t, l, p, i);
    var t' := Cut(t, l, p, i);
    hide NodesOk, KidsOk, Linked, Cut, CanCut, Base;
    forall c | c in t'.info && t'.info[c].level + 1 >= l
      ensures Linked(t', c)
    {
      assert c in t.info;
      CutLink(t, l, p, i, c);
    }
  }

  lemma CutFilled(t: Tree, l: nat, p: Ptr, i: nat)
    requires CanCut(t, l, p, i)
    ensures i < t.n && Filled(Cut(t, l, p, i), l, p)
  {
    CutShape(t, l, p, i);
    var t' := Cut(t, l, p, i);
    hide Cut, Inv;
    forall q | Has(t', q) && t'.info[q].level >= l && q != p
      ensures Fill(t'.mem[q]) >= (if q == t'.root && t'.height == 1 then 1 else 2)
    {
      assert Has(t, q) && q != 0 by {
        assert Base(t');
      }
    }
  }

  lemma CutBelow(t: Tree, l: nat, p: Ptr, i: nat)
    requires CanCut(t, l, p, i)
    ensures i < t.n && Below(t, Cut(t, l, p, i), l, Born(l, t.mem[p].vals[i]), {})
  {
    hide Cut, Filled, Remove1;
    CutShape(t, l, p, i);
    assert t.info.Keys <= t.mem.Keys;
    hide Inv, Packed, Descending;
  }

  /** The pair of the removed slot, and no other, is gone from the level. */
  lemma CutEntries(t: Tree, l: nat, p: Ptr, i: nat)
    requires CanCut(t, l, p, i)
    ensures i < t.n && Entries(Cut(t, l, p, i), l) == Entries(t, l) - {(t.mem[p].keys[i], t.mem[p].vals[i])}
  {
    hide Fill, Packed, KidOk, Filled, Base;
    CutShape(t, l, p, i);
    var t', e := Cut(t, l, p, i), (t.mem[p].keys[i], t.mem[p].vals[i]);
    assert NodeOk(t, p);
    RemoveAtEnts(t.n, t.mem[p], i);
    forall x | x in Entries(t, l) && x != e
      ensures x in Entries(t', l)
    {
      var q :| q in t.info && Has(t, q) && t.info[q].level == l && x in Ents(t.mem[q]);
      assert q in t'.info && Has(t', q) && x in Ents(t'.mem[q]);
    }
    forall x | x in Entries(t', l)
      ensures x in Entries(t, l) && x != e
    {
      var q :| q in t'.info && Has(t', q) && t'.info[q].level == l && x in Ents(t'.mem[q]);
      assert q in t.info && Has(t, q) && x in Ents(t.mem[q]);
      if q != p && x == e {
        EntInRange(t, l, q, x);
        SameNode(t, l, p, q, x.0);
        assert false;
      }
    }
  }

  lemma EntInRange(t: Tree, l: nat, q: Ptr, x: (nat, nat))
    requires Inv(t, l) && q in t.info && t.info[q].level >= l && Has(t, q) && x in Ents(t.mem[q])
    ensures t.info[q].lo <= x.0 < t.info[q].hi
  {
    assert NodeOk(t, q);
    var i :| 0 <= i < t.n && t.mem[q].vals[i] != 0 && x == (t.mem[q].keys[i], t.mem[q].vals[i]);
    assert i < Fill(t.mem[q]);
  }

  /** Above the leaves the next child inherits the range of the removed one. */
  lemma CutSlots(t: Tree, l: nat, p: Ptr, i: nat)
    requires CanCut(t, l, p, i) && l > 1
    ensures i + 1 < t.n
    ensures var t', v, s := Cut(t, l, p, i), t.mem[p].vals[i], t.mem[p].vals[i + 1];
            && s in t'.info && Linked(t', s) && Linked(t, v) && t'.info[s].level + 1 == l
            && SHi(t', s) == SHi(t, v) == SlotHi(t, p, i)
  {
    CutShape(t, l, p, i);
    assert KidOk(t, p, i) && KidOk(t, p, i + 1);
    var v, s := t.mem[p].vals[i], t.mem[p].vals[i + 1];
    assert Linked(t, v) && Linked(t, s);
    CutLink(t, l, p, i, s);
    hide Cut, Inv, Filled;
  }
}
