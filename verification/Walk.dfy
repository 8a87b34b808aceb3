/** The whole tree at once: which nodes lie below which, and the entries in the order of a walk. */
module Walk {
  import opened Nodes
  import opened Trees

  /** The ancestor of `q` on level `l`. */
  ghost function Anc(t: Tree, q: Ptr, l: nat): (a: Ptr)
    requires Inv(t, 1) && q in t.info && t.info[q].level <= l <= t.height
    ensures a in t.info && t.info[a].level == l && t.info[a].lo <= t.info[q].lo && t.info[q].hi <= t.info[a].hi
    decreases l - t.info[q].level
  {
    if t.info[q].level == l then q else ParentOf(t, q); Anc(t, t.info[q].up, l)
  }

  lemma ParentOf(t: Tree, q: Ptr)
    requires Inv(t, 1) && q in t.info && t.info[q].level < t.height
    ensures var u := t.info[q].up;
            && Has(t, u) && t.info[u].level == t.info[q].level + 1
            && t.info[q].at < Fill(t.mem[u]) <= t.n && t.mem[u].vals[t.info[q].at] == q
            && t.info[u].lo <= t.mem[u].keys[t.info[q].at] <= t.info[q].lo
            && t.info[q].hi <= SlotHi(t, u, t.info[q].at) <= t.info[u].hi
  {
    assert Linked(t, q) && q != t.root;
    var u, at := t.info[q].up, t.info[q].at;
    assert NodeOk(t, u) && KidOk(t, u, at);
  }

  /** The child in slot `i` of `p`. */
  lemma ChildOf(t: Tree, p: Ptr, i: nat)
    requires Inv(t, 1) && Has(t, p) && t.info[p].level > 1 && i < Fill(t.mem[p])
    ensures Fill(t.mem[p]) <= t.n
    ensures var c := t.mem[p].vals[i];
            && c in t.info && t.info[c].level + 1 == t.info[p].level && t.info[c].up == p && t.info[c].at == i
            && t.mem[p].keys[i] <= t.info[c].lo && t.info[c].hi <= SlotHi(t, p, i)
  {
    assert KidOk(t, p, i) && NodeOk(t, p);
  }

  lemma {:induction false} AncStep(t: Tree, q: Ptr, l: nat)
    requires Inv(t, 1) && q in t.info && t.info[q].level < l <= t.height
    ensures Anc(t, q, l) == t.info[Anc(t, q, l - 1)].up
    decreases l - t.info[q].level
  {
    ParentOf(t, q);
    if t.info[q].level + 1 < l {
      AncStep(t, t.info[q].up, l);
    }
  }

  lemma AncTop(t: Tree, q: Ptr)
    requires Inv(t, 1) && q in t.info
    ensures t.info[q].level <= t.height && Anc(t, q, t.height) == t.root
  {
  }

  /** The nodes of the subtree of `p`. */
  ghost function Under(t: Tree, p: Ptr): set<Ptr>
    requires Inv(t, 1) && p in t.info
  {
    set q | q in t.info && t.info[q].level <= t.info[p].level && Anc(t, q, t.info[p].level) == p
  }

  /** The nodes of the first `i` subtrees below `p`. */
  ghost function UnderTo(t: Tree, p: Ptr, i: nat): set<Ptr>
    requires Inv(t, 1) && Has(t, p) && t.info[p].level > 1 && i <= Fill(t.mem[p])
    decreases i
  {
    if i == 0 then {} else ChildOf(t, p, i - 1); UnderTo(t, p, i - 1) + Under(t, t.mem[p].vals[i - 1])
  }

  lemma {:induction false} UnderToIs(t: Tree, p: Ptr, i: nat, q: Ptr)
    requires Inv(t, 1) && Has(t, p) && t.info[p].level > 1 && i <= Fill(t.mem[p])
    ensures q in UnderTo(t, p, i) <==>
              q in t.info && t.info[q].level < t.info[p].level && Anc(t, q, t.info[p].level) == p &&
                  t.info[Anc(t, q, t.info[p].level - 1)].at < i
    decreases i
  {
    if i > 0 {
      UnderToIs(t, p, i - 1, q);
      ChildOf(t, p, i - 1);
      if q in t.info && t.info[q].level < t.info[p].level {
        AncStep(t, q, t.info[p].level);
        var a := Anc(t, q, t.info[p].level - 1);
        ParentOf(t, a);
      }
    }
  }

  /** Walking below `p`: the subtrees of its slots, one after the other, then `p` itself. */
  lemma UnderParts(t: Tree, p: Ptr)
    requires Inv(t, 1) && Has(t, p) && t.info[p].level > 1
    ensures Under(t, p) == UnderTo(t, p, Fill(t.mem[p])) + {p} && p !in UnderTo(t, p, Fill(t.mem[p]))
  {
    forall q
      ensures q in Under(t, p) <==> q in UnderTo(t, p, Fill(t.mem[p])) + {p}
    {
      UnderToIs(t, p, Fill(t.mem[p]), q);
      if q in t.info && t.info[q].level < t.info[p].level {
        AncStep(t, q, t.info[p].level);
        ParentOf(t, Anc(t, q, t.info[p].level - 1));
      }
    }
    UnderToIs(t, p, Fill(t.mem[p]), p);
  }

  lemma UnderNext(t: Tree, p: Ptr, i: nat)
    requires Inv(t, 1) && Has(t, p) && t.info[p].level > 1 && i < Fill(t.mem[p]) && i < t.n
    ensures t.mem[p].vals[i] in t.info && Under(t, t.mem[p].vals[i]) !! UnderTo(t, p, i)
    ensures Under(t, t.mem[p].vals[i]) <= Under(t, p) && p !in UnderTo(t, p, i)
  {
    ChildOf(t, p, i);
    forall q | q in Under(t, t.mem[p].vals[i])
      ensures q !in UnderTo(t, p, i) && q in Under(t, p)
    {
      UnderToIs(t, p, i, q);
      AncStep(t, q, t.info[p].level);
    }
    UnderToIs(t, p, i, p);
  }

  /** The first `i` pairs of a node. */
  ghost function Pairs(nd: Node, i: nat): (r: seq<(nat, nat)>)
    requires i <= |nd.keys| == |nd.vals|
    ensures |r| == i && forall j :: 0 <= j < i ==> r[j] == (nd.keys[j], nd.vals[j])
  {
    seq(i, j requires 0 <= j < i => (nd.keys[j], nd.vals[j]))
  }

  /** The entries below `p` from left to right. */
  ghost function Flat(t: Tree, p: Ptr): seq<(nat, nat)>
    requires Inv(t, 1) && Has(t, p)
    decreases t.info[p].level, 0, 0
  {
    if t.info[p].level <= 1 then Pairs(t.mem[p], Fill(t.mem[p])) else FlatTo(t, p, Fill(t.mem[p]))
  }

  /** The entries below the first `i` slots of `p`. */
  ghost function FlatTo(t: Tree, p: Ptr, i: nat): seq<(nat, nat)>
    requires Inv(t, 1) && Has(t, p) && t.info[p].level > 1 && i <= Fill(t.mem[p])
    decreases t.info[p].level - 1, 1, i
  {
    if i == 0 then [] else ChildOf(t, p, i - 1); FlatTo(t, p, i - 1) + Flat(t, t.mem[p].vals[i - 1])
  }

  ghost predicate Falling(s: seq<(nat, nat)>) {
    forall i, j :: 0 <= i < j < |s| ==> s[i].0 > s[j].0
  }

  ghost predicate Within(s: seq<(nat, nat)>, lo: nat, hi: nat) {
    forall i :: 0 <= i < |s| ==> lo <= s[i].0 < hi
  }

  /** The walk meets strictly falling keys, all in the range of the node. */
  lemma {:induction false} FlatFalling(t: Tree, p: Ptr)
    requires Inv(t, 1) && Has(t, p)
    ensures Falling(Flat(t, p)) && Within(Flat(t, p), t.info[p].lo, t.info[p].hi)
    decreases t.info[p].level, 0, 0
  {
    assert NodeOk(t, p);
    if t.info[p].level > 1 {
      FlatToFalling(t, p, Fill(t.mem[p]));
    }
  }

  lemma {:induction false} FlatToFalling(t: Tree, p: Ptr, i: nat)
    requires Inv(t, 1) && Has(t, p) && t.info[p].level > 1 && i <= Fill(t.mem[p]) <= t.n
    ensures Falling(FlatTo(t, p, i)) && Within(FlatTo(t, p, i), SlotHi(t, p, i), t.info[p].hi)
    ensures t.info[p].lo <= SlotHi(t, p, i) || i == 0
    decreases t.info[p].level - 1, 1, i
  {
    assert NodeOk(t, p);
    if i > 0 {
      FlatToFalling(t, p, i - 1);
      ChildOf(t, p, i - 1);
      FlatFalling(t, t.mem[p].vals[i - 1]);
    }
  }

  lemma {:induction false} InFlatTo(t: Tree, p: Ptr, i: nat, j: nat, e: (nat, nat))
    requires Inv(t, 1) && Has(t, p) && t.info[p].level > 1 && j < i <= Fill(t.mem[p]) && j < t.n
    requires Has(t, t.mem[p].vals[j]) && e in Flat(t, t.mem[p].vals[j])
    ensures e in FlatTo(t, p, i)
    decreases i
  {
    ChildOf(t, p, i - 1);
    if j < i - 1 {
      InFlatTo(t, p, i - 1, j, e);
    }
  }

  /** Every entry of a leaf below `p` is met. */
  lemma {:induction false} LeafInFlat(t: Tree, q: Ptr, l: nat, e: (nat, nat))
    requires Inv(t, 1) && Has(t, q) && t.info[q].level == 1 <= l <= t.height && e in Ents(t.mem[q])
    ensures Has(t, Anc(t, q, l)) && e in Flat(t, Anc(t, q, l))
    decreases l
  {
    var p := Anc(t, q, l);
    if l == 1 {
      var i :| 0 <= i < t.n && t.mem[q].vals[i] != 0 && e == (t.mem[q].keys[i], t.mem[q].vals[i]);
      assert NodeOk(t, q) && i < Fill(t.mem[q]);
      assert Flat(t, q)[i] == e;
    } else {
      LeafInFlat(t, q, l - 1, e);
      var c := Anc(t, q, l - 1);
      AncStep(t, q, l);
      ParentOf(t, c);
      InFlatTo(t, p, Fill(t.mem[p]), t.info[c].at, e);
    }
  }

  lemma {:induction false} FlatInEntries(t: Tree, p: Ptr, e: (nat, nat))
    requires Inv(t, 1) && Has(t, p) && e in Flat(t, p)
    ensures e in Entries(t, 1)
    decreases t.info[p].level, 0, 0
  {
    if t.info[p].level <= 1 {
      var i :| 0 <= i < Fill(t.mem[p]) && e == (t.mem[p].keys[i], t.mem[p].vals[i]);
      assert e in Ents(t.mem[p]);
      assert Base(t);
    } else {
      FlatToInEntries(t, p, Fill(t.mem[p]), e);
    }
  }

  lemma {:induction false} FlatToInEntries(t: Tree, p: Ptr, i: nat, e: (nat, nat))
    requires Inv(t, 1) && Has(t, p) && t.info[p].level > 1 && i <= Fill(t.mem[p]) && e in FlatTo(t, p, i)
    ensures e in Entries(t, 1)
    decreases t.info[p].level - 1, 1, i
  {
    ChildOf(t, p, i - 1);
    if e in FlatTo(t, p, i - 1) {
      FlatToInEntries(t, p, i - 1, e);
    } else {
      FlatInEntries(t, t.mem[p].vals[i - 1], e);
    }
  }

  /** The walk from the root meets exactly the entries of the tree. */
  lemma FlatIsEntries(t: Tree)
    requires Inv(t, 1) && t.height > 0
    ensures Has(t, t.root) && (set e | e in Flat(t, t.root)) == Entries(t, 1)
  {
    assert Base(t);
    forall e | e in Entries(t, 1)
      ensures e in Flat(t, t.root)
    {
      var q :| q in t.info && Has(t, q) && t.info[q].level == 1 && e in Ents(t.mem[q]);
      AncTop(t, q);
      LeafInFlat(t, q, t.height, e);
    }
    forall e | e in Flat(t, t.root)
      ensures e in Entries(t, 1)
    {
      FlatInEntries(t, t.root, e);
    }
  }

  lemma {:induction false} FallingSize(s: seq<(nat, nat)>)
    requires Falling(s)
    ensures |set e | e in s| == |s|
  {
    if s != [] {
      var l := |s| - 1;
      FallingSize(s[..l]);
      assert s == s[..l] + [s[l]];
      assert (set e | e in s) == (set e | e in s[..l]) + {s[l]};
      assert s[l] !in s[..l];
    }
  }

  ghost function Pow2(h: nat): nat {
    if h == 0 then 1 else 2 * Pow2(h - 1)
  }

  lemma {:induction false} FlatSize(t: Tree, p: Ptr)
    requires Inv(t, 1) && Filled(t, 1, 0) && t.height >= 2 && Has(t, p)
    ensures |Flat(t, p)| >= Pow2(t.info[p].level)
    decreases t.info[p].level, 0, 0
  {
    assert Base(t);
    assert p != 0 && Fill(t.mem[p]) >= 2;
    if t.info[p].level > 1 {
      FlatToSize(t, p, Fill(t.mem[p]));
    } else {
      assert Pow2(1) == 2 * Pow2(0);
    }
  }

  lemma {:induction false} FlatToSize(t: Tree, p: Ptr, i: nat)
    requires Inv(t, 1) && Filled(t, 1, 0) && t.height >= 2 && Has(t, p) && t.info[p].level > 1 && i <= Fill(t.mem[p])
    ensures |FlatTo(t, p, i)| >= i * Pow2(t.info[p].level - 1)
    decreases t.info[p].level - 1, 1, i
  {
    if i > 0 {
      FlatToSize(t, p, i - 1);
      ChildOf(t, p, i - 1);
      assert Base(t);
      FlatSize(t, t.mem[p].vals[i - 1]);
      assert i * Pow2(t.info[p].level - 1) == (i - 1) * Pow2(t.info[p].level - 1) + Pow2(t.info[p].level - 1);
    }
  }

  /** Logarithmic height: a tree of height h >= 2 holds at least 2^h entries. */
  lemma HeightBound(t: Tree, m: map<nat, nat>)
    requires Inv(t, 1) && Filled(t, 1, 0) && Entries(t, 1) == m.Items && t.height >= 2
    ensures |m| >= Pow2(t.height)
  {
    FlatIsEntries(t);
    FlatSize(t, t.root);
    FlatFalling(t, t.root);
    FallingSize(Flat(t, t.root));
    assert |m.Items| == |m|;
    assert Base(t);
  }
}
