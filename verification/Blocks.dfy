/** Reading a file's tree of indirect blocks, and what a half-flushed tree stands for. */
module Blocks {
  import opened Bytes
  import opened Disk
  import opened Segments
  import opened Index

  /** Word `i` of a block of big-endian 64-bit words. */
  function Word(data: seq<byte>, i: nat): nat
    requires 8 * i + 8 <= |data|
  {
    FromBe(data[8 * i..8 * i + 8])
  }

  /** A block of words as bytes. */
  function Payload(ws: seq<nat>): (s: seq<byte>)
    ensures |s| == 8 * |ws|
  {
    if ws == [] then [] else Payload(ws[..|ws| - 1]) + Be(ws[|ws| - 1], 8)
  }

  lemma {:induction false} PayloadReadsBack(ws: seq<nat>, i: nat)
    requires i < |ws| && ws[i] < 0x1_0000_0000
    ensures Word(Payload(ws), i) == ws[i]
  {
    var n := |ws| - 1;
    var s := Payload(ws);
    if i == n {
      Be8(ws[n]);
      assert s[8 * i..8 * i + 8] == Be(ws[n], 8);
    } else {
      PayloadReadsBack(ws[..n], i);
      assert s[8 * i..8 * i + 8] == Payload(ws[..n])[8 * i..8 * i + 8];
    }
  }

  /** Follow block pointers from an object of level `l` down to the data block `b`. */
  ghost function WalkDown(objs: map<nat, Object>, ofs: nat, l: nat, b: nat): nat
    decreases l
  {
    if l == 0 || ofs == 0 then ofs
    else if ofs in objs && |objs[ofs].data| == BLOCKSIZE
        then WalkDown(objs, Word(objs[ofs].data, Digit(b, l - 1)), l - 1, b)
    else 0
  }

  /** The same, from an indirect block of level `l` that is still in memory. */
  ghost function WalkBlock(objs: map<nat, Object>, ws: seq<nat>, l: nat, b: nat): nat
    requires |ws| == FACTOR && 0 < l
  {
    WalkDown(objs, ws[Digit(b, l - 1)], l - 1, b)
  }

  /** The object is block `k` of level `l` of inode `ino`. */
  ghost predicate Named(o: Object, ino: nat, l: nat, k: nat) {
    o.ino == ino && o.level == l && o.bix == k && (l > 0 ==> o.kind == Block)
  }

  /** All pointers below an object lead to objects, each with the level and the index that belong to
      its place in the tree. */
  ghost predicate Rooted(objs: map<nat, Object>, ino: nat, ofs: nat, l: nat, k: nat)
    decreases l
  {
    ofs == 0 ||
    (ofs in objs && Named(objs[ofs], ino, l, k) &&
     (l == 0 ||
      (|objs[ofs].data| == BLOCKSIZE && forall i {:trigger Word(objs[ofs].data, i)} ::
         0 <= i < FACTOR ==> Rooted(objs, ino, Word(objs[ofs].data, i), l - 1, Child(k, l - 1, i)))))
  }

  /** Writing more objects does not change what is read. */
  lemma {:induction false} WalkKept(objs: map<nat, Object>, objs': map<nat, Object>, ino: nat, ofs: nat, l: nat,
      k: nat, b: nat)
    requires Rooted(objs, ino, ofs, l, k) && Kept(objs, objs')
    ensures Rooted(objs', ino, ofs, l, k) && WalkDown(objs', ofs, l, b) == WalkDown(objs, ofs, l, b)
    decreases l
  {
    if ofs != 0 {
      assert ofs in objs';
    }
    if l > 0 && ofs != 0 {
      hide Child, Word;
      forall i | 0 <= i < FACTOR
        ensures Rooted(objs', ino, Word(objs'[ofs].data, i), l - 1, Child(k, l - 1, i))
      {
        WalkKept(objs, objs', ino, Word(objs[ofs].data, i), l - 1, Child(k, l - 1, i), b);
      }
      var i := Digit(b, l - 1);
      WalkKept(objs, objs', ino, Word(objs[ofs].data, i), l - 1, Child(k, l - 1, i), b);
    }
  }

  /** Only the digits below level `l` matter. */
  lemma {:induction false} WalkDigits(objs: map<nat, Object>, ofs: nat, l: nat, b: nat, c: nat)
    requires forall i :: 0 <= i < l ==> Digit(b, i) == Digit(c, i)
    ensures WalkDown(objs, ofs, l, b) == WalkDown(objs, ofs, l, c)
    decreases l
  {
    if l > 0 && ofs != 0 && ofs in objs && |objs[ofs].data| == BLOCKSIZE {
      WalkDigits(objs, Word(objs[ofs].data, Digit(b, l - 1)), l - 1, b, c);
    }
  }

  type Tree = map<nat, seq<nat>>

  /** The block `b` belongs to on level `l`, read through memory. */
  ghost function Reach(objs: map<nat, Object>, tree: Tree, l: nat, b: nat): nat
    requires 0 < l
  {
    var k := Canon(b, l);
    if k in tree && |tree[k]| == FACTOR then WalkBlock(objs, tree[k], l, b) else 0
  }

  /** An in-memory indirect block of level `l`. */
  ghost predicate BlockOk(objs: map<nat, Object>, ino: nat, ws: seq<nat>, l: nat, k: nat)
    requires 0 < l
  {
    |ws| == FACTOR && forall i {:trigger ws[i]} :: 0 <= i < FACTOR ==>
        ws[i] < 0x1_0000_0000 && Rooted(objs, ino, ws[i], l - 1, Child(k, l - 1, i))
  }

  /** The indirect blocks of level `l` stand above blocks that were written. */
  ghost predicate TreeOk(objs: map<nat, Object>, ino: nat, tree: Tree, l: nat, ind: map<nat, nat>)
    requires 0 < l
  {
    forall k {:trigger k in tree} :: k in tree ==>
        BlockOk(objs, ino, tree[k], l, k) && exists b :: b in ind && Canon(b, l) == k
  }

  /** The offset of the last write of block `b`, 0 if there was none. */
  function Last(ind: map<nat, nat>, b: nat): nat {
    if b in ind then ind[b] else 0
  }

  /** Level `l` is being moved up to level `l + 1`: every block is found below exactly one of them. */
  ghost predicate Split(objs: map<nat, Object>, ino: nat, low: Tree, high: Tree, l: nat, ind: map<nat, nat>)
    requires 0 < l
  {
    && TreeOk(objs, ino, low, l, ind) && TreeOk(objs, ino, high, l + 1, ind)
    && (forall b: nat {:trigger Last(ind, b)} ::
        (if Canon(b, l) in low then Reach(objs, low, l, b) else Reach(objs, high, l + 1, b)) == Last(ind, b))
    && (forall b: nat {:trigger Canon(b, l)} :: Canon(b, l) in low && Canon(b, l + 1) in high ==>
          |high[Canon(b, l + 1)]| == FACTOR && high[Canon(b, l + 1)][Digit(b, l)] == 0)
  }

  function ZeroBlock(): (ws: seq<nat>)
    ensures |ws| == FACTOR && forall i :: 0 <= i < FACTOR ==> ws[i] == 0
  {
    seq(FACTOR, _ => 0)
  }

  /** `find_or_create_block`, and the pointer that is stored there. */
  function Enter(tree: Tree, k: nat, i: nat, ofs: nat): Tree
    requires i < FACTOR && (k in tree ==> |tree[k]| == FACTOR)
  {
    tree[k := (if k in tree then tree[k] else ZeroBlock())[i := ofs]]
  }

  lemma BlockKept(objs: map<nat, Object>, objs': map<nat, Object>, ino: nat, ws: seq<nat>, l: nat, k: nat, b: nat)
    requires 0 < l && BlockOk(objs, ino, ws, l, k) && Kept(objs, objs')
    ensures BlockOk(objs', ino, ws, l, k) && WalkBlock(objs', ws, l, b) == WalkBlock(objs, ws, l, b)
  {
    forall i | 0 <= i < FACTOR
      ensures Rooted(objs', ino, ws[i], l - 1, Child(k, l - 1, i))
    {
      WalkKept(objs, objs', ino, ws[i], l - 1, Child(k, l - 1, i), b);
    }
    var i := Digit(b, l - 1);
    WalkKept(objs, objs', ino, ws[i], l - 1, Child(k, l - 1, i), b);
  }

  /** A stored pointer is what is read behind it, and nothing else changes. */
  lemma EnterReach(objs: map<nat, Object>, objs': map<nat, Object>, ino: nat, tree: Tree, l: nat, ind: map<nat, nat>,
      k: nat,
      i: nat, ofs: nat, b: nat)
    requires TreeOk(objs, ino, tree, l + 1, ind) && Kept(objs, objs') && i < FACTOR && k == Canon(k, l + 1)
    ensures k in tree ==> |tree[k]| == FACTOR
    ensures Reach(objs', Enter(tree, k, i, ofs), l + 1, b) ==
            if Canon(b, l + 1) == k && Digit(b, l) == i then WalkDown(objs', ofs, l, b) else Reach(objs, tree, l + 1, b)
  {
    var kb := Canon(b, l + 1);
    if kb in tree {
      BlockKept(objs, objs', ino, tree[kb], l + 1, kb, b);
    }
  }

  lemma EnterOk(objs: map<nat, Object>, objs': map<nat, Object>, ino: nat, tree: Tree, l: nat, ind: map<nat, nat>,
      ind': map<nat, nat>, k: nat, i: nat, ofs: nat, b: nat)
    requires TreeOk(objs, ino, tree, l + 1, ind) && Kept(objs, objs') && i < FACTOR &&
      (forall x :: x in ind ==> x in ind')
    requires ofs < 0x1_0000_0000 && Rooted(objs', ino, ofs, l, Child(k, l, i)) && b in ind' && Canon(b, l + 1) == k
    ensures (k in tree ==> |tree[k]| == FACTOR) && TreeOk(objs', ino, Enter(tree, k, i, ofs), l + 1, ind')
  {
    var tree' := Enter(tree, k, i, ofs);
    forall x | x in tree'
      ensures BlockOk(objs', ino, tree'[x], l + 1, x) && exists c :: c in ind' && Canon(c, l + 1) == x
    {
      if x in tree {
        BlockKept(objs, objs', ino, tree[x], l + 1, x, 0);
      }
      if x != k {
        var c :| c in ind && Canon(c, l + 1) == x;
        assert c in ind';
      }
    }
  }

  lemma TreeKept(objs: map<nat, Object>, objs': map<nat, Object>, ino: nat, tree: Tree, l: nat, ind: map<nat, nat>)
    requires 0 < l && TreeOk(objs, ino, tree, l, ind) && Kept(objs, objs')
    ensures TreeOk(objs', ino, tree, l, ind) && forall b: nat :: Reach(objs', tree, l, b) == Reach(objs, tree, l, b)
  {
    forall k | k in tree
      ensures BlockOk(objs', ino, tree[k], l, k)
    {
      BlockKept(objs, objs', ino, tree[k], l, k, 0);
    }
    forall b: nat
      ensures Reach(objs', tree, l, b) == Reach(objs, tree, l, b)
    {
      if Canon(b, l) in tree {
        BlockKept(objs, objs', ino, tree[Canon(b, l)], l, Canon(b, l), b);
      }
    }
  }

  /** Before any flush: all indirect blocks are of level 1 and point to the last writes. */
  ghost predicate Stored(objs: map<nat, Object>, ino: nat, tree: Tree, ind: map<nat, nat>) {
    TreeOk(objs, ino, tree, 1, ind) && forall b: nat {:trigger Last(ind, b)} :: Reach(objs, tree, 1, b) == Last(ind, b)
  }

  /** Writing data block `b` at offset `ofs`. */
  lemma StoredMore(objs: map<nat, Object>, objs': map<nat, Object>, ino: nat, tree: Tree, ind: map<nat, nat>, b: nat,
      ofs: nat)
    requires Stored(objs, ino, tree, ind) && Kept(objs, objs') && ofs < 0x1_0000_0000
    requires ofs in objs' && Named(objs'[ofs], ino, 0, b)
    ensures Canon(b, 1) in tree ==> |tree[Canon(b, 1)]| == FACTOR
    ensures Stored(objs', ino, Enter(tree, Canon(b, 1), Digit(b, 0), ofs), ind[b := ofs])
  {
    var k, i, ind' := Canon(b, 1), Digit(b, 0), ind[b := ofs];
    CanonFacts(b, 1);
    ChildOfCanon(b, 0);
    assert Canon(b, 0) == b;
    EnterOk(objs, objs', ino, tree, 0, ind, ind', k, i, ofs, b);
    forall c: nat
      ensures Reach(objs', Enter(tree, k, i, ofs), 1, c) == Last(ind', c)
    {
      EnterReach(objs, objs', ino, tree, 0, ind, k, i, ofs, c);
      CanonInjective(b, c, 0);
      assert Canon(b, 0) == b && Canon(c, 0) == c;
      assert Reach(objs, tree, 1, c) == Last(ind, c);
    }
  }

  /** What the object holding an indirect block reads like. */
  lemma BlockWritten(objs: map<nat, Object>, objs': map<nat, Object>, ino: nat, ws: seq<nat>, l: nat, k: nat,
      ofs: nat, o: Object, b: nat)
    requires 0 < l && BlockOk(objs, ino, ws, l, k) && Added(objs, objs', o, ofs) && o.data == Payload(ws) &&
      Named(o, ino, l, k)
    ensures Rooted(objs', ino, ofs, l, k) && WalkDown(objs', ofs, l, b) == WalkBlock(objs, ws, l, b)
  {
    forall i | 0 <= i < FACTOR
      ensures Word(o.data, i) == ws[i] && Rooted(objs', ino, ws[i], l - 1, Child(k, l - 1, i))
    {
      PayloadReadsBack(ws, i);
      WalkKept(objs, objs', ino, ws[i], l - 1, Child(k, l - 1, i), b);
    }
    var i := Digit(b, l - 1);
    WalkKept(objs, objs', ino, ws[i], l - 1, Child(k, l - 1, i), b);
  }

  lemma StepReach(objs: map<nat, Object>, objs': map<nat, Object>, ino: nat, low: Tree, high: Tree, l: nat,
      ind: map<nat, nat>,
      k: nat, ofs: nat, o: Object, b: nat)
    requires 0 < l && Split(objs, ino, low, high, l, ind) && k in low && Canon(k, l) == k &&
      Added(objs, objs', o, ofs) &&
      o.data == Payload(low[k]) && Named(o, ino, l, k)
    ensures Canon(k, l + 1) in high ==> |high[Canon(k, l + 1)]| == FACTOR
    ensures var low', high' := low - {k}, Enter(high, Canon(k, l + 1), Digit(k, l), ofs);
            (if Canon(b, l) in low' then Reach(objs', low', l, b) else Reach(objs', high', l + 1, b)) == Last(ind, b)
  {
    assert (if Canon(b, l) in low then Reach(objs, low, l, b) else Reach(objs, high, l + 1, b)) == Last(ind, b);
    assert TreeOk(objs, ino, low, l, ind) && TreeOk(objs, ino, high, l + 1, ind) && BlockOk(objs, ino, low[k], l, k);
    hide Split, Canon, Digit, Payload, WalkBlock;
    TreeKept(objs, objs', ino, low, l, ind);
    CanonFacts(k, l + 1);
    CanonInjective(b, k, l);
    EnterReach(objs, objs', ino, high, l, ind, Canon(k, l + 1), Digit(k, l), ofs, b);
    BlockWritten(objs, objs', ino, low[k], l, k, ofs, o, b);
    hide TreeOk, BlockOk, Enter;
  }

  /** One turn of the inner loop of `logfs_file_flush`: block `k` of level `l` is written and its
      offset entered one level up; every data block is still found. */
  lemma SplitStep(objs: map<nat, Object>, objs': map<nat, Object>, ino: nat, low: Tree, high: Tree, l: nat,
      ind: map<nat, nat>,
      k: nat, ofs: nat, o: Object)
    requires 0 < l && Split(objs, ino, low, high, l, ind) && k in low && Added(objs, objs', o, ofs) &&
      o.data == Payload(low[k]) && Named(o, ino, l, k)
    ensures Canon(k, l + 1) in high ==> |high[Canon(k, l + 1)]| == FACTOR
    ensures Split(objs', ino, low - {k}, Enter(high, Canon(k, l + 1), Digit(k, l), ofs), l, ind)
  {
    hide Canon, Digit, Reach, BlockOk, Child;
    var b0 :| b0 in ind && Canon(b0, l) == k;
    CanonFacts(b0, l);
    CanonFacts(k, l + 1);
    var p, i := Canon(k, l + 1), Digit(k, l);
    var low', high' := low - {k}, Enter(high, p, i, ofs);
    assert BlockOk(objs, ino, low[k], l, k);
    BlockWritten(objs, objs', ino, low[k], l, k, ofs, o, 0);
    ChildOfCanon(k, l);
    EnterOk(objs, objs', ino, high, l, ind, ind, p, i, ofs, b0);
    TreeKept(objs, objs', ino, low, l, ind);
    assert TreeOk(objs', ino, low', l, ind);
    forall b: nat
      ensures (if Canon(b, l) in low' then Reach(objs', low', l, b) else Reach(objs', high', l + 1, b)) == Last(ind, b)
    {
      StepReach(objs, objs', ino, low, high, l, ind, k, ofs, o, b);
    }
    forall b: nat | Canon(b, l) in low' && Canon(b, l + 1) in high'
      ensures |high'[Canon(b, l + 1)]| == FACTOR && high'[Canon(b, l + 1)][Digit(b, l)] == 0
    {
      CanonInjective(b, k, l);
      assert Canon(b, l) in low;
    }
  }

  /** When a level has been drained, everything is found below the next one. */
  lemma SplitDone(objs: map<nat, Object>, ino: nat, high: Tree, l: nat, ind: map<nat, nat>)
    requires 0 < l && Split(objs, ino, map[], high, l, ind)
    ensures Split(objs, ino, high, map[], l + 1, ind)
  {
    forall b: nat
      ensures (if Canon(b, l + 1) in high then Reach(objs, high, l + 1, b) else 0) == Last(ind, b)
    {
      assert Reach(objs, high, l + 1, b) == Last(ind, b);
    }
  }

  lemma SplitStart(objs: map<nat, Object>, ino: nat, tree: Tree, ind: map<nat, nat>)
    requires Stored(objs, ino, tree, ind)
    ensures Split(objs, ino, tree, map[], 1, ind)
  {
  }

  ghost predicate IsTop(ind: map<nat, nat>, m: nat) {
    m in ind && forall b :: b in ind ==> b <= m
  }

  /** The last indirect block, written from the highest key: what a walk from it reads for any index
      is the last write of the index that has the same low digits and the top of the largest one. */
  lemma TopWritten(objs: map<nat, Object>, objs': map<nat, Object>, ino: nat, tree: Tree, h: nat, ind: map<nat, nat>,
      m: nat,
      ofs: nat, o: Object, b: nat)
    requires 0 < h && Split(objs, ino, tree, map[], h, ind) && IsTop(ind, m) && Canon(m, h) in tree
    requires Added(objs, objs', o, ofs) && o.data == Payload(tree[Canon(m, h)]) && Named(o, ino, h, Canon(m, h))
    ensures WalkDown(objs', ofs, h, b) == Last(ind, Rebase(b, Quot(m, h), h))
  {
    var k := Canon(m, h);
    var c := Rebase(b, Quot(m, h), h);
    RebaseFacts(b, Quot(m, h), h);
    CanonInjective(c, m, h);
    BlockWritten(objs, objs', ino, tree[k], h, k, ofs, o, c);
    WalkDigits(objs', ofs, h, b, c);
    assert (if Canon(c, h) in tree then Reach(objs, tree, h, c) else 0) == Last(ind, c);
  }

  /** The tree of the top level is not empty, its largest key is the one above the largest block. */
  lemma TopKey(objs: map<nat, Object>, ino: nat, tree: Tree, h: nat, ind: map<nat, nat>, m: nat)
    requires 0 < h && Split(objs, ino, tree, map[], h, ind) && IsTop(ind, m) && ind[m] != 0
    ensures Canon(m, h) in tree && forall k :: k in tree ==> k <= Canon(m, h)
    ensures m < Pow(FACTOR, h) ==> tree.Keys == {Canon(m, h)} && Canon(m, h) == Pow(FACTOR, h) - 1
  {
    assert (if Canon(m, h) in tree then Reach(objs, tree, h, m) else 0) == Last(ind, m);
    forall k | k in tree
      ensures k <= Canon(m, h) && (m < Pow(FACTOR, h) ==> k == Canon(m, h) == Pow(FACTOR, h) - 1)
    {
      var b :| b in ind && Canon(b, h) == k;
      QuotMono(b, m, h);
      QuotSmall(b, h);
      QuotSmall(m, h);
    }
    QuotSmall(m, h);
  }

  lemma {:induction false} QuotSmall(b: nat, h: nat)
    ensures b < Pow(FACTOR, h) ==> Quot(b, h) == 0 && Canon(b, h) == Pow(FACTOR, h) - 1
    ensures b == Pow(FACTOR, h) ==> Quot(b, h) == 1
  {
    if h > 0 {
      QuotSmall(b / FACTOR, h - 1);
    }
  }
}
