/** Keys as arrays of machine words: `longcmp`, `longcpy`, `longset`, the three geometries, and the
    layout of a node. The trees are proved over keys that are plain numbers; `Value`
    takes the words of a key to such a number and keeps the order. */
module Longs {
  import opened Bytes

  /** The number whose base-`w` digits are the words of `s`, most significant first. */
  function Value(s: seq<nat>, w: nat): nat {
    if s == [] then 0 else Value(s[..|s| - 1], w) * w + s[|s| - 1]
  }

  ghost predicate WordsOk(s: seq<nat>, w: nat) {
    forall i :: 0 <= i < |s| ==> s[i] < w
  }

  lemma Horner(v: nat, w: nat, p: nat, d: nat)
    requires v < p && d < w
    ensures v * w + d < w * p
  {
    MulStep(w, v, p);
  }

  lemma HornerLess(x: nat, y: nat, w: nat, d: nat, e: nat)
    requires x < y && d < w
    ensures x * w + d < y * w + e
  {
    MulStep(w, x, y);
  }

  /** A key of `n` words is a number below w^n. */
  lemma {:induction false} ValueRange(s: seq<nat>, w: nat)
    requires WordsOk(s, w)
    ensures Value(s, w) < Pow(w, |s|)
  {
    if s != [] {
      var n := |s| - 1;
      ValueRange(s[..n], w);
      Horner(Value(s[..n], w), w, Pow(w, n), s[n]);
      assert Value(s, w) == Value(s[..n], w) * w + s[n];
      assert Pow(w, n + 1) == w * Pow(w, n);
      hide Value, Pow;
    }
  }

  /** The first differing word decides. */
  lemma {:induction false} FirstDifference(a: seq<nat>, b: seq<nat>, w: nat, i: nat)
    requires |a| == |b| && WordsOk(a, w) && WordsOk(b, w) && i < |a| && a[..i] == b[..i] && a[i] < b[i]
    ensures Value(a, w) < Value(b, w)
    decreases |a|
  {
    var n := |a| - 1;
    var x, y := a[..n], b[..n];
    assert Value(a, w) == Value(x, w) * w + a[n] && Value(b, w) == Value(y, w) * w + b[n];
    hide Value;
    if i == n {
      assert x == y;
    } else {
      assert x[..i] == a[..i] && y[..i] == b[..i];
      FirstDifference(x, y, w, i);
      HornerLess(Value(x, w), Value(y, w), w, a[n], b[n]);
    }
  }

  /** Different keys are different numbers. */
  lemma {:induction false} ValueInjective(a: seq<nat>, b: seq<nat>, w: nat)
    requires |a| == |b| && WordsOk(a, w) && WordsOk(b, w) && Value(a, w) == Value(b, w)
    ensures a == b
  {
    if a != b {
      var i := FirstDiff(a, b, 0);
      if a[i] < b[i] {
        FirstDifference(a, b, w, i);
      } else {
        FirstDifference(b, a, w, i);
      }
    }
  }

  ghost function FirstDiff(a: seq<nat>, b: seq<nat>, k: nat): (i: nat)
    requires |a| == |b| && k <= |a| && a[..k] == b[..k] && exists i :: k <= i < |a| && a[i] != b[i]
    ensures i < |a| && a[i] != b[i] && a[..i] == b[..i]
    decreases |a| - k
  {
    if a[k] != b[k] then k
    else
      assert a[..k + 1] == a[..k] + [a[k]] && b[..k + 1] == b[..k] + [b[k]];
      FirstDiff(a, b, k + 1)
  }

  /** `longcmp`: the order of the keys as numbers. */
  method LongCmp(l1: array<nat>, at1: nat, l2: array<nat>, at2: nat, n: nat, ghost w: nat) returns (c: int)
    requires at1 + n <= l1.Length && at2 + n <= l2.Length
    requires WordsOk(l1[at1..at1 + n], w) && WordsOk(l2[at2..at2 + n], w)
    ensures var x, y := Value(l1[at1..at1 + n], w), Value(l2[at2..at2 + n], w);
            c == if x < y then -1 else if x > y then 1 else 0
  {
    ghost var a, b := l1[at1..at1 + n], l2[at2..at2 + n];
    var i := 0;
    while i < n
      invariant i <= n && a[..i] == b[..i]
    {
      assert l1[at1 + i] == a[i] && l2[at2 + i] == b[i];
      if l1[at1 + i] < l2[at2 + i] {
        FirstDifference(a, b, w, i);
        return -1;
      }
      if l1[at1 + i] > l2[at2 + i] {
        FirstDifference(b, a, w, i);
        return 1;
      }
      assert a[..i + 1] == a[..i] + [a[i]] && b[..i + 1] == b[..i] + [b[i]];
      i := i + 1;
    }
    assert a == a[..n] && b == b[..n];
    return 0;
  }

  /** `longcpy`. */
  method LongCpy(dest: array<nat>, at: nat, src: array<nat>, from: nat, n: nat)
    requires at + n <= dest.Length && from + n <= src.Length
    requires dest == src ==> at + n <= from || from + n <= at || at <= from
    modifies dest
    ensures dest[..] == old(dest[..])[..at] + old(src[from..from + n]) + old(dest[..])[at + n..]
  {
    ghost var d, s := dest[..], src[from..from + n];
    var i := 0;
    while i < n
      invariant i <= n
      invariant dest[..] == d[..at] + s[..i] + d[at + i..]
      invariant forall j :: i <= j < n ==> src[from + j] == s[j]
    {
      dest[at + i] := src[from + i];
      assert dest[..] == (d[..at] + s[..i] + d[at + i..])[at + i := s[i]];
      i := i + 1;
    }
    assert s[..n] == s;
  }

  /** `longset`. */
  method LongSet(s: array<nat>, at: nat, c: nat, n: nat)
    requires at + n <= s.Length
    modifies s
    ensures s[..] == old(s[..])[..at] + seq(n, _ => c) + old(s[..])[at + n..]
  {
    ghost var d := s[..];
    var i := 0;
    while i < n
      invariant i <= n && s[..] == d[..at] + seq(i, _ => c) + d[at + i..]
    {
      s[at + i] := c;
      assert s[..] == (d[..at] + seq(i, _ => c) + d[at + i..])[at + i := c];
      i := i + 1;
    }
  }

  // Geometry

  /** NODESIZE for a given cache line size. */
  function NodeSize(l1Bytes: nat): nat {
    if l1Bytes > 128 then l1Bytes else 128
  }

  /** `no_pairs` of a geometry: words per node over words per pair. */
  function NoPairs(nodeSize: nat, wordBytes: nat, keylen: nat): nat
    requires wordBytes > 0
  {
    nodeSize / wordBytes / (1 + keylen)
  }

  /** keylen of the geometries for 32-bit, 64-bit and 128-bit keys. */
  function KeyLen(keyBits: nat, wordBits: nat): nat
    requires wordBits == 32 || wordBits == 64
  {
    if keyBits == 32 then 1 else if keyBits == 64 then 64 / wordBits else 2 * (64 / wordBits)
  }

  /** All geometries, on both word sizes and for any cache line: at least 5 pairs, more than the 4 the
      trees need, and keys and values do not overlap or leave the node. */
  lemma Geometries(keyBits: nat, wordBits: nat, l1Bytes: nat)
    requires keyBits == 32 || keyBits == 64 || keyBits == 128
    requires wordBits == 32 || wordBits == 64
    ensures var k, n := KeyLen(keyBits, wordBits), NoPairs(NodeSize(l1Bytes), wordBits / 8, KeyLen(keyBits, wordBits));
            && 5 <= n && (n * k + n) * (wordBits / 8) <= NodeSize(l1Bytes)
            && forall i, j :: 0 <= i < n && 0 <= j < n ==>
                 BKey(k, i) + k <= BVal(k, n, j) < n * k + n && (i < j ==> BKey(k, i) + k <= BKey(k, j))
  {
    var k := KeyLen(keyBits, wordBits);
    var words := NodeSize(l1Bytes) / (wordBits / 8);
    var n := words / (1 + k);
    assert words >= 128 / (wordBits / 8);
    assert k == 1 || k == 2 || k == 4;
    assert n * k + n == n * (1 + k) <= words;
    forall i, j | 0 <= i < n && 0 <= j < n
      ensures BKey(k, i) + k <= BVal(k, n, j) < n * k + n && (i < j ==> BKey(k, i) + k <= BKey(k, j))
    {
      MulStep(k, i, n);
      if i < j {
        MulStep(k, i, j);
      }
    }
  }

  /** Word index of key `i` and of value `i` of a node. */
  function BKey(keylen: nat, i: nat): nat {
    i * keylen
  }

  function BVal(keylen: nat, noPairs: nat, i: nat): nat {
    noPairs * keylen + i
  }
}
