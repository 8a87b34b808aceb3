/** The loops that copy and clear runs of slots; `steal_l`, `steal_r`, `merge` and the removal of a
    slot are made of them. */
module Slots {
  import opened Nodes
  import opened Memory

  /** `s` with its slots from `at` on replaced by the `k` slots of `u` from `from` on. */
  function Over(s: seq<nat>, at: nat, u: seq<nat>, from: nat, k: nat): (r: seq<nat>)
    requires at + k <= |s| && from + k <= |u|
    ensures |r| == |s|
    ensures forall j {:trigger r[j]} :: 0 <= j < |s| ==> r[j] == if at <= j < at + k then u[from + j - at] else s[j]
  {
    s[..at] + u[from..from + k] + s[at + k..]
  }

  function Cleared(s: seq<nat>, a: nat, b: nat): (r: seq<nat>)
    requires a <= b <= |s|
    ensures |r| == |s|
    ensures forall j {:trigger r[j]} :: 0 <= j < |s| ==> r[j] == if a <= j < b then 0 else s[j]
  {
    s[..a] + Zeros(b - a) + s[b..]
  }

  function OverNode(d: Node, at: nat, s: Node, from: nat, k: nat): Node
    requires |d.keys| == |d.vals| >= at + k && |s.keys| == |s.vals| >= from + k
  {
    Node(Over(d.keys, at, s.keys, from, k), Over(d.vals, at, s.vals, from, k))
  }

  function ClearedNode(d: Node, a: nat, b: nat): Node
    requires a <= b <= |d.keys| == |d.vals|
  {
    Node(Cleared(d.keys, a, b), Cleared(d.vals, a, b))
  }

  lemma OverStep(s: seq<nat>, at: nat, u: seq<nat>, from: nat, k: nat)
    requires at + k < |s| && from + k < |u|
    ensures Over(s, at, u, from, 0) == s
    ensures Over(s, at, u, from, k)[at + k := u[from + k]] == Over(s, at, u, from, k + 1)
    ensures s == u && at <= from ==> Over(s, at, u, from, k)[from + k] == u[from + k]
  {
    hide Over;
  }

  lemma OverBackStep(s: seq<nat>, at: nat, from: nat, k: nat)
    requires from + k <= |s| && at + k <= |s| && 0 < from <= at
    ensures Over(s, at, s, from, k)[from - 1] == s[from - 1]
    ensures Over(s, at, s, from, k)[at - 1 := s[from - 1]] == Over(s, at - 1, s, from - 1, k + 1)
  {
    hide Over;
  }

  lemma OverNothing(s: seq<nat>, at: nat, u: seq<nat>, from: nat)
    requires at <= |s| && from <= |u|
    ensures Over(s, at, u, from, 0) == s
  {
    hide Over;
  }

  lemma ClearedStep(s: seq<nat>, a: nat, b: nat)
    requires a <= b < |s|
    ensures Cleared(s, a, a) == s && Cleared(s, a, b)[b := 0] == Cleared(s, a, b + 1)
  {
    hide Cleared;
  }

  lemma NodeRewrite(m: map<Ptr, Node>, p: Ptr, a: Node, b: Node)
    ensures m[p := a][p := b] == m[p := b]
  {
  }

  ghost function Pair1(d: Node, j: nat, s: Node, i: nat): Node
    requires |d.keys| == |d.vals| > j && |s.keys| == |s.vals| > i
  {
    Node(d.keys[j := s.keys[i]], d.vals[j := s.vals[i]])
  }

  lemma UpTurn(m: map<Ptr, Node>, dst: Ptr, d: Node, at: nat, src: Ptr, s: Node, from: nat, i: nat)
    requires |d.keys| == |d.vals| == |s.keys| == |s.vals| && at + i < |d.keys| && from + i < |s.keys|
    requires src in m && m[src] == s && (dst == src ==> d == s && at <= from)
    ensures var c := m[dst := OverNode(d, at, s, from, i)];
            c[dst := Pair1(OverNode(d, at, s, from, i), at + i, c[src], from + i)] == m[dst :=
                OverNode(d, at, s, from, i + 1)]
  {
    OverStep(d.keys, at, s.keys, from, i);
    OverStep(d.vals, at, s.vals, from, i);
    hide Over;
    NodeRewrite(m, dst, OverNode(d, at, s, from, i), OverNode(d, at, s, from, i + 1));
  }

  lemma DownTurn(m: map<Ptr, Node>, p: Ptr, s: Node, at: nat, from: nat, k: nat, i: nat)
    requires |s.keys| == |s.vals| && from <= at && at + k <= |s.keys| && 0 < i <= k
    ensures var c := m[p := OverNode(s, at + i, s, from + i, k - i)];
            c[p := Pair1(c[p], at + i - 1, c[p], from + i - 1)] ==
                m[p := OverNode(s, at + i - 1, s, from + i - 1, k - i + 1)]
  {
    OverBackStep(s.keys, at + i, from + i, k - i);
    OverBackStep(s.vals, at + i, from + i, k - i);
    hide Over;
    NodeRewrite(m, p, OverNode(s, at + i, s, from + i, k - i), OverNode(s, at + i - 1, s, from + i - 1, k - i + 1));
  }

  /** `for (i...) { setkey(dst, bkey(src, from + i), at + i); setval(...); }` */
  method CopyUp(heap: Heap, dst: Ptr, at: nat, src: Ptr, from: nat, k: nat)
    requires heap.Valid() && dst in heap.mem && src in heap.mem && at + k <= heap.n && from + k <= heap.n
    requires dst == src ==> at <= from
    modifies heap, heap.repr
    ensures heap.Valid() && heap.repr == old(heap.repr)
    ensures Sized(heap.n, old(heap.mem[dst])) && Sized(heap.n, old(heap.mem[src]))
    ensures heap.mem == old(heap.mem)[dst := OverNode(old(heap.mem[dst]), at, old(heap.mem[src]), from, k)]
  {
    hide heap.Valid, Over;
    ghost var m: map<Ptr, Node> := heap.mem;
    ghost var d := heap.mem[dst];
    ghost var s := heap.mem[src];
    heap.SizedAt(dst);
    heap.SizedAt(src);
    OverNothing(d.keys, at, s.keys, from);
    OverNothing(d.vals, at, s.vals, from);
    assert m == m[dst := OverNode(d, at, s, from, 0)];
    var i := 0;
    while i < k
      invariant heap.Valid() && heap.repr == old(heap.repr) && i <= k
      invariant heap.mem == m[dst := OverNode(d, at, s, from, i)]
    {
      UpTurn(m, dst, d, at, src, s, from, i);
      heap.CopyPair(dst, src, from + i, at + i);
      i := i + 1;
    }
  }

  /** The shift to the right inside one node, from the last slot down. */
  method CopyDown(heap: Heap, p: Ptr, at: nat, from: nat, k: nat)
    requires heap.Valid() && p in heap.mem && from <= at && at + k <= heap.n
    modifies heap, heap.repr
    ensures heap.Valid() && heap.repr == old(heap.repr) && Sized(heap.n, old(heap.mem[p]))
    ensures heap.mem == old(heap.mem)[p := OverNode(old(heap.mem[p]), at, old(heap.mem[p]), from, k)]
  {
    hide heap.Valid, Over;
    ghost var m: map<Ptr, Node> := heap.mem;
    ghost var s := heap.mem[p];
    heap.SizedAt(p);
    OverNothing(s.keys, at + k, s.keys, from + k);
    OverNothing(s.vals, at + k, s.vals, from + k);
    assert m == m[p := OverNode(s, at + k, s, from + k, 0)];
    var i: nat := k;
    while i > 0
      invariant heap.Valid() && heap.repr == old(heap.repr) && i <= k
      invariant heap.mem == m[p := OverNode(s, at + i, s, from + i, k - i)]
    {
      DownTurn(m, p, s, at, from, k, i);
      heap.CopyPair(p, p, from + i - 1, at + i - 1);
      i := i - 1;
    }
  }

  method ClearRange(heap: Heap, p: Ptr, a: nat, b: nat)
    requires heap.Valid() && p in heap.mem && a <= b <= heap.n
    modifies heap, heap.repr
    ensures heap.Valid() && heap.repr == old(heap.repr) && Sized(heap.n, old(heap.mem[p]))
    ensures heap.mem == old(heap.mem)[p := ClearedNode(old(heap.mem[p]), a, b)]
  {
    hide heap.Valid, Cleared;
    ghost var m: map<Ptr, Node> := heap.mem;
    ghost var s := heap.mem[p];
    heap.SizedAt(p);
    assert Cleared(s.keys, a, a) == s.keys && Cleared(s.vals, a, a) == s.vals;
    assert m == m[p := ClearedNode(s, a, a)];
    var i := a;
    while i < b
      invariant heap.Valid() && heap.repr == old(heap.repr) && a <= i <= b
      invariant heap.mem == m[p := ClearedNode(s, a, i)]
    {
      ClearedStep(s.keys, a, i);
      ClearedStep(s.vals, a, i);
      heap.ClearPair(p, i);
      NodeRewrite(m, p, ClearedNode(s, a, i), ClearedNode(s, a, i + 1));
      i := i + 1;
    }
  }
}
