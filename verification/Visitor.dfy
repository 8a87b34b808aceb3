/** The visitors: `__btree_for_each`, `btree_visitor` and `btree_grim_visitor`. The callback only
    records its arguments; it does not touch the tree. */
module Visitor {
  import opened Nodes
  import opened Memory
  import opened Trees
  import opened Find
  import opened Walk
  import opened Btree

  datatype Visit = Visit(elem: nat, key: nat, index: nat)

  class Log {
    var calls: seq<Visit>

    constructor ()
      ensures calls == []
    {
      calls := [];
    }

    method Call(elem: nat, key: nat, index: nat)
      modifies this
      ensures calls == old(calls) + [Visit(elem, key, index)]
    {
      calls := calls + [Visit(elem, key, index)];
    }
  }

  /** The calls for the entries `s`, numbered from `c` on. */
  ghost function Numbered(s: seq<(nat, nat)>, c: nat): (r: seq<Visit>)
    ensures |r| == |s| && forall i :: 0 <= i < |s| ==> r[i] == Visit(s[i].1, s[i].0, c + i)
  {
    seq(|s|, i requires 0 <= i < |s| => Visit(s[i].1, s[i].0, c + i))
  }

  /** What has been visited, and with `reap` freed, after `i` slots of `p`. */
  ghost function Seen(t: Tree, p: Ptr, i: nat): seq<(nat, nat)>
    requires Inv(t, 1) && Has(t, p) && i <= Fill(t.mem[p])
  {
    if t.info[p].level <= 1 then Pairs(t.mem[p], i) else FlatTo(t, p, i)
  }

  ghost function Reaped(t: Tree, p: Ptr, i: nat): set<Ptr>
    requires Inv(t, 1) && Has(t, p) && i <= Fill(t.mem[p])
  {
    if t.info[p].level <= 1 then {} else UnderTo(t, p, i)
  }

  lemma StartsEmpty(t: Tree, p: Ptr)
    requires Inv(t, 1) && Has(t, p)
    ensures Fill(t.mem[p]) <= t.n && Seen(t, p, 0) == [] && Reaped(t, p, 0) == {} && p in Under(t, p)
  {
    assert Base(t);
  }

  lemma EndsFull(t: Tree, p: Ptr)
    requires Inv(t, 1) && Has(t, p)
    ensures Seen(t, p, Fill(t.mem[p])) == Flat(t, p)
    ensures Under(t, p) == Reaped(t, p, Fill(t.mem[p])) + {p} && p !in Reaped(t, p, Fill(t.mem[p]))
  {
    if t.info[p].level > 1 {
      UnderParts(t, p);
    } else {
      assert Base(t);
      forall q
        ensures q in Under(t, p) <==> q == p
      {
      }
    }
  }

  /** The nodes `ps` are in memory as in `t`. */
  ghost predicate Standing(t: Tree, mem: map<Ptr, Node>, ps: set<Ptr>) {
    forall q {:trigger q in ps} :: q in ps ==> q in t.mem && q in mem && mem[q] == t.mem[q]
  }

  /** The state after `i` slots of `p`. */
  ghost predicate Midway(t: Tree, m: map<Ptr, Node>, mem: map<Ptr, Node>, p: Ptr, i: nat, reap: bool, c0: nat, c: nat,
      past: seq<Visit>, calls: seq<Visit>) {
    && Inv(t, 1) && Has(t, p) && i <= Fill(t.mem[p]) && Standing(t, m, Under(t, p))
    && mem == (if reap then m - Reaped(t, p, i) else m)
    && calls == past + Numbered(Seen(t, p, i), c0) && c == c0 + |Seen(t, p, i)|
  }

  lemma MidwayStart(t: Tree, m: map<Ptr, Node>, p: Ptr, reap: bool, c0: nat, past: seq<Visit>)
    requires Inv(t, 1) && Has(t, p) && Standing(t, m, Under(t, p))
    ensures Midway(t, m, m, p, 0, reap, c0, c0, past, past) && Fill(t.mem[p]) <= t.n
  {
    StartsEmpty(t, p);
    assert m - {} == m;
  }

  lemma MidwayFacts(t: Tree, m: map<Ptr, Node>, mem: map<Ptr, Node>, p: Ptr, i: nat, reap: bool, c0: nat, c: nat,
      past: seq<Visit>, calls: seq<Visit>)
    requires Midway(t, m, mem, p, i, reap, c0, c, past, calls)
    ensures Has(t, p) && Fill(t.mem[p]) <= t.n && i <= Fill(t.mem[p]) && p in mem && mem[p] == t.mem[p]
    ensures i < Fill(t.mem[p]) && t.info[p].level > 1 ==>
              var d := t.mem[p].vals[i];
                  Has(t, d) && t.info[d].level + 1 == t.info[p].level && Standing(t, mem, Under(t, d))
  {
    StartsEmpty(t, p);
    assert p in Under(t, p);
    if t.info[p].level > 1 {
      UnderToIs(t, p, i, p);
    }
    if i < Fill(t.mem[p]) && t.info[p].level > 1 {
      UnderNext(t, p, i);
      ChildOf(t, p, i);
      assert Base(t);
      var d := t.mem[p].vals[i];
      forall q | q in Under(t, d)
        ensures q in t.mem && q in mem && mem[q] == t.mem[q]
      {
        assert q in Under(t, p);
      }
    }
  }

  lemma NumberedAppend(s: seq<(nat, nat)>, u: seq<(nat, nat)>, c: nat)
    ensures Numbered(s + u, c) == Numbered(s, c) + Numbered(u, c + |s|)
  {
  }

  /** A leaf slot was visited. */
  lemma MidwayPair(t: Tree, m: map<Ptr, Node>, mem: map<Ptr, Node>, p: Ptr, i: nat, reap: bool, c0: nat, c: nat,
      past: seq<Visit>, calls: seq<Visit>)
    requires Midway(t, m, mem, p, i, reap, c0, c, past, calls) && t.info[p].level <= 1 && i < Fill(t.mem[p]) && i < t.n
    ensures Midway(t, m, mem, p, i + 1, reap, c0, c + 1, past, calls + [Visit(t.mem[p].vals[i], t.mem[p].keys[i], c)])
  {
    var e := (t.mem[p].keys[i], t.mem[p].vals[i]);
    assert Pairs(t.mem[p], i + 1) == Pairs(t.mem[p], i) + [e];
    NumberedAppend(Pairs(t.mem[p], i), [e], c0);
    assert Numbered([e], c) == [Visit(e.1, e.0, c)];
  }

  /** A subtree was visited. */
  lemma MidwaySubtree(t: Tree, m: map<Ptr, Node>, mem: map<Ptr, Node>, mem': map<Ptr, Node>, p: Ptr, i: nat,
      reap: bool, c0: nat, c: nat, past: seq<Visit>, calls: seq<Visit>)
    requires Midway(t, m, mem, p, i, reap, c0, c, past, calls) && t.info[p].level > 1 && i < Fill(t.mem[p]) && i < t.n
    requires Has(t, t.mem[p].vals[i])
    requires mem' == (if reap then mem - Under(t, t.mem[p].vals[i]) else mem)
    ensures var s := Flat(t, t.mem[p].vals[i]);
      Midway(t, m, mem', p, i + 1, reap, c0, c + |s|, past, calls + Numbered(s, c))
  {
    ChildOf(t, p, i);
    var d := t.mem[p].vals[i];
    var s := Flat(t, d);
    assert FlatTo(t, p, i + 1) == FlatTo(t, p, i) + s && UnderTo(t, p, i + 1) == UnderTo(t, p, i) + Under(t, d);
    hide FlatTo, Flat, UnderTo, Under, Numbered, Fill, Standing;
    NumberedAppend(FlatTo(t, p, i), s, c0);
    CallsAppend(past, Numbered(FlatTo(t, p, i), c0), Numbered(s, c));
    TakeTwice(m, UnderTo(t, p, i), Under(t, d));
  }

  lemma CallsAppend(a: seq<Visit>, b: seq<Visit>, c: seq<Visit>)
    ensures (a + b) + c == a + (b + c)
  {
  }

  lemma TakeTwice(m: map<Ptr, Node>, a: set<Ptr>, b: set<Ptr>)
    ensures (m - a) - b == m - (a + b)
  {
  }

  lemma MidwayEnd(t: Tree, m: map<Ptr, Node>, mem: map<Ptr, Node>, p: Ptr, reap: bool, c0: nat, c: nat,
      past: seq<Visit>, calls: seq<Visit>)
    requires Has(t, p) && Midway(t, m, mem, p, Fill(t.mem[p]), reap, c0, c, past, calls)
    ensures p in mem && (if reap then mem - {p} == m - Under(t, p) else mem == m)
    ensures calls == past + Numbered(Flat(t, p), c0) && c == c0 + |Flat(t, p)|
  {
    EndsFull(t, p);
    StartsEmpty(t, p);
    assert p in Under(t, p);
    var a := Reaped(t, p, Fill(t.mem[p]));
    assert (m - a) - {p} == m - (a + {p});
  }

  /** `__btree_for_each`: the entries below `node` from left to right; with `reap` every node of the
      subtree is freed once. */
  method ForEach(heap: Heap, log: Log, node: Ptr, reap: bool, height: nat, count: nat, ghost t: Tree)
      returns (total: nat)
    requires heap.Valid() && Inv(t, 1) && Has(t, node) && t.info[node].level == height && t.n == heap.n
    requires Standing(t, heap.mem, Under(t, node))
    modifies heap, log
    ensures heap.Valid() && heap.repr == old(heap.repr)
    ensures heap.mem == if reap then old(heap.mem) - Under(t, node) else old(heap.mem)
    ensures log.calls == old(log.calls) + Numbered(Flat(t, node), count) && total == count + |Flat(t, node)|
    decreases height
  {
    hide heap.Valid, Inv, Fill, Midway, Numbered, Flat, Under, Standing;
    ghost var m: map<Ptr, Node> := heap.mem;
    ghost var past := log.calls;
    MidwayStart(t, m, node, reap, count, past);
    total := count;
    var i := 0;
    while i < heap.n
      invariant heap.Valid() && heap.repr == old(heap.repr) && i <= Fill(t.mem[node]) <= heap.n
      invariant Midway(t, m, heap.mem, node, i, reap, count, total, past, log.calls)
    {
      MidwayFacts(t, m, heap.mem, node, i, reap, count, total, past, log.calls);
      var child := heap.GetVal(node, i);
      if child == 0 {
        break;
      }
      SlotUsed(t.mem[node], i);
      ghost var mem: map<Ptr, Node> := heap.mem;
      ghost var calls, c := log.calls, total;
      if height > 1 {
        total := ForEach(heap, log, child, reap, height - 1, total, t);
        MidwaySubtree(t, m, mem, heap.mem, node, i, reap, count, c, past, calls);
      } else {
        var key := heap.GetKey(node, i);
        log.Call(child, key, total);
        total := total + 1;
        MidwayPair(t, m, mem, node, i, reap, count, c, past, calls);
      }
      i := i + 1;
    }
    MidwayFacts(t, m, heap.mem, node, i, reap, count, total, past, log.calls);
    AllUsed(t.mem[node], i);
    MidwayEnd(t, m, heap.mem, node, reap, count, total, past, log.calls);
    if reap {
      heap.Free(node);
    }
  }

  lemma SlotUsed(nd: Node, i: nat)
    requires i <= Fill(nd) && i < |nd.vals| && nd.vals[i] != 0
    ensures i < Fill(nd)
  {
  }

  lemma AllUsed(nd: Node, i: nat)
    requires i <= Fill(nd) && (i < |nd.vals| ==> nd.vals[i] == 0)
    ensures i == Fill(nd)
  {
  }

  /** The calls `r` visit every pair of `m` once, keys strictly falling, numbered from 0. */
  ghost predicate Listed(r: seq<Visit>, m: map<nat, nat>) {
    && |r| == |m|
    && (forall i {:trigger r[i]} :: 0 <= i < |r| ==> r[i].index == i && r[i].key in m && m[r[i].key] == r[i].elem)
    && (forall i, j {:trigger r[i], r[j]} :: 0 <= i < j < |r| ==> r[i].key > r[j].key)
    && (forall k {:trigger k in m} :: k in m ==> exists i :: 0 <= i < |r| && r[i].key == k)
  }

  lemma WalkLists(t: Tree, m: map<nat, nat>)
    requires Holding(t, m) && t.height > 0
    ensures Has(t, t.root) && t.info[t.root].level == t.height && Inv(t, 1)
    ensures Listed(Numbered(Flat(t, t.root), 0), m) && |Flat(t, t.root)| == |m|
    ensures Under(t, t.root) == t.info.Keys && Standing(t, t.mem, Under(t, t.root))
  {
    assert Base(t);
    FlatIsEntries(t);
    FlatFalling(t, t.root);
    FallingSize(Flat(t, t.root));
    var s := Flat(t, t.root);
    assert |m.Items| == |m|;
    forall i | 0 <= i < |s|
      ensures s[i].0 in m && m[s[i].0] == s[i].1
    {
      assert s[i] in m.Items;
    }
    forall k | k in m
      ensures exists i :: 0 <= i < |s| && Numbered(s, 0)[i].key == k
    {
      assert (k, m[k]) in m.Items;
      assert (k, m[k]) in s;
      var i :| 0 <= i < |s| && s[i] == (k, m[k]);
      assert Numbered(s, 0)[i].key == k;
    }
    forall q | q in t.info
      ensures q in Under(t, t.root)
    {
      AncTop(t, q);
    }
  }

  lemma NothingListed(t: Tree, m: map<nat, nat>)
    requires Holding(t, m)
    ensures t.root == 0 ==> Listed([], m) && m == map[] && t.info == map[] && t.height == 0
    ensures t.root != 0 ==> t.height > 0
  {
    EmptyTree(t, m);
  }

  /** `btree_visitor`. */
  method VisitAll(heap: Heap, head: Head, log: Log) returns (count: nat)
    requires Valid(heap, head)
    modifies heap, log
    ensures Valid(heap, head) && heap.mem == old(heap.mem) && heap.repr == old(heap.repr)
    ensures count == |head.contents| && |old(log.calls)| <= |log.calls|
    ensures log.calls[..|old(log.calls)|] == old(log.calls) && Listed(log.calls[|old(log.calls)|..], head.contents)
  {
    hide heap.Valid, Holding, Inv, Listed, Standing, Under, Flat;
    ghost var t := Snap(heap, head);
    ghost var past := log.calls;
    NothingListed(t, head.contents);
    count := 0;
    if head.node != 0 {
      WalkLists(t, head.contents);
      count := ForEach(heap, log, head.node, false, head.height, 0, t);
      assert log.calls == past + Numbered(Flat(t, head.node), 0);
    }
    assert log.calls[|past|..] == if head.node != 0 then Numbered(Flat(t, head.node), 0) else [];
  }

  /** `btree_grim_visitor`: the same calls, and the whole tree is freed. */
  method VisitGrim(heap: Heap, head: Head, log: Log) returns (count: nat)
    requires Valid(heap, head)
    modifies heap, log, head
    ensures Valid(heap, head) && heap.repr == old(heap.repr)
    ensures head.node == 0 && head.height == 0 && head.info == map[] && head.contents == map[]
    ensures heap.mem == old(heap.mem) - old(head.info).Keys
    ensures count == |old(head.contents)| && |old(log.calls)| <= |log.calls|
    ensures log.calls[..|old(log.calls)|] == old(log.calls) && Listed(log.calls[|old(log.calls)|..], old(head.contents))
  {
    hide heap.Valid, Holding, Inv, Listed, Standing, Under, Flat;
    ghost var t := Snap(heap, head);
    ghost var m := head.contents;
    ghost var past := log.calls;
    NothingListed(t, m);
    HoldingBase(t, m);
    count := 0;
    if head.node != 0 {
      WalkLists(t, m);
      count := ForEach(heap, log, head.node, true, head.height, 0, t);
      assert log.calls == past + Numbered(Flat(t, head.node), 0);
    } else {
      assert heap.mem == heap.mem - {};
    }
    assert log.calls[|past|..] == if t.root != 0 then Numbered(Flat(t, t.root), 0) else [];
    Init(heap, head);
  }
}
