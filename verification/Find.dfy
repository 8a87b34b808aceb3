/** Descending the tree: `find_level`, `getpos`, `getfill`, and the separators `find_level` lowers. */
module Find {
  import opened Nodes
  import opened Memory
  import opened Trees

  class Head {
    var node: Ptr
    var height: nat
    ghost var info: map<Ptr, Info>
    ghost var contents: map<nat, nat>

    constructor ()
      ensures node == 0 && height == 0 && info == map[] && contents == map[]
    {
      node, height, info, contents := 0, 0, map[], map[];
    }
  }

  ghost function Snap(heap: Heap, head: Head): Tree
    reads heap, head
  {
    Tree(heap.n, heap.span, heap.mem, head.info, head.node, head.height)
  }

  /** `t` differs from `t0` only by lowered separators above level `l` and widened intervals. */
  ghost predicate Lowered(t0: Tree, t: Tree, l: nat) {
    && t.n == t0.n && t.span == t0.span && t.root == t0.root && t.height == t0.height
    && t.info.Keys == t0.info.Keys && t.mem.Keys == t0.mem.Keys
    && (forall p :: p in t0.info && p in t0.mem ==>
          && t.info[p].level == t0.info[p].level && t.info[p].up == t0.info[p].up && t.info[p].at == t0.info[p].at
          && t.info[p].lo <= t0.info[p].lo && t0.info[p].hi <= t.info[p].hi
          && (t0.info[p].level < l ==> t.info[p] == t0.info[p])
          && t.mem[p].vals == t0.mem[p].vals)
    && (forall p :: p in t0.mem && (p !in t0.info || t0.info[p].level <= l) ==> t.mem[p] == t0.mem[p])
  }

  lemma LoweredTrans(t0: Tree, t1: Tree, t2: Tree, l: nat)
    requires Lowered(t0, t1, l) && Lowered(t1, t2, l)
    ensures Lowered(t0, t2, l)
  {
  }

  lemma LoweredFilled(t: Tree, t': Tree, l: nat, m: nat, weak: Ptr)
    requires Lowered(t, t', l) && Filled(t, m, weak) && Base(t) && Base(t')
    ensures Filled(t', m, weak)
  {
    forall p | Has(t', p) && t'.info[p].level >= m && p != weak
      ensures Fill(t'.mem[p]) >= (if p == t'.root && t'.height == 1 then 1 else 2)
    {
      assert Has(t, p);
    }
  }

  lemma LoweredChain(t0: Tree, t: Tree, t1: Tree, t2: Tree, l: nat)
    requires Lowered(t0, t, l) && Lowered(t, t1, l) && Lowered(t1, t2, l)
    requires Filled(t, l + 1, 0) && Base(t) && Base(t2)
    ensures Lowered(t0, t2, l) && Filled(t2, l + 1, 0)
  {
    LoweredTrans(t0, t, t1, l);
    LoweredTrans(t0, t1, t2, l);
    LoweredTrans(t, t1, t2, l);
    LoweredFilled(t, t2, l, l + 1, 0);
  }

  ghost function LowerLast(t: Tree, p: Ptr, k: nat): Tree
    requires Has(t, p) && Fill(t.mem[p]) > 0
  {
    t.(mem := t.mem[p := Node(t.mem[p].keys[Fill(t.mem[p]) - 1 := k], t.mem[p].vals)])
  }

  ghost predicate CanLower(t: Tree, l: nat, p: Ptr, k: nat) {
    && Inv(t, l) && Has(t, p) && t.info[p].level > l
    && Fill(t.mem[p]) > 0 && t.info[p].lo <= k < t.mem[p].keys[Fill(t.mem[p]) - 1]
  }

  lemma LowerLastNodes(t: Tree, l: nat, p: Ptr, k: nat, q: Ptr)
    requires CanLower(t, l, p, k) && q in t.info && t.info[q].level >= l
    ensures NodeOk(LowerLast(t, p, k), q)
  {
    assert NodeOk(t, q);
    assert Fill(LowerLast(t, p, k).mem[p]) == Fill(t.mem[p]);
  }

  lemma LowerLastKids(t: Tree, l: nat, p: Ptr, k: nat, q: Ptr, i: nat)
    requires CanLower(t, l, p, k) && Has(t, q) && t.info[q].level >= l && t.info[q].level > 1 && i < Fill(t.mem[q])
    ensures KidOk(LowerLast(t, p, k), q, i)
  {
    assert KidOk(t, q, i);
  }

  /** Lowering the right-most key of a node to a key routed to it keeps the invariant. */
  lemma LowerLastInv(t: Tree, l: nat, p: Ptr, k: nat)
    requires CanLower(t, l, p, k)
    ensures Inv(LowerLast(t, p, k), l)
  {
    var t' := LowerLast(t, p, k);
    forall q | q in t.info && t.info[q].level >= l
      ensures NodeOk(t', q)
    {
      LowerLastNodes(t, l, p, k, q);
    }
    forall q, i | Has(t', q) && t.info[q].level >= l && t.info[q].level > 1 && 0 <= i < Fill(t'.mem[q])
      ensures KidOk(t', q, i)
    {
      LowerLastKids(t, l, p, k, q, i);
    }
    forall c | c in t.info && t.info[c].level + 1 >= l
      ensures Linked(t', c)
    {
      assert Linked(t, c);
    }
  }

  ghost function Widen(t: Tree, c: Ptr, lo: nat, hi: nat): Tree
    requires c in t.info
  {
    t.(info := t.info[c := t.info[c].(lo := lo, hi := hi)])
  }

  ghost predicate CanWiden(t: Tree, l: nat, c: Ptr, lo: nat, hi: nat) {
    && Inv(t, l) && 0 < l && c in t.info && t.info[c].level >= l
    && Linked(t, c) && lo == SLo(t, c) && hi == SHi(t, c)
  }

  lemma WidenBase(t: Tree, l: nat, c: Ptr, lo: nat, hi: nat)
    requires CanWiden(t, l, c, lo, hi)
    ensures Base(Widen(t, c, lo, hi)) && lo <= t.info[c].lo && t.info[c].hi <= hi <= t.span
  {
    assert NodeOk(t, c) && Linked(t, c);
    if c != t.root {
      assert NodeOk(t, t.info[c].up) && KidOk(t, t.info[c].up, t.info[c].at);
    }
  }

  lemma WidenNodes(t: Tree, l: nat, c: Ptr, lo: nat, hi: nat, q: Ptr)
    requires CanWiden(t, l, c, lo, hi) && q in t.info && t.info[q].level >= l
    ensures NodeOk(Widen(t, c, lo, hi), q)
  {
    WidenBase(t, l, c, lo, hi);
    assert NodeOk(t, q);
  }

  lemma WidenKids(t: Tree, l: nat, c: Ptr, lo: nat, hi: nat, q: Ptr, i: nat)
    requires CanWiden(t, l, c, lo, hi) && Has(t, q) && t.info[q].level >= l && t.info[q].level > 1 && i < Fill(t.mem[q])
    ensures KidOk(Widen(t, c, lo, hi), q, i)
  {
    WidenBase(t, l, c, lo, hi);
    assert KidOk(t, q, i) && Linked(t, c);
  }

  lemma WidenLinks(t: Tree, l: nat, c: Ptr, lo: nat, hi: nat)
    requires CanWiden(t, l, c, lo, hi)
    ensures LinksOk(Widen(t, c, lo, hi), l)
  {
    hide Base, NodeOk, KidOk, Fill;
    var t' := Widen(t, c, lo, hi);
    forall d | d in t.info && t.info[d].level + 1 >= l
      ensures Linked(t', d)
    {
      assert Linked(t, d);
    }
  }

  /** Recording for a node the whole interval its slot covers keeps the invariant. */
  lemma WidenInv(t: Tree, l: nat, c: Ptr, lo: nat, hi: nat)
    requires CanWiden(t, l, c, lo, hi)
    ensures Inv(Widen(t, c, lo, hi), l) && Lowered(t, Widen(t, c, lo, hi), l)
  {
    hide Base, NodeOk, KidOk, LinksOk, Linked, Fill;
    var t' := Widen(t, c, lo, hi);
    WidenBase(t, l, c, lo, hi);
    WidenLinks(t, l, c, lo, hi);
    forall q | q in t.info && t.info[q].level >= l
      ensures NodeOk(t', q)
    {
      WidenNodes(t, l, c, lo, hi, q);
    }
    forall q, i | Has(t', q) && t.info[q].level >= l && t.info[q].level > 1 && 0 <= i < Fill(t'.mem[q])
      ensures KidOk(t', q, i)
    {
      WidenKids(t, l, c, lo, hi, q, i);
    }
  }

  /** The slot `find_level` follows for key `k`: the first one at most `k`, else the right-most. */
  ghost function Route(nd: Node, k: nat): nat
    requires |nd.keys| == |nd.vals|
  {
    var i := Pos(nd, k);
    if i < |nd.vals| && nd.vals[i] != 0 then i else if i == 0 then 0 else i - 1
  }

  /** One turn of the loop in `find_level`. */
  ghost function Descend(t: Tree, p: Ptr, k: nat): Tree
    requires Has(t, p)
  {
    var i := Pos(t.mem[p], k);
    if i < t.n && t.mem[p].vals[i] != 0 then t
    else if Fill(t.mem[p]) == 0 then t else LowerLast(t, p, k)
  }

  lemma DescendInv(t: Tree, l: nat, p: Ptr, k: nat)
    requires Inv(t, l) && Filled(t, l + 1, 0) && p in t.info && t.info[p].level > l && l > 0
    requires t.info[p].lo <= k < t.info[p].hi
    ensures Has(t, p)
    ensures var t' := Descend(t, p, k);
            && Inv(t', l) && Lowered(t, t', l)
            && var i := Route(t.mem[p], k);
            && var pos := Pos(t.mem[p], k);
            && (pos < t.n && t.mem[p].vals[pos] != 0 ==> i == pos)
            && (!(pos < t.n && t.mem[p].vals[pos] != 0) ==> i == pos - 1 == Fill(t.mem[p]) - 1)
            && KidOk(t', p, i) && t'.mem[p].keys[i] <= k < SlotHi(t', p, i)
            && t'.mem[p].vals[i] in t.info && CanWiden(t', l, t'.mem[p].vals[i], t'.mem[p].keys[i], SlotHi(t', p, i))
  {
    hide Linked;
    assert NodeOk(t, p);
    var i := Pos(t.mem[p], k);
    assert i <= Fill(t.mem[p]);
    if !(i < t.n && t.mem[p].vals[i] != 0) {
      LowerLastInv(t, l, p, k);
      assert KidOk(LowerLast(t, p, k), p, i - 1);
      assert Linked(LowerLast(t, p, k), t.mem[p].vals[i - 1]);
    } else {
      assert KidOk(t, p, i);
      assert Linked(t, t.mem[p].vals[i]);
    }
  }

  method GetPos(heap: Heap, p: Ptr, k: nat) returns (i: nat)
    requires heap.Valid() && p in heap.mem
    ensures i == Pos(heap.mem[p], k) && |heap.mem[p].keys| == heap.n == |heap.mem[p].vals|
  {
    i := 0;
    while i < heap.n
      invariant i <= heap.n
      invariant Pos(heap.mem[p], k) == PosFrom(heap.mem[p].keys, k, i)
    {
      var key := heap.GetKey(p, i);
      if key <= k {
        break;
      }
      i := i + 1;
    }
  }

  method GetFill(heap: Heap, p: Ptr, start: nat) returns (i: nat)
    requires heap.Valid() && p in heap.mem && start <= heap.n
    ensures Sized(heap.n, heap.mem[p]) && i == FillFrom(heap.mem[p].vals, start)
  {
    i := start;
    while i < heap.n
      invariant start <= i <= heap.n
      invariant FillFrom(heap.mem[p].vals, start) == FillFrom(heap.mem[p].vals, i)
    {
      var v := heap.GetVal(p, i);
      if v == 0 {
        break;
      }
      i := i + 1;
    }
  }

  /** `find_level` for key `k`, starting from tree `t0`, has reached node `p` of level `h`. */
  ghost predicate Reached(t0: Tree, t: Tree, l: nat, h: nat, p: Ptr, k: nat) {
    && Inv(t, l) && Filled(t, l + 1, 0) && Lowered(t0, t, l)
    && Has(t, p) && t.info[p].level == h && l <= h <= t.height
    && t.info[p].lo <= k < t.info[p].hi
  }

  lemma ReachRoot(t: Tree, l: nat, k: nat)
    requires Inv(t, l) && Filled(t, l + 1, 0) && 1 <= l <= t.height && k < t.span
    ensures t.root in t.info && Reached(t, Widen(t, t.root, 0, t.span), l, t.height, t.root, k)
  {
    assert Linked(t, t.root) && NodeOk(t, t.root);
    WidenInv(t, l, t.root, 0, t.span);
    LoweredFilled(t, Widen(t, t.root, 0, t.span), l, l + 1, 0);
  }

  lemma ReachChild(t0: Tree, t: Tree, l: nat, h: nat, p: Ptr, k: nat)
    requires Reached(t0, t, l, h, p, k) && 1 <= l < h
    ensures Has(t, p) && var nd, pos := t.mem[p], Pos(t.mem[p], k); var i := Route(nd, k);
            && (pos < t.n && nd.vals[pos] != 0 ==> i == pos)
            && (!(pos < t.n && nd.vals[pos] != 0) ==> i + 1 == pos == Fill(nd))
            && i < t.n
            && var t1 := Descend(t, p, k); var c := nd.vals[i];
            && Has(t1, p) && c in t1.info
            && Reached(t0, Widen(t1, c, t1.mem[p].keys[i], SlotHi(t1, p, i)), l, h - 1, c, k)
  {
    DescendInv(t, l, p, k);
    var t1 := Descend(t, p, k);
    var i := Route(t.mem[p], k);
    var c := t.mem[p].vals[i];
    var t2 := Widen(t1, c, t1.mem[p].keys[i], SlotHi(t1, p, i));
    WidenInv(t1, l, c, t1.mem[p].keys[i], SlotHi(t1, p, i));
    LoweredChain(t0, t, t1, t2, l);
    assert NodeOk(t2, c);
  }

  /** The node of level `l` that the slots as they are route `k` to, from node `p` of level `h`. */
  ghost function Down(mem: map<Ptr, Node>, p: Ptr, h: nat, l: nat, k: nat): Ptr
    decreases h
  {
    if h > l && p in mem && |mem[p].keys| == |mem[p].vals| && Route(mem[p], k) < |mem[p].vals|
        then Down(mem, mem[p].vals[Route(mem[p], k)], h - 1, l, k) else p
  }

  /** Nodes of level `h` and below are as they were. */
  ghost predicate SameBelow(t0: Tree, t: Tree, h: nat) {
    forall q {:trigger t.mem[q]} {:trigger t0.mem[q]} :: q in t0.info && q in t0.mem && t0.info[q].level <= h ==>
        q in t.mem && t.mem[q] == t0.mem[q]
  }

  /** On its way `find_level` follows the original slots. */
  ghost predicate OnPath(t0: Tree, t: Tree, l: nat, h: nat, p: Ptr, k: nat) {
    Down(t0.mem, t0.root, t0.height, l, k) == Down(t0.mem, p, h, l, k) && SameBelow(t0, t, h)
  }

  lemma PathTurn(t0: Tree, t: Tree, l: nat, h: nat, p: Ptr, k: nat)
    requires Has(t, p) && Sized(t.n, t.mem[p]) && Route(t.mem[p], k) < t.n && l < h && p in t0.info &&
      t0.info[p].level == h && p in t0.mem
    requires OnPath(t0, t, l, h, p, k)
    ensures OnPath(t0, Descend(t, p, k), l, h - 1, t.mem[p].vals[Route(t.mem[p], k)], k)
  {
    hide Fill, Pos, Route;
  }

  lemma PathStart(t0: Tree, t: Tree, l: nat, k: nat)
    requires t.mem == t0.mem
    ensures OnPath(t0, t, l, t0.height, t0.root, k)
  {
  }

  /** The tree after one turn of the loop in `find_level`, or unchanged where there is none. */
  ghost function Turned(t: Tree, p: Ptr, k: nat): Tree {
    if Has(t, p) && Sized(t.n, t.mem[p]) && Route(t.mem[p], k) < t.n then
      var t1, i := Descend(t, p, k), Route(t.mem[p], k);
      var c := t.mem[p].vals[i];
      if c in t1.info && p in t1.mem && i < |t1.mem[p].keys| then Widen(t1, c, t1.mem[p].keys[i], SlotHi(t1, p, i))
          else t1
    else t
  }

  lemma ReachedNode(t0: Tree, t: Tree, l: nat, h: nat, p: Ptr, k: nat)
    requires Reached(t0, t, l, h, p, k) && 1 <= l
    ensures Has(t, p) && Sized(t.n, t.mem[p]) && p in t0.info && t0.info[p].level == h && p in t0.mem
  {
    assert Base(t);
  }

  /** One turn: the slot that is followed, the separator that is lowered, the state reached. */
  lemma Turn(t0: Tree, t: Tree, l: nat, h: nat, p: Ptr, k: nat)
    requires Reached(t0, t, l, h, p, k) && 1 <= l < h && OnPath(t0, t, l, h, p, k)
    ensures p in t.mem && Sized(t.n, t.mem[p]) && Route(t.mem[p], k) < t.n
    ensures var nd, pos, i := t.mem[p], Pos(t.mem[p], k), Route(t.mem[p], k);
            && Reached(t0, Turned(t, p, k), l, h - 1, nd.vals[i], k) &&
                OnPath(t0, Turned(t, p, k), l, h - 1, nd.vals[i], k)
            && if pos < t.n && nd.vals[pos] != 0 then i == pos && Turned(t, p, k) == t.(info := Turned(t, p, k).info)
               else i + 1 == pos && Turned(t, p, k) == t.(info := Turned(t, p, k).info, mem :=
                   t.mem[p := Node(nd.keys[i := k], nd.vals)])
  {
    hide Reached, Fill, Pos, Linked, NodeOk, KidOk, SHi, OnPath;
    ReachedNode(t0, t, l, h, p, k);
    ReachChild(t0, t, l, h, p, k);
    PathTurn(t0, t, l, h, p, k);
    PathSame(t0, Descend(t, p, k), Turned(t, p, k), l, h - 1, t.mem[p].vals[Route(t.mem[p], k)], k);
  }

  lemma PathSame(t0: Tree, t1: Tree, t2: Tree, l: nat, h: nat, p: Ptr, k: nat)
    requires OnPath(t0, t1, l, h, p, k) && t2.mem == t1.mem
    ensures OnPath(t0, t2, l, h, p, k)
  {
  }

  lemma PathEnd(t0: Tree, t: Tree, l: nat, p: Ptr, k: nat)
    requires OnPath(t0, t, l, l, p, k)
    ensures p == Down(t0.mem, t0.root, t0.height, l, k)
  {
  }

  method FindLevel(heap: Heap, head: Head, k: nat, level: nat) returns (p: Ptr)
    requires heap.Valid() && Inv(Snap(heap, head), level) && Filled(Snap(heap, head), level + 1, 0)
    requires 1 <= level <= head.height && k < heap.span
    modifies heap, heap.repr, head`info
    ensures heap.Valid() && heap.repr == old(heap.repr)
    ensures Reached(old(Snap(heap, head)), Snap(heap, head), level, level, p, k)
    ensures p == Down(old(heap.mem), head.node, head.height, level, k)
  {
    hide Inv, Reached, OnPath, Turned, Lowered, Filled, heap.Valid, Fill, Pos, Route, Has, Sized;
    p := head.node;
    ghost var t0 := Snap(heap, head);
    ReachRoot(t0, level, k);
    PathStart(t0, Widen(t0, p, 0, heap.span), level, k);
    head.info := Widen(t0, p, 0, heap.span).info;
    var h := head.height;
    while h > level
      invariant heap.Valid() && heap.repr == old(heap.repr)
      invariant level <= h <= head.height
      invariant Reached(t0, Snap(heap, head), level, h, p, k) && OnPath(t0, Snap(heap, head), level, h, p, k)
    {
      ghost var t := Snap(heap, head);
      Turn(t0, t, level, h, p, k);
      var i := GetPos(heap, p, k);
      var v := 0;
      if i < heap.n {
        v := heap.GetVal(p, i);
      }
      if v == 0 {
        // every separator is larger: the last one comes down to `k`
        i := i - 1;
        heap.SetKey(p, k, i);
      }
      var c := heap.GetVal(p, i);
      head.info := Turned(t, p, k).info;
      assert Snap(heap, head) == Turned(t, p, k);
      p := c;
      h := h - 1;
    }
    PathEnd(t0, Snap(heap, head), level, p, k);
  }
}
