/** The interface of btree.c. A head stands for a finite map from keys to values; several heads may
    live in one memory. */
module Btree {
  import opened Nodes
  import opened Memory
  import opened Trees
  import opened Find
  import opened SplitProof
  import opened InsertProof
  import opened InsertOps
  import opened CutProof
  import opened MergeProof
  import opened RemoveProof
  import opened RemoveOps
  import Walk

  datatype Option<T> = None | Some(value: T)

  /** The tree under `head` is well formed and its leaves hold exactly `contents`. */
  ghost predicate Valid(heap: Heap, head: Head)
    reads heap, heap.repr, head
  {
    heap.Valid() && Holding(Snap(heap, head), head.contents)
  }

  ghost predicate Holding(t: Tree, m: map<nat, nat>) {
    Inv(t, 1) && Filled(t, 1, 0) && Entries(t, 1) == m.Items
  }

  /** Nodes that belong to no tree, or to another one, are left alone, and none is leaked. */
  ghost predicate OthersKept(t: Tree, t': Tree) {
    && t'.n == t.n && t'.span == t.span
    && (forall p {:trigger t'.mem[p]} {:trigger p in t'.mem} :: p in t.mem && p !in t.info ==>
        p in t'.mem && t'.mem[p] == t.mem[p])
    && t'.mem.Keys - t'.info.Keys == t.mem.Keys - t.info.Keys
  }

  lemma OthersTrans(t: Tree, t1: Tree, t2: Tree)
    requires OthersKept(t, t1) && OthersKept(t1, t2)
    ensures OthersKept(t, t2)
  {
    forall p | p in t.mem && p !in t.info
      ensures p in t2.mem && t2.mem[p] == t.mem[p]
    {
      assert p in t.mem.Keys - t.info.Keys;
      assert p in t1.mem.Keys - t1.info.Keys;
    }
  }

  lemma BelowOthers(t: Tree, t': Tree)
    requires Below(t, t', 1, {}, {})
    ensures OthersKept(t, t')
  {
  }

  /** Tree `u` in another memory that agrees on its nodes. */
  ghost predicate Moved(u: Tree, u': Tree) {
    && Base(u) && u' == u.(mem := u'.mem) && u.info.Keys <= u'.mem.Keys
    && (forall p {:trigger u'.mem[p]} {:trigger p in u.info} :: p in u.info ==> u'.mem[p] == u.mem[p])
    && (forall p :: p in u'.mem ==> Sized(u.n, u'.mem[p]))
  }

  lemma MovedHas(u: Tree, u': Tree, p: Ptr)
    requires Moved(u, u')
    ensures Has(u, p) <==> Has(u', p)
    ensures Has(u, p) ==> u'.mem[p] == u.mem[p]
  {
  }

  lemma MovedNodes(u: Tree, u': Tree)
    requires Moved(u, u') && NodesOk(u, 1) && Filled(u, 1, 0)
    ensures NodesOk(u', 1) && Filled(u', 1, 0)
  {
    forall p | p in u'.info && u'.info[p].level >= 1
      ensures NodeOk(u', p)
    {
      MovedHas(u, u', p);
      assert NodeOk(u, p);
    }
    forall p | Has(u', p) && u'.info[p].level >= 1 && p != 0
      ensures Fill(u'.mem[p]) >= (if p == u'.root && u'.height == 1 then 1 else 2)
    {
      MovedHas(u, u', p);
    }
  }

  lemma MovedKids(u: Tree, u': Tree)
    requires Moved(u, u') && KidsOk(u, 1) && LinksOk(u, 1)
    ensures KidsOk(u', 1) && LinksOk(u', 1)
  {
    hide Fill;
    forall p, i | Has(u', p) && u'.info[p].level >= 1 && u'.info[p].level > 1 && 0 <= i < Fill(u'.mem[p])
      ensures KidOk(u', p, i)
    {
      MovedHas(u, u', p);
      assert KidOk(u, p, i);
    }
    forall c | c in u'.info && u'.info[c].level + 1 >= 1
      ensures Linked(u', c)
    {
      assert Linked(u, c);
    }
  }

  /** A tree does not notice changes to nodes of other trees. */
  lemma OtherTree(u: Tree, u': Tree, m: map<nat, nat>)
    requires Holding(u, m) && Moved(u, u')
    ensures Holding(u', m)
  {
    MovedNodes(u, u');
    MovedKids(u, u');
    assert Base(u');
    hide NodesOk, KidsOk, LinksOk, Filled;
    SameEntries(u, u', 1);
  }

  /** Two heads in one memory share no node. */
  ghost predicate Apart(a: Head, b: Head)
    reads a, b
  {
    a != b && a.info.Keys !! b.info.Keys
  }

  lemma ApartKept(t: Tree, t': Tree, u: Tree, m: map<nat, nat>)
    requires OthersKept(t, t') && Holding(u, m) && u.mem == t.mem && u.n == t.n && t.info.Keys !! u.info.Keys
    requires forall p :: p in t'.mem ==> Sized(u.n, t'.mem[p])
    ensures Holding(u.(mem := t'.mem), m) && t'.info.Keys !! u.info.Keys
  {
    assert Base(u);
    assert forall p :: p in u.info ==> p in t.mem.Keys - t.info.Keys;
    assert forall p :: p in u.info ==> p in t'.mem.Keys - t'.info.Keys;
    hide Inv, Filled, Holding;
    OtherTree(u, u.(mem := t'.mem), m);
  }

  lemma ItemsRemove(m: map<nat, nat>, k: nat)
    requires k in m
    ensures (m - {k}).Items == m.Items - {(k, m[k])}
  {
    forall e | e in m.Items && e != (k, m[k])
      ensures e in (m - {k}).Items
    {
      assert e.0 in m && m[e.0] == e.1 && e.0 != k;
    }
  }

  lemma ItemsAdd(m: map<nat, nat>, k: nat, v: nat)
    requires k !in m
    ensures m[k := v].Items == m.Items + {(k, v)}
  {
    var m' := m[k := v];
    assert m' - {k} == m;
    ItemsRemove(m', k);
    assert (k, m'[k]) in m'.Items;
    assert (m'.Items - {(k, v)}) + {(k, v)} == m'.Items;
  }

  lemma KeyFree(t: Tree, m: map<nat, nat>, k: nat, v: nat)
    requires Holding(t, m) && k !in m && k < t.span && v != 0
    ensures InsertPre(t, 1, k, v, 0)
  {
    hide Inv, Filled, Entries;
    forall x: nat
      ensures (k, x) !in Entries(t, 1)
    {
    }
  }

  lemma Inserted(t: Tree, t': Tree, m: map<nat, nat>, k: nat, v: nat)
    requires Holding(t, m) && k !in m && InsertPost(t, t', 1, k, v, 0)
    ensures Holding(t', m[k := v]) && OthersKept(t, t')
  {
    ItemsAdd(m, k, v);
    BelowOthers(t, t');
    hide Inv, Filled, Entries, Below;
  }

  lemma NotInserted(t: Tree, t': Tree, m: map<nat, nat>)
    requires Holding(t, m) && Lowered(t, t', 1) && Inv(t', 1)
    ensures Holding(t', m) && OthersKept(t, t')
  {
    assert Base(t) && Base(t');
    LoweredFilled(t, t', 1, 1, 0);
    LoweredEntries(t, t', 1);
    LoweredBelow(t, t', 1);
    BelowOthers(t, t');
    hide Inv, Filled, Entries, Below;
  }

  /** `btree_insert`, which fails exactly when an allocation is refused: then the map and the set of
      allocated nodes are as before. The key may be read from another tree's node. */
  method Insert(heap: Heap, head: Head, key: KeyRef, v: nat) returns (err: bool)
    requires Valid(heap, head) && RefOk(heap.mem, key) && (key.Slot? ==> key.p !in head.info)
    requires KeyAt(heap.mem, key) !in head.contents && KeyAt(heap.mem, key) < heap.span && v != 0
    modifies heap, heap.repr, heap.calloc, head
    ensures Valid(heap, head) && fresh(heap.repr - old(heap.repr))
    ensures OthersKept(old(Snap(heap, head)), Snap(heap, head))
    ensures err ==> head.contents == old(head.contents) && heap.mem.Keys == old(heap.mem.Keys)
    ensures !err ==> head.contents == old(head.contents)[old(KeyAt(heap.mem, key)) := v]
    ensures heap.calloc.refused == old(heap.calloc.refused) + if err then 1 else 0
  {
    hide heap.Valid, Holding, InsertPre, InsertPost, Lowered, OthersKept, Inv;
    ghost var t := Snap(heap, head);
    ghost var m := head.contents;
    ghost var k := KeyAt(heap.mem, key);
    KeyFree(t, m, k, v);
    ghost var splits;
    err, splits := InsertLevel(heap, head, key, v, 1, 0);
    if err {
      NotInserted(t, Snap(heap, head), m);
      LoweredKeys(t, Snap(heap, head));
    } else {
      Inserted(t, Snap(heap, head), m, k, v);
      head.contents := m[k := v];
    }
  }

  lemma LoweredKeys(t: Tree, t': Tree)
    requires Lowered(t, t', 1)
    ensures t'.mem.Keys == t.mem.Keys
  {
  }

  ghost predicate IsMin(m: map<nat, nat>, k: nat) {
    k in m && forall x :: x in m ==> k <= x
  }

  ghost predicate IsMax(m: map<nat, nat>, k: nat) {
    k in m && forall x :: x in m ==> x <= k
  }

  /** The leaf that holds the smallest key has an unused slot. */
  ghost predicate RoomAtEnd(t: Tree) {
    exists q, j :: Least(t, q, j) && Fill(t.mem[q]) < t.n
  }

  lemma LeastUnique(t: Tree, p: Ptr, i: nat, q: Ptr, j: nat)
    requires Inv(t, 1) && Least(t, p, i) && Least(t, q, j)
    ensures p == q
  {
    assert NodeOk(t, p) && NodeOk(t, q);
    var a, b := (t.mem[p].keys[i], t.mem[p].vals[i]), (t.mem[q].keys[j], t.mem[q].vals[j]);
    assert a in Ents(t.mem[p]) && b in Ents(t.mem[q]);
    assert a in Entries(t, 1) && b in Entries(t, 1);
    SameNode(t, 1, p, q, a.0);
  }

  /** What `btree_remove` does to the map. The absent key 0 is the exception: when the leaf with the
      smallest key has an unused slot, that slot is taken for it and the smallest entry goes. */
  ghost predicate RemoveSpec(t: Tree, m: map<nat, nat>, m': map<nat, nat>, k: nat, ret: nat) {
    if k in m then ret == m[k] && m' == m - {k}
    else ret == 0 && if k == 0 && RoomAtEnd(t) then exists x :: IsMin(m, x) && m' == m - {x} else m' == m
  }

  /** Removing an absent key leaves the map alone exactly when the exception does not apply. */
  lemma AbsentUnchanged(t: Tree, m: map<nat, nat>, m': map<nat, nat>, k: nat, ret: nat)
    requires RemoveSpec(t, m, m', k, ret) && k !in m
    ensures m' == m <==> !(k == 0 && RoomAtEnd(t))
  {
    if k == 0 && RoomAtEnd(t) {
      var x :| IsMin(m, x) && m' == m - {x};
      assert x in m && x !in m';
    }
  }

  /** A tree of one leaf. */
  ghost function OneLeaf(span: nat, nd: Node): Tree {
    Tree(|nd.keys|, span, map[1 := nd], map[1 := Info(1, 0, span, 0, 0)], 1, 1)
  }

  lemma OneLeafHolds(span: nat, nd: Node, m: map<nat, nat>)
    requires 4 <= |nd.keys| == |nd.vals| && Packed(|nd.keys|, nd) && Descending(nd) && 0 < Fill(nd) &&
      Ents(nd) == m.Items
    requires forall i :: 0 <= i < |nd.keys| ==> nd.keys[i] < span
    ensures Holding(OneLeaf(span, nd), m) && Entries(OneLeaf(span, nd), 1) == m.Items
    ensures Has(OneLeaf(span, nd), 1)
  {
    var t := OneLeaf(span, nd);
    assert nd.keys[0] < span;
    assert Has(t, 1) && Linked(t, 1);
    assert NodeOk(t, 1);
    assert Base(t);
    hide Fill;
    assert Inv(t, 1);
    assert Filled(t, 1, 0);
    forall e | e in Ents(nd)
      ensures e in Entries(t, 1)
    {
      assert 1 in t.info && Has(t, 1) && t.info[1].level == 1 && e in Ents(t.mem[1]);
    }
    assert Entries(t, 1) == Ents(nd);
  }

  /** One leaf with the single key 5: removing the absent key 0 empties the tree. */
  lemma AbsentZeroExample(m': map<nat, nat>, ret: nat)
    ensures var t := OneLeaf(10, Node([5, 0, 0, 0], [7, 0, 0, 0]));
            Holding(t, map[5 := 7]) && (RemoveSpec(t, map[5 := 7], m', 0, ret) ==> m' == map[] && ret == 0)
  {
    var nd := Node([5, 0, 0, 0], [7, 0, 0, 0]);
    var t := OneLeaf(10, nd);
    FillIs(nd, 1);
    assert nd.vals[0] == 7 && nd.keys[0] == 5;
    assert Ents(nd) == {(5, 7)};
    var m: map<nat, nat> := map[];
    ItemsAdd(m, 5, 7);
    assert m[5 := 7] == map[5 := 7];
    OneLeafHolds(10, nd, map[5 := 7]);
    assert Least(t, 1, 0) && Fill(t.mem[1]) < t.n;
    assert RoomAtEnd(t);
  }

  /** One full leaf whose first value is 5: removing the absent key 5 runs outside the leaf. */
  lemma OverrunExample()
    ensures var t := OneLeaf(10, Node([9, 8, 7, 6], [5, 1, 1, 1]));
            Holding(t, map[9 := 5, 8 := 1, 7 := 1, 6 := 1]) && Overrun(t, 5)
  {
    hide Ents, Inv, Filled, Entries, Fill, Holding, Descending, Packed, Pos;
    var nd := Node([9, 8, 7, 6], [5, 1, 1, 1]);
    FourFacts(nd);
    OneLeafHolds(10, nd, map[9 := 5, 8 := 1, 7 := 1, 6 := 1]);
    PosBehind(nd, 5);
  }

  lemma FourFacts(nd: Node)
    requires nd == Node([9, 8, 7, 6], [5, 1, 1, 1])
    ensures Packed(4, nd) && Descending(nd) && Fill(nd) == 4 && (forall i :: 0 <= i < 4 ==> 5 < nd.keys[i] < 10)
    ensures var m: map<nat, nat> := map[9 := 5, 8 := 1, 7 := 1, 6 := 1]; Ents(nd) == m.Items
  {
    assert nd.vals[0] == 5 && nd.vals[1] == 1 && nd.vals[2] == 1 && nd.vals[3] == 1;
    assert nd.keys[0] == 9 && nd.keys[1] == 8 && nd.keys[2] == 7 && nd.keys[3] == 6;
    FillIs(nd, 4);
    FourEnts(nd);
    FourItems();
    hide Ents;
  }

  lemma FourItems()
    ensures var m: map<nat, nat> := map[9 := 5, 8 := 1, 7 := 1, 6 := 1]; m.Items == {(9, 5), (8, 1), (7, 1), (6, 1)}
  {
    var m0: map<nat, nat> := map[];
    var m1, m2, m3 := m0[9 := 5], m0[9 := 5][8 := 1], m0[9 := 5][8 := 1][7 := 1];
    ItemsAdd(m0, 9, 5);
    ItemsAdd(m1, 8, 1);
    ItemsAdd(m2, 7, 1);
    ItemsAdd(m3, 6, 1);
    var m: map<nat, nat> := map[9 := 5, 8 := 1, 7 := 1, 6 := 1];
    assert m == m3[6 := 1];
  }

  lemma PosBehind(nd: Node, k: nat)
    requires |nd.keys| == |nd.vals| && forall i :: 0 <= i < |nd.keys| ==> nd.keys[i] > k
    ensures Pos(nd, k) == |nd.keys|
  {
  }

  lemma FourEnts(nd: Node)
    requires |nd.keys| == |nd.vals| == 4 && forall i :: 0 <= i < 4 ==> nd.vals[i] != 0
    ensures Ents(nd) == {(nd.keys[0], nd.vals[0]), (nd.keys[1], nd.vals[1]), (nd.keys[2], nd.vals[2]),
      (nd.keys[3], nd.vals[3])}
  {
  }

  /** The map after a removal. */
  ghost function After(t: Tree, m: map<nat, nat>, hit: bool, p: Ptr, i: nat): map<nat, nat> {
    if hit && Has(t, p) && i < t.n then m - {t.mem[p].keys[i]} else m
  }

  lemma GoneEntry(t: Tree, m: map<nat, nat>, p: Ptr, i: nat)
    requires Entries(t, 1) == m.Items && Has(t, p) && t.info[p].level == 1 && i < Fill(t.mem[p]) && i < t.n
    ensures t.mem[p].keys[i] in m && m[t.mem[p].keys[i]] == t.mem[p].vals[i]
    ensures Least(t, p, i) ==> IsMin(m, t.mem[p].keys[i])
  {
    var e := (t.mem[p].keys[i], t.mem[p].vals[i]);
    assert e in Ents(t.mem[p]);
    assert e in Entries(t, 1);
    assert e in m.Items;
    if Least(t, p, i) {
      forall x | x in m
        ensures e.0 <= x
      {
        assert (x, m[x]) in m.Items;
        assert (x, m[x]) in Entries(t, 1);
      }
    }
  }

  lemma AnswerSpec(t: Tree, m: map<nat, nat>, k: nat, ret: nat, hit: bool, p: Ptr, i: nat)
    requires Holding(t, m) && Answer(t, k, ret, hit, false, p, i)
    ensures RemoveSpec(t, m, After(t, m, hit, p, i), k, ret)
  {
    if hit {
      GoneEntry(t, m, p, i);
    }
    if k in m {
      assert (k, m[k]) in m.Items;
      assert (k, m[k]) in Entries(t, 1);
    } else if k == 0 && !hit && RoomAtEnd(t) {
      var q, j :| Least(t, q, j) && Fill(t.mem[q]) == t.n;
      var q', j' :| Least(t, q', j') && Fill(t.mem[q']) < t.n;
      LeastUnique(t, q, j, q', j');
    }
  }

  lemma AnswerHolds(t: Tree, t': Tree, m: map<nat, nat>, k: nat, ret: nat, hit: bool, over: bool, p: Ptr, i: nat)
    requires Holding(t, m) && RemoveResult(t, t', 1, Imm(k), 0, 0, ret, hit, over, p, i)
    ensures Holding(t', After(t, m, hit, p, i)) && OthersKept(t, t')
  {
    if hit {
      GoneEntry(t, m, p, i);
      ItemsRemove(m, t.mem[p].keys[i]);
      BelowOthers(t, t');
      hide Inv, Filled, Below, Least;
    } else {
      NotInserted(t, t', m);
    }
  }

  lemma EmptyTree(t: Tree, m: map<nat, nat>)
    requires Holding(t, m)
    ensures t.height == 0 <==> m == map[]
    ensures t.height == 0 ==> !RoomAtEnd(t) && t.root == 0 && t.info == map[]
    ensures t.height > 0 <==> t.root != 0
  {
    assert Base(t);
    if t.height > 0 {
      var p := t.root;
      Walk.FlatIsEntries(t);
      assert Fill(t.mem[p]) >= 1;
      var q := Leftmost(t, p);
      var e := (t.mem[q].keys[0], t.mem[q].vals[0]);
      assert e in Ents(t.mem[q]);
      assert e in m.Items;
    } else {
      assert Entries(t, 1) == {};
      assert |m| == |m.Items|;
    }
  }

  /** The left-most leaf below `p`. */
  ghost function Leftmost(t: Tree, p: Ptr): (q: Ptr)
    requires Inv(t, 1) && Filled(t, 1, 0) && Has(t, p)
    ensures Has(t, q) && t.info[q].level == 1 && 0 < Fill(t.mem[q])
    decreases t.info[p].level
  {
    assert Base(t) && p != 0;
    if t.info[p].level <= 1 then p else Walk.ChildOf(t, p, 0); Leftmost(t, t.mem[p].vals[0])
  }

  /** `btree_remove`. It runs outside a leaf exactly when the key is absent, its leaf is full, all keys
      there are larger, and the first value of the leaf equals the key. */
  method Remove(heap: Heap, head: Head, k: nat) returns (ret: nat, over: bool)
    requires Valid(heap, head) && k < heap.span
    modifies heap, heap.repr, head
    ensures Valid(heap, head) && heap.repr == old(heap.repr)
    ensures OthersKept(old(Snap(heap, head)), Snap(heap, head))
    ensures over <==> k !in old(head.contents) && old(Overrun(Snap(heap, head), k))
    ensures over ==> head.contents == old(head.contents)
    ensures !over ==> RemoveSpec(old(Snap(heap, head)), old(head.contents), head.contents, k, ret)
  {
    hide heap.Valid, Holding, RemoveSpec, Inv, OthersKept, RoomAtEnd, After, RemoveResult, Answer, Absent, Overrun;
    ghost var t := Snap(heap, head);
    ghost var m := head.contents;
    EmptyTree(t, m);
    if head.height == 0 {
      NothingRemoved(t, m, k);
      return 0, false;
    }
    ghost var hit, p, i;
    RemoveStarts(t, m, k);
    ret, over, hit, p, i := RemoveLevel(heap, head, Imm(k), 1, 0, 0);
    ResultAnswer(t, Snap(heap, head), m, k, ret, hit, over, p, i);
    if !over {
      AnswerSpec(t, m, k, ret, hit, p, i);
    }
    AnswerHolds(t, Snap(heap, head), m, k, ret, hit, over, p, i);
    head.contents := After(t, m, hit, p, i);
  }

  lemma NothingRemoved(t: Tree, m: map<nat, nat>, k: nat)
    requires Holding(t, m) && m == map[] && t.root == 0 && !RoomAtEnd(t)
    ensures RemoveSpec(t, map[], map[], k, 0) && OthersKept(t, t) && (t.height == 0 ==> !Overrun(t, k))
  {
    assert Base(t);
  }

  lemma RemoveStarts(t: Tree, m: map<nat, nat>, k: nat)
    requires Holding(t, m) && t.height > 0 && k < t.span
    ensures RemovePre(t, 1, Imm(k), 0, 0)
  {
    hide Inv, Filled;
  }

  lemma AbsentIs(t: Tree, m: map<nat, nat>, k: nat)
    requires Entries(t, 1) == m.Items
    ensures Absent(t, k) <==> k !in m
  {
    if k in m {
      assert (k, m[k]) in m.Items;
    }
  }

  lemma ResultAnswer(t: Tree, t': Tree, m: map<nat, nat>, k: nat, ret: nat, hit: bool, over: bool, p: Ptr, i: nat)
    requires RemoveResult(t, t', 1, Imm(k), 0, 0, ret, hit, over, p, i) && Holding(t, m)
    ensures Answer(t, k, ret, hit, over, p, i)
    ensures over <==> k !in m && Overrun(t, k)
    ensures over ==> After(t, m, hit, p, i) == m
  {
    AbsentIs(t, m, k);
    hide Absent, Overrun, Removed, Inv, Filled, Entries, Least;
  }

  /** Where a stored key can be: below any node whose range it falls into. */
  lemma KeyBelow(t: Tree, m: map<nat, nat>, k: nat, p: Ptr)
    requires Holding(t, m) && Has(t, p) && t.info[p].lo <= k < t.info[p].hi && k in m && t.info[p].level > 1
    ensures Pos(t.mem[p], k) < Fill(t.mem[p]) <= t.n
    ensures var c := t.mem[p].vals[Pos(t.mem[p], k)];
      Has(t, c) && t.info[c].level + 1 == t.info[p].level && t.info[c].lo <= k < t.info[c].hi
  {
    var l := t.info[p].level;
    assert (k, m[k]) in Entries(t, 1);
    var r :| r in t.info && Has(t, r) && t.info[r].level == 1 && (k, m[k]) in Ents(t.mem[r]);
    EntInRange(t, 1, r, (k, m[k]));
    assert Base(t) && NodeOk(t, p);
    var c := Walk.Anc(t, r, l - 1);
    Walk.AncStep(t, r, l);
    Walk.ParentOf(t, c);
    SameNode(t, 1, p, Walk.Anc(t, r, l), k);
    assert t.info[c].up == p;
    assert Pos(t.mem[p], k) == t.info[c].at;
  }

  /** In its leaf a stored key is found, and an absent key finds nothing or an unused slot. */
  lemma KeyInLeaf(t: Tree, m: map<nat, nat>, k: nat, p: Ptr, i: nat)
    requires Holding(t, m) && Has(t, p) && t.info[p].level == 1 && i <= t.n
    requires k in m ==> t.info[p].lo <= k < t.info[p].hi
    requires forall j :: 0 <= j < i ==> t.mem[p].keys[j] != k
    ensures i < t.n && t.mem[p].keys[i] == k ==> t.mem[p].vals[i] == if k in m then m[k] else 0
    ensures i == t.n ==> k !in m
  {
    assert NodeOk(t, p);
    if i < Fill(t.mem[p]) {
      GoneEntry(t, m, p, i);
    }
    if k in m {
      assert (k, m[k]) in Entries(t, 1);
      var r :| r in t.info && Has(t, r) && t.info[r].level == 1 && (k, m[k]) in Ents(t.mem[r]);
      EntInRange(t, 1, r, (k, m[k]));
      SameNode(t, 1, p, r, k);
      var j :| 0 <= j < t.n && t.mem[p].vals[j] != 0 && (k, m[k]) == (t.mem[p].keys[j], t.mem[p].vals[j]);
      assert j < Fill(t.mem[p]);
    }
  }

  lemma RootRange(t: Tree, m: map<nat, nat>, k: nat)
    requires Holding(t, m) && t.height > 0 && k in m
    ensures t.root in t.info && t.info[t.root].lo <= k < t.info[t.root].hi
  {
    assert (k, m[k]) in Entries(t, 1);
    var r :| r in t.info && Has(t, r) && t.info[r].level == 1 && (k, m[k]) in Ents(t.mem[r]);
    EntInRange(t, 1, r, (k, m[k]));
    assert Base(t);
    Walk.AncTop(t, r);
    var a := Walk.Anc(t, r, t.height);
  }

  /** `btree_lookup` has reached node `p` of level `h`: if the key is stored, it is below. */
  ghost predicate Toward(t: Tree, m: map<nat, nat>, k: nat, p: Ptr, h: nat) {
    Holding(t, m) && Has(t, p) && 1 <= h == t.info[p].level && (k in m ==> t.info[p].lo <= k < t.info[p].hi)
  }

  lemma LookupStart(t: Tree, m: map<nat, nat>, k: nat)
    requires Holding(t, m) && t.height > 0
    ensures Toward(t, m, k, t.root, t.height) && t.root != 0
  {
    assert Base(t) && Has(t, t.root);
    if k in m {
      RootRange(t, m, k);
    }
  }

  lemma LookupStep(t: Tree, m: map<nat, nat>, k: nat, p: Ptr, h: nat)
    requires Toward(t, m, k, p, h) && h > 1
    ensures Has(t, p) && var i := Pos(t.mem[p], k);
            && (i == t.n || t.mem[p].vals[i] == 0 ==> k !in m)
            && (i < t.n && t.mem[p].vals[i] != 0 ==> Toward(t, m, k, t.mem[p].vals[i], h - 1))
  {
    var i := Pos(t.mem[p], k);
    assert NodeOk(t, p);
    if k in m {
      KeyBelow(t, m, k, p);
    }
    if i < t.n && t.mem[p].vals[i] != 0 {
      assert i < Fill(t.mem[p]);
      Walk.ChildOf(t, p, i);
      assert Base(t);
    }
    hide Inv, Filled, NodeOk;
  }

  /** `btree_lookup`: agrees with the map on every key, 0 included. */
  method Lookup(heap: Heap, head: Head, k: nat) returns (v: nat)
    requires Valid(heap, head)
    ensures v == if k in head.contents then head.contents[k] else 0
  {
    hide heap.Valid, Holding, Toward, Fill, Pos;
    ghost var t := Snap(heap, head);
    ghost var m := head.contents;
    EmptyTree(t, m);
    if head.height == 0 {
      return 0;
    }
    LookupStart(t, m, k);
    var node := head.node;
    var height := head.height;
    while height > 1
      invariant Toward(t, m, k, node, height) && 1 <= height
    {
      LookupStep(t, m, k, node, height);
      var i := GetPos(heap, node, k);
      if i == heap.n {
        return 0;
      }
      node := heap.GetVal(node, i);
      if node == 0 {
        return 0;
      }
      height := height - 1;
    }
    v := LookupLeaf(heap, head, node, k);
  }

  /** The last loop of `btree_lookup`. */
  method LookupLeaf(heap: Heap, head: Head, node: Ptr, k: nat) returns (v: nat)
    requires heap.Valid() && Toward(Snap(heap, head), head.contents, k, node, 1)
    ensures v == if k in head.contents then head.contents[k] else 0
  {
    ghost var t := Snap(heap, head);
    ghost var m := head.contents;
    assert Has(t, node);
    hide heap.Valid, Holding, Fill;
    var i := 0;
    while i < heap.n
      invariant i <= heap.n
      invariant forall j :: 0 <= j < i ==> t.mem[node].keys[j] != k
    {
      KeyInLeaf(t, m, k, node, i);
      var key := heap.GetKey(node, i);
      if key == k {
        v := heap.GetVal(node, i);
        return;
      }
      i := i + 1;
    }
    KeyInLeaf(t, m, k, node, heap.n);
    v := 0;
  }

  /** No node of its level lies to the left of `p`. */
  ghost predicate First(t: Tree, p: Ptr) {
    Has(t, p) && forall q :: q in t.info && t.info[q].level == t.info[p].level && q != p ==>
        t.info[q].hi <= t.info[p].lo
  }

  lemma FirstChild(t: Tree, m: map<nat, nat>, p: Ptr)
    requires Holding(t, m) && First(t, p) && t.info[p].level > 1
    ensures 0 < t.n && First(t, t.mem[p].vals[0]) && t.info[t.mem[p].vals[0]].level + 1 == t.info[p].level
  {
    assert Base(t) && p != 0 && Fill(t.mem[p]) >= 2;
    assert NodeOk(t, p);
    Walk.ChildOf(t, p, 0);
    var c := t.mem[p].vals[0];
    forall q | q in t.info && t.info[q].level == t.info[c].level && q != c
      ensures t.info[q].hi <= t.info[c].lo
    {
      Walk.ParentOf(t, q);
    }
  }

  lemma FirstKey(t: Tree, m: map<nat, nat>, p: Ptr)
    requires Holding(t, m) && First(t, p) && t.info[p].level == 1
    ensures 0 < t.n && IsMax(m, t.mem[p].keys[0])
  {
    assert Base(t) && p != 0 && Fill(t.mem[p]) >= 1;
    assert NodeOk(t, p);
    GoneEntry(t, m, p, 0);
    forall x | x in m
      ensures x <= t.mem[p].keys[0]
    {
      assert (x, m[x]) in Entries(t, 1);
      var r :| r in t.info && Has(t, r) && t.info[r].level == 1 && (x, m[x]) in Ents(t.mem[r]);
      EntInRange(t, 1, r, (x, m[x]));
      if r == p {
        var j :| 0 <= j < t.n && t.mem[p].vals[j] != 0 && (x, m[x]) == (t.mem[p].keys[j], t.mem[p].vals[j]);
        assert j < Fill(t.mem[p]);
      }
    }
  }

  lemma FirstRoot(t: Tree, m: map<nat, nat>)
    requires Holding(t, m) && t.height > 0
    ensures First(t, t.root) && Has(t, t.root) && t.info[t.root].level == t.height
  {
    assert Base(t);
  }

  /** `btree_last`: a pointer to the largest key, in the tree itself. */
  method Last(heap: Heap, head: Head) returns (key: Option<KeyRef>)
    requires Valid(heap, head)
    ensures key.None? <==> head.contents == map[]
    ensures key.Some? ==>
      key.value.Slot? && key.value.p in head.info && RefOk(heap.mem, key.value) &&
      IsMax(head.contents, KeyAt(heap.mem, key.value))
  {
    hide heap.Valid, Holding, First, IsMax;
    ghost var t := Snap(heap, head);
    ghost var m := head.contents;
    EmptyTree(t, m);
    if head.height == 0 {
      return None;
    }
    FirstRoot(t, m);
    var node := head.node;
    var height := head.height;
    while height > 1
      invariant First(t, node) && Has(t, node) && 1 <= height == t.info[node].level
    {
      FirstChild(t, m, node);
      node := heap.GetVal(node, 0);
      FirstHas(t, node);
      height := height - 1;
    }
    FirstKey(t, m, node);
    key := Some(Slot(node, 0));
  }

  lemma FirstHas(t: Tree, p: Ptr)
    requires First(t, p)
    ensures Has(t, p)
  {
  }

  lemma EntryFacts(t: Tree, m: map<nat, nat>, k: nat)
    requires Holding(t, m) && k in m
    ensures m[k] != 0 && k < t.span
  {
    assert (k, m[k]) in Entries(t, 1);
    var r :| r in t.info && Has(t, r) && t.info[r].level == 1 && (k, m[k]) in Ents(t.mem[r]);
    EntInRange(t, 1, r, (k, m[k]));
    assert NodeOk(t, r);
  }

  /** Two trees over disjoint key sets in one memory. */
  ghost predicate Pair(a: Tree, b: Tree, ma: map<nat, nat>, mb: map<nat, nat>) {
    && Holding(a, ma) && Holding(b, mb) && a.mem == b.mem && a.n == b.n && a.span == b.span
    && a.info.Keys !! b.info.Keys && ma.Keys !! mb.Keys
  }

  lemma HoldingBase(t: Tree, m: map<nat, nat>)
    requires Holding(t, m)
    ensures Base(t)
  {
  }

  /** One turn of the loop of `btree_merge`: an entry enters one tree and leaves the other. */
  lemma PairInsert(a: Tree, a': Tree, b: Tree, ma: map<nat, nat>, ma': map<nat, nat>, mb: map<nat, nat>, p: Ptr)
    requires Pair(a, b, ma, mb) && Holding(a', ma') && OthersKept(a, a') && p in b.info
    ensures Holding(b.(mem := a'.mem), mb) && a'.info.Keys !! b.info.Keys && a'.n == b.n && a'.span == b.span
    ensures p in a.mem && p in a'.mem && a'.mem[p] == a.mem[p]
  {
    HoldingBase(a', ma');
    HoldingBase(b, mb);
    ApartKept(a, a', b, mb);
  }

  lemma PairRemove(a: Tree, b: Tree, b': Tree, ma: map<nat, nat>, mb': map<nat, nat>)
    requires Holding(a, ma) && a.mem == b.mem && a.n == b.n && a.info.Keys !! b.info.Keys && Holding(b', mb') &&
      OthersKept(b, b')
    ensures Holding(a.(mem := b'.mem), ma) && a.info.Keys !! b'.info.Keys
  {
    HoldingBase(b', mb');
    ApartKept(b, b', a, ma);
  }

  lemma UnionKept(ma: map<nat, nat>, mb: map<nat, nat>, k: nat)
    requires k in mb && k !in ma
    ensures ma[k := mb[k]] + (mb - {k}) == ma + mb
  {
  }

  ghost predicate BothValid(heap: Heap, target: Head, victim: Head)
    reads heap, heap.repr, target, victim
  {
    heap.Valid() && target != victim && Pair(Snap(heap, target), Snap(heap, victim), target.contents, victim.contents)
  }

  /** Memory outside both trees is left alone, and no node is leaked. */
  ghost predicate Elsewhere(a: Tree, b: Tree, a': Tree, b': Tree) {
    && a'.mem == b'.mem && a.mem == b.mem
    && (forall p {:trigger a'.mem[p]} {:trigger p in a'.mem} ::
          p in a.mem && p !in a.info && p !in b.info ==> p in a'.mem && a'.mem[p] == a.mem[p])
    && a'.mem.Keys - a'.info.Keys - b'.info.Keys == a.mem.Keys - a.info.Keys - b.info.Keys
  }

  lemma ElsewhereInsert(a: Tree, a': Tree, b: Tree, b': Tree)
    requires OthersKept(a, a') && a.mem == b.mem && b' == b.(mem := a'.mem)
    ensures Elsewhere(a, b, a', b')
  {
  }

  lemma ElsewhereRemove(a: Tree, b: Tree, b': Tree, a': Tree)
    requires OthersKept(b, b') && a.mem == b.mem && a' == a.(mem := b'.mem)
    ensures Elsewhere(a, b, a', b')
  {
    assert b'.mem.Keys - a.info.Keys - b'.info.Keys == (b'.mem.Keys - b'.info.Keys) - a.info.Keys;
    assert b.mem.Keys - a.info.Keys - b.info.Keys == (b.mem.Keys - b.info.Keys) - a.info.Keys;
  }

  lemma ElsewhereTrans(a: Tree, b: Tree, a1: Tree, b1: Tree, a2: Tree, b2: Tree)
    requires Elsewhere(a, b, a1, b1) && Elsewhere(a1, b1, a2, b2)
    ensures Elsewhere(a, b, a2, b2)
  {
    forall p | p in a.mem && p !in a.info && p !in b.info
      ensures p in a2.mem && a2.mem[p] == a.mem[p]
    {
      assert p in a.mem.Keys - a.info.Keys - b.info.Keys;
      assert p in a1.mem.Keys - a1.info.Keys - b1.info.Keys;
    }
  }

  /** Body of the loop of `btree_merge`. */
  method MoveEntry(heap: Heap, target: Head, victim: Head, key: KeyRef) returns (err: bool)
    requires BothValid(heap, target, victim) && key.Slot? && key.p in victim.info && RefOk(heap.mem, key)
    requires KeyAt(heap.mem, key) in victim.contents
    modifies heap, heap.repr, heap.calloc, target, victim
    ensures BothValid(heap, target, victim) && fresh(heap.repr - old(heap.repr))
    ensures err ==> target.contents == old(target.contents) && victim.contents == old(victim.contents)
    ensures Elsewhere(old(Snap(heap, target)), old(Snap(heap, victim)), Snap(heap, target), Snap(heap, victim))
    ensures !err ==>
              var k := old(KeyAt(heap.mem, key));
              && k in old(victim.contents) && k !in old(target.contents)
              && target.contents == old(target.contents)[k := old(victim.contents)[k]] &&
                  victim.contents == old(victim.contents) - {k}
    ensures heap.calloc.refused == old(heap.calloc.refused) + if err then 1 else 0
  {
    hide heap.Valid, Holding, OthersKept, RemoveSpec;
    ghost var a, b := Snap(heap, target), Snap(heap, victim);
    ghost var ma, mb := target.contents, victim.contents;
    ghost var k := KeyAt(heap.mem, key);
    EntryFacts(b, mb, k);
    var key1 := heap.Load(key);
    var val := Lookup(heap, victim, key1);
    err := Insert(heap, target, key, val);
    ghost var a' := Snap(heap, target);
    PairInsert(a, a', b, ma, target.contents, mb, key.p);
    ghost var b1 := b.(mem := a'.mem);
    assert Snap(heap, victim) == b1;
    ElsewhereInsert(a, a', b, b1);
    if err {
      return;
    }
    // `key` points into the victim, so the removal would change it under way
    var duplicate := heap.Load(key);
    var ret, over := Remove(heap, victim, duplicate);
    ghost var b' := Snap(heap, victim);
    RemovePresent(b1, mb, victim.contents, k, ret);
    PairRemove(a', b1, b', target.contents, victim.contents);
    ElsewhereRemove(a', b1, b', Snap(heap, target));
    ElsewhereTrans(a, b, a', b1, Snap(heap, target), b');
  }

  lemma RemovePresent(t: Tree, m: map<nat, nat>, m': map<nat, nat>, k: nat, ret: nat)
    requires RemoveSpec(t, m, m', k, ret) && k in m
    ensures ret == m[k] && m' == m - {k}
  {
  }

  /** `btree_init`. */
  method Init(heap: Heap, head: Head)
    requires heap.Valid() && 4 <= heap.n && 0 < heap.span
    modifies head
    ensures Valid(heap, head) && head.contents == map[] && head.info == map[] && head.node == 0 && head.height == 0
  {
    head.node, head.height, head.info, head.contents := 0, 0, map[], map[];
    EmptyHolds(Snap(heap, head));
  }

  lemma EmptyHolds(t: Tree)
    requires t.root == 0 && t.height == 0 && t.info == map[] && 4 <= t.n && 0 < t.span && forall p :: p in t.mem ==>
      Sized(t.n, t.mem[p])
    ensures Holding(t, map[])
  {
    assert Entries(t, 1) == {};
  }

  lemma PairFacts(a: Tree, b: Tree, ma: map<nat, nat>, mb: map<nat, nat>)
    requires Pair(a, b, ma, mb)
    ensures a.root == 0 ==> ma == map[] && a.info == map[] && a.height == 0
    ensures 4 <= a.n && 0 < a.span && forall p :: p in a.mem ==> Sized(a.n, a.mem[p])
    ensures mb == map[] ==> b.root == 0 && b.height == 0
    ensures Elsewhere(a, b, a, b)
  {
    HoldingBase(a, ma);
    HoldingBase(b, mb);
    EmptyTree(a, ma);
    EmptyTree(b, mb);
    if a.root == 0 && ma != map[] {
      assert false;
    }
  }

  /** The case of an empty target, which takes over root and height. */
  method TakeOver(heap: Heap, target: Head, victim: Head)
    requires BothValid(heap, target, victim) && target.node == 0
    modifies target, victim
    ensures BothValid(heap, target, victim)
    ensures target.contents == old(victim.contents) && victim.contents == map[] && victim.node == 0 &&
      victim.height == 0
    ensures target.node == old(victim.node) && target.height == old(victim.height)
    ensures Elsewhere(old(Snap(heap, target)), old(Snap(heap, victim)), Snap(heap, target), Snap(heap, victim))
  {
    hide heap.Valid, Holding;
    PairFacts(Snap(heap, target), Snap(heap, victim), target.contents, victim.contents);
    target.node, target.height, target.info, target.contents := victim.node, victim.height, victim.info,
        victim.contents;
    victim.node, victim.height, victim.info, victim.contents := 0, 0, map[], map[];
    EmptyHolds(Snap(heap, victim));
  }

  /** The two trees share out the entries `all`, and nothing else in memory changed since they were
      `a` and `b`. */
  ghost predicate Shared(a: Tree, b: Tree, all: map<nat, nat>, a': Tree, b': Tree, ma: map<nat, nat>,
      mb: map<nat, nat>) {
    Pair(a', b', ma, mb) && Elsewhere(a, b, a', b') && ma + mb == all
  }

  lemma SharedStep(a: Tree, b: Tree, all: map<nat, nat>, a1: Tree, b1: Tree, ma: map<nat, nat>, mb: map<nat, nat>,
      a2: Tree, b2: Tree, k: nat)
    requires Shared(a, b, all, a1, b1, ma, mb) && Elsewhere(a1, b1, a2, b2)
    ensures Pair(a2, b2, ma, mb) ==> Shared(a, b, all, a2, b2, ma, mb)
    ensures k in mb && k !in ma && Pair(a2, b2, ma[k := mb[k]], mb - {k}) ==>
      Shared(a, b, all, a2, b2, ma[k := mb[k]], mb - {k})
  {
    hide Pair, Elsewhere;
    ElsewhereTrans(a, b, a1, b1, a2, b2);
    if k in mb && k !in ma {
      UnionKept(ma, mb, k);
    }
  }

  lemma SharedFacts(a: Tree, b: Tree, all: map<nat, nat>, a': Tree, b': Tree, ma: map<nat, nat>, mb: map<nat, nat>)
    requires Shared(a, b, all, a', b', ma, mb)
    ensures Pair(a', b', ma, mb) && (mb == map[] ==> b'.root == 0 && b'.height == 0)
  {
    PairFacts(a', b', ma, mb);
    hide Pair, Elsewhere;
  }

  /** One turn of the loop of `btree_merge`. */
  method MergeTurn(heap: Heap, target: Head, victim: Head, ghost a: Tree, ghost b: Tree, ghost all: map<nat, nat>)
      returns (done: bool, err: bool)
    requires heap.Valid() && target != victim &&
      Shared(a, b, all, Snap(heap, target), Snap(heap, victim), target.contents, victim.contents)
    modifies heap, heap.repr, heap.calloc, target, victim
    ensures heap.Valid() && fresh(heap.repr - old(heap.repr))
    ensures Shared(a, b, all, Snap(heap, target), Snap(heap, victim), target.contents, victim.contents)
    ensures done && !err ==> victim.contents == map[] && victim.node == 0 && victim.height == 0
    ensures err ==> done
    ensures !done ==> |victim.contents| < |old(victim.contents)|
    ensures heap.calloc.refused == old(heap.calloc.refused) + if err then 1 else 0
  {
    hide heap.Valid, Holding, Elsewhere, IsMax, Shared;
    ghost var ma, mb := target.contents, victim.contents;
    ghost var a1, b1 := Snap(heap, target), Snap(heap, victim);
    SharedFacts(a, b, all, a1, b1, ma, mb);
    var key := Last(heap, victim);
    if key.None? {
      return true, false;
    }
    ghost var k := KeyAt(heap.mem, key.value);
    MaxPresent(mb, k);
    err := MoveEntry(heap, target, victim, key.value);
    SharedStep(a, b, all, a1, b1, ma, mb, Snap(heap, target), Snap(heap, victim), k);
    done := err;
  }

  /** `btree_merge`: the target takes all entries of the victim, an empty target its whole tree; when
      an allocation is refused, and only then, the two still share out the same entries. */
  method MergeTrees(heap: Heap, target: Head, victim: Head) returns (err: bool)
    requires BothValid(heap, target, victim)
    modifies heap, heap.repr, heap.calloc, target, victim
    ensures BothValid(heap, target, victim) && fresh(heap.repr - old(heap.repr))
    ensures Elsewhere(old(Snap(heap, target)), old(Snap(heap, victim)), Snap(heap, target), Snap(heap, victim))
    ensures target.contents + victim.contents == old(target.contents + victim.contents)
    ensures !err ==> victim.contents == map[] && victim.node == 0 && victim.height == 0
    ensures heap.calloc.refused == old(heap.calloc.refused) + if err then 1 else 0
    ensures old(target.node) == 0 ==>
      !err && heap.mem == old(heap.mem) && target.node == old(victim.node) && target.height == old(victim.height)
  {
    hide heap.Valid, Pair, Elsewhere, Shared;
    ghost var a, b := Snap(heap, target), Snap(heap, victim);
    ghost var all := target.contents + victim.contents;
    PairFacts(a, b, target.contents, victim.contents);
    if target.node == 0 {
      TakeOver(heap, target, victim);
      return false;
    }
    SharedStart(a, b, all, target.contents, victim.contents);
    err := false;
    var done := false;
    while !done
      invariant heap.Valid() && fresh(heap.repr - old(heap.repr))
      invariant (err ==> done) && heap.calloc.refused == old(heap.calloc.refused) + if err then 1 else 0
      invariant Shared(a, b, all, Snap(heap, target), Snap(heap, victim), target.contents, victim.contents)
      invariant done && !err ==> victim.contents == map[] && victim.node == 0 && victim.height == 0
      invariant old(target.node) != 0
      decreases !done, |victim.contents|
    {
      done, err := MergeTurn(heap, target, victim, a, b, all);
    }
    SharedEnd(a, b, all, Snap(heap, target), Snap(heap, victim), target.contents, victim.contents);
  }

  lemma SharedStart(a: Tree, b: Tree, all: map<nat, nat>, ma: map<nat, nat>, mb: map<nat, nat>)
    requires Pair(a, b, ma, mb) && Elsewhere(a, b, a, b) && ma + mb == all
    ensures Shared(a, b, all, a, b, ma, mb)
  {
  }

  lemma SharedEnd(a: Tree, b: Tree, all: map<nat, nat>, a': Tree, b': Tree, ma: map<nat, nat>, mb: map<nat, nat>)
    requires Shared(a, b, all, a', b', ma, mb)
    ensures Pair(a', b', ma, mb) && Elsewhere(a, b, a', b') && ma + mb == all
  {
  }

  lemma MaxPresent(m: map<nat, nat>, k: nat)
    requires IsMax(m, k)
    ensures k in m && |m - {k}| < |m|
  {
    assert (m - {k}).Keys == m.Keys - {k};
    assert |m - {k}| == |(m - {k}).Keys|;
  }

  datatype Op = Put(k: nat, v: nat) | Del(k: nat)

  /** What a caller expects of an operation; `done` tells whether memory sufficed. */
  function Effect(m: map<nat, nat>, op: Op, done: bool): map<nat, nat> {
    match op
    case Put(k, v) => if done && k !in m then m[k := v] else m
    case Del(k) => m - {k}
  }

  ghost predicate AllDone(done: seq<bool>) {
    forall i :: 0 <= i < |done| ==> done[i]
  }

  lemma AllDoneMore(done: seq<bool>, d: bool)
    ensures AllDone([]) && (AllDone(done + [d]) <==> AllDone(done) && d)
  {
    if AllDone(done + [d]) {
      assert (done + [d])[|done|] == d && forall i :: 0 <= i < |done| ==> (done + [d])[i] == done[i];
    }
  }

  function Effects(m: map<nat, nat>, ops: seq<Op>, done: seq<bool>): map<nat, nat>
    requires |ops| == |done|
  {
    if ops == [] then m else
      var n := |ops| - 1;
      Effect(Effects(m, ops[..n], done[..n]), ops[n], done[n])
  }

  lemma EffectsMore(m: map<nat, nat>, ops: seq<Op>, done: seq<bool>, op: Op, d: bool)
    requires |ops| == |done|
    ensures Effects(m, ops + [op], done + [d]) == Effect(Effects(m, ops, done), op, d)
  {
    assert (ops + [op])[..|ops|] == ops && (done + [d])[..|done|] == done;
  }

  /** One operation the way the callers use the tree: look first, then insert what is absent or remove
      what is present. */
  method Step(heap: Heap, head: Head, op: Op) returns (done: bool)
    requires Valid(heap, head) && op.k < heap.span && (op.Put? ==> op.v != 0)
    modifies heap, heap.repr, heap.calloc, head
    ensures Valid(heap, head) && fresh(heap.repr - old(heap.repr))
    ensures OthersKept(old(Snap(heap, head)), Snap(heap, head))
    ensures head.contents == Effect(old(head.contents), op, done)
    ensures heap.calloc.refused == old(heap.calloc.refused) + if done then 0 else 1
  {
    hide heap.Valid, Holding, OthersKept, RemoveSpec;
    ghost var t := Snap(heap, head);
    ghost var m := head.contents;
    var v := Lookup(heap, head, op.k);
    if op.k in m {
      EntryFacts(t, m, op.k);
    }
    OthersSame(t);
    match op {
      case Put(k, x) =>
        done := true;
        if v == 0 {
          var err := Insert(heap, head, Imm(k), x);
          done := !err;
        }
      case Del(k) =>
        done := true;
        if v != 0 {
          var ret, over := Remove(heap, head, k);
          RemovePresent(t, m, head.contents, k, ret);
        }
    }
  }

  lemma OthersSame(t: Tree)
    ensures OthersKept(t, t)
  {
  }

  /** Any run of operations: the tree stays well formed, so that no BUG is reached, holds what the
      operations say, keeps its height logarithmic, and takes and leaks no memory of others. */
  method Run(heap: Heap, head: Head, ops: seq<Op>) returns (done: seq<bool>)
    requires Valid(heap, head) && forall i :: 0 <= i < |ops| ==> ops[i].k < heap.span && (ops[i].Put? ==> ops[i].v != 0)
    modifies heap, heap.repr, heap.calloc, head
    ensures Valid(heap, head) && |done| == |ops| && head.contents == Effects(old(head.contents), ops, done)
    ensures OthersKept(old(Snap(heap, head)), Snap(heap, head))
    ensures head.height >= 2 ==> |head.contents| >= Walk.Pow2(head.height)
    ensures heap.calloc.refused == old(heap.calloc.refused) <==> AllDone(done)
  {
    hide heap.Valid, Holding, OthersKept, Effect, Effects, AllDone;
    ghost var t := Snap(heap, head);
    ghost var m := head.contents;
    OthersSame(t);
    EffectsNone(m);
    AllDoneMore([], true);
    done := [];
    var i := 0;
    while i < |ops|
      invariant i == |done| <= |ops| && Valid(heap, head) && fresh(heap.repr - old(heap.repr)) && heap.span == t.span
      invariant OthersKept(t, Snap(heap, head)) && head.contents == Effects(m, ops[..i], done)
      invariant old(heap.calloc.refused) <= heap.calloc.refused
      invariant heap.calloc.refused == old(heap.calloc.refused) <==> AllDone(done)
    {
      ghost var t1 := Snap(heap, head);
      var d := Step(heap, head, ops[i]);
      OthersTrans(t, t1, Snap(heap, head));
      EffectsMore(m, ops[..i], done, ops[i], d);
      AllDoneMore(done, d);
      assert ops[..i + 1] == ops[..i] + [ops[i]];
      done := done + [d];
      i := i + 1;
    }
    assert ops[..i] == ops;
    Logarithmic(Snap(heap, head), head.contents);
  }

  lemma EffectsNone(m: map<nat, nat>)
    ensures Effects(m, [], []) == m
  {
  }

  lemma Logarithmic(t: Tree, m: map<nat, nat>)
    requires Holding(t, m)
    ensures t.height >= 2 ==> |m| >= Walk.Pow2(t.height)
  {
    if t.height >= 2 {
      Walk.HeightBound(t, m);
    }
  }
}
