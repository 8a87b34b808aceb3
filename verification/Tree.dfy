/** The invariant of a B+tree, stated level by level so that it can hold from some level upwards
    while the levels below are in the middle of a change. */
module Trees {
  import opened Nodes

  /** Where a node belongs: its level (leaves are level 1), the interval [lo, hi) its keys may
      take, and the parent slot that points to it. */
  datatype Info = Info(level: nat, lo: nat, hi: nat, up: Ptr, at: nat)

  /** One tree head together with the memory it points into. */
  datatype Tree = Tree(n: nat, span: nat, mem: map<Ptr, Node>, info: map<Ptr, Info>, root: Ptr, height: nat)

  ghost predicate Base(t: Tree) {
    && 4 <= t.n && 0 < t.span
    && 0 !in t.info
    && t.info.Keys <= t.mem.Keys
    && (t.height == 0 ==> t.root == 0 && t.info == map[])
    && (t.height > 0 ==> t.root in t.info)
    && (forall p :: p in t.info ==> 1 <= t.info[p].level <= t.height)
    && (forall p :: p in t.info ==> (t.info[p].level == t.height <==> p == t.root))
    && (forall p :: p in t.mem ==> Sized(t.n, t.mem[p]))
  }

  /** A node of the tree, its slots allocated. */
  ghost predicate Has(t: Tree, p: Ptr) {
    p in t.info && p in t.mem && Sized(t.n, t.mem[p])
  }

  ghost predicate NodeOk(t: Tree, p: Ptr) {
    && Has(t, p)
    && Packed(t.n, t.mem[p])
    && Descending(t.mem[p])
    && (forall i :: 0 <= i < Fill(t.mem[p]) ==> t.info[p].lo <= t.mem[p].keys[i] < t.info[p].hi)
    && t.info[p].hi <= t.span
  }

  /** Exclusive upper bound of the keys that slot `i` of `p` stands for. */
  ghost function SlotHi(t: Tree, p: Ptr, i: nat): nat
    requires Has(t, p) && i <= t.n
  {
    if i == 0 then t.info[p].hi else t.mem[p].keys[i - 1]
  }

  /** Slot `i` of `p` points to a child one level down whose interval the slot covers. */
  ghost predicate KidOk(t: Tree, p: Ptr, i: nat) {
    Has(t, p) && i < t.n &&
    var c := t.mem[p].vals[i];
    && c in t.info
    && t.info[c].level + 1 == t.info[p].level
    && t.info[c].up == p
    && t.info[c].at == i
    && t.mem[p].keys[i] <= t.info[c].lo
    && t.info[c].hi <= SlotHi(t, p, i)
  }

  /** The parent slot recorded for `c` exists and points to `c`. */
  ghost predicate Linked(t: Tree, c: Ptr) {
    c in t.info && (c == t.root ||
    var up, at := t.info[c].up, t.info[c].at;
      && Has(t, up)
      && t.info[up].level == t.info[c].level + 1
      && at < Fill(t.mem[up])
      && t.mem[up].vals[at] == c)
  }

  ghost predicate NodesOk(t: Tree, l: nat) {
    forall p {:trigger NodeOk(t, p)} :: p in t.info && t.info[p].level >= l ==> NodeOk(t, p)
  }

  ghost predicate KidsOk(t: Tree, l: nat) {
    forall p, i {:trigger KidOk(t, p, i)} ::
      Has(t, p) && t.info[p].level >= l && t.info[p].level > 1 && 0 <= i < Fill(t.mem[p]) ==> KidOk(t, p, i)
  }

  ghost predicate LinksOk(t: Tree, l: nat) {
    forall c {:trigger Linked(t, c)} :: c in t.info && t.info[c].level + 1 >= l ==> Linked(t, c)
  }

  /** Levels `l` and up are well formed; nothing is said about the nodes below level `l`, except
      that the slots of level `l` point to them. */
  ghost predicate Inv(t: Tree, l: nat) {
    Base(t) && NodesOk(t, l) && KidsOk(t, l) && LinksOk(t, l)
  }

  /** Fill limits from level `l` up, `weak` excepted: two entries, one in a lone leaf. */
  ghost predicate Filled(t: Tree, l: nat, weak: Ptr) {
    forall p {:trigger Has(t, p)} :: Has(t, p) && t.info[p].level >= l && p != weak ==>
      Fill(t.mem[p]) >= (if p == t.root && t.height == 1 then 1 else 2)
  }

  /** All entries of level `l`. */
  ghost function Entries(t: Tree, l: nat): set<(nat, nat)> {
    set p, e | p in t.info && Has(t, p) && t.info[p].level == l && e in Ents(t.mem[p]) :: e
  }

  /** The interval the parent of `c` routes to `c`. */
  ghost function SLo(t: Tree, c: Ptr): nat
    requires Linked(t, c)
  {
    if c == t.root then 0 else t.mem[t.info[c].up].keys[t.info[c].at]
  }

  ghost function SHi(t: Tree, c: Ptr): nat
    requires Linked(t, c)
  {
    if c == t.root then t.span else SlotHi(t, t.info[c].up, t.info[c].at)
  }

  /** Recorded intervals of one level are disjoint. */
  lemma {:induction false} SameNode(t: Tree, l: nat, p: Ptr, q: Ptr, k: nat)
    requires Inv(t, l) && p in t.info && q in t.info
    requires t.info[p].level == t.info[q].level && t.info[p].level + 1 >= l
    requires t.info[p].lo <= k < t.info[p].hi
    requires t.info[q].lo <= k < t.info[q].hi
    ensures p == q
    decreases t.height - t.info[p].level
  {
    if t.info[p].level != t.height {
      var pu, qu := t.info[p].up, t.info[q].up;
      assert Linked(t, p) && Linked(t, q);
      assert KidOk(t, pu, t.info[p].at) && KidOk(t, qu, t.info[q].at);
      assert NodeOk(t, pu) && NodeOk(t, qu);
      SameNode(t, l, pu, qu, k);
    }
  }

  /** What an operation at level `l` leaves alone: the nodes below `l` (`gone` leaves the tree and
      `born` joins it, both at level l - 1), the memory outside the tree, and the parent links of
      all levels below l - 1. No node is leaked or taken from elsewhere. */
  ghost predicate Below(t: Tree, t': Tree, l: nat, gone: set<Ptr>, born: set<Ptr>) {
    && t'.n == t.n && t'.span == t.span
    && (forall p {:trigger t'.info[p]} {:trigger p in t'.info} ::
        p in t.info && p in t.mem && t.info[p].level < l && p !in gone ==>
          && p in t'.info && p in t'.mem && t'.mem[p] == t.mem[p]
          && t'.info[p] == t.info[p].(up := t'.info[p].up, at := t'.info[p].at)
          && (t.info[p].level + 1 < l ==> t'.info[p] == t.info[p]))
    && (forall p {:trigger t.info[p]} {:trigger p in t.info} :: p in t'.info && t'.info[p].level < l && p !in born ==>
        p in t.info && t'.info[p].level == t.info[p].level)
    && (forall p {:trigger t'.mem[p]} {:trigger p in t'.mem} :: p in t.mem && p !in t.info ==>
        p in t'.mem && t'.mem[p] == t.mem[p])
    && t'.mem.Keys - t'.info.Keys == t.mem.Keys - t.info.Keys - born + gone
  }

  /** Every node of level l - 1 keeps at least the key range its slot covered. */
  ghost predicate SlotsKept(t: Tree, t': Tree, l: nat) {
    forall c {:trigger Linked(t', c)} :: c in t.info && Linked(t, c) && t.info[c].level + 1 == l && c in t'.info ==>
      Linked(t', c) && SLo(t', c) <= SLo(t, c) && SHi(t, c) <= SHi(t', c)
  }

  lemma BelowTrans(t0: Tree, t1: Tree, t2: Tree, l: nat, gone: set<Ptr>, born: set<Ptr>)
    requires Below(t0, t1, l, {}, {}) && Below(t1, t2, l, gone, born)
    ensures Below(t0, t2, l, gone, born)
  {
  }

  /** The entries of the nodes `ps`. */
  ghost function Union(t: Tree, ps: set<Ptr>): set<(nat, nat)> {
    set p, e | p in ps && Has(t, p) && e in Ents(t.mem[p]) :: e
  }

  /** The nodes `ps` of level `l` become the nodes `qs`, all other nodes of the level stay. */
  ghost predicate Rearranged(t: Tree, t': Tree, l: nat, ps: set<Ptr>, qs: set<Ptr>) {
    && (forall p {:trigger Has(t', p)} :: Has(t, p) && t.info[p].level == l && p !in ps ==>
          Has(t', p) && t'.info[p].level == l && t'.mem[p] == t.mem[p])
    && (forall p {:trigger Has(t, p)} :: Has(t', p) && t'.info[p].level == l && p !in qs ==>
          Has(t, p) && t.info[p].level == l && t'.mem[p] == t.mem[p])
    && (forall p :: p in ps ==> Has(t, p) && t.info[p].level == l)
    && (forall p :: p in qs ==> Has(t', p) && t'.info[p].level == l)
  }

  lemma UnionOne(t: Tree, p: Ptr)
    requires Has(t, p)
    ensures Union(t, {p}) == Ents(t.mem[p])
  {
  }

  lemma UnionTwo(t: Tree, p: Ptr, q: Ptr)
    requires Has(t, p) && Has(t, q)
    ensures Union(t, {p, q}) == Ents(t.mem[p]) + Ents(t.mem[q])
  {
  }

  lemma UnionEntry(t: Tree, t': Tree, l: nat, ps: set<Ptr>, qs: set<Ptr>, e: (nat, nat))
    requires Rearranged(t, t', l, ps, qs) && e in Union(t', qs)
    ensures e in Entries(t', l)
  {
    var q :| q in qs && Has(t', q) && e in Ents(t'.mem[q]);
    assert t'.info[q].level == l;
  }

  lemma RearrangedEntries(t: Tree, t': Tree, l: nat, ps: set<Ptr>, qs: set<Ptr>, added: set<(nat, nat)>)
    requires Rearranged(t, t', l, ps, qs) && Union(t', qs) == Union(t, ps) + added
    ensures Entries(t', l) == Entries(t, l) + added
  {
    forall e | e in Entries(t', l)
      ensures e in Entries(t, l) + added
    {
      var p :| p in t'.info && Has(t', p) && t'.info[p].level == l && e in Ents(t'.mem[p]);
      if p in qs {
        assert e in Union(t', qs);
      } else {
        assert Has(t, p) && e in Ents(t.mem[p]);
      }
    }
    forall e | e in Entries(t, l)
      ensures e in Entries(t', l)
    {
      var p :| p in t.info && Has(t, p) && t.info[p].level == l && e in Ents(t.mem[p]);
      if p in ps {
        assert e in Union(t, ps);
        UnionEntry(t, t', l, ps, qs, e);
      } else {
        assert Has(t', p) && e in Ents(t'.mem[p]);
      }
    }
    forall e | e in added
      ensures e in Entries(t', l)
    {
      UnionEntry(t, t', l, ps, qs, e);
    }
  }

  /** Same nodes with the same contents on level `l`: the same entries. */
  lemma SameEntries(t: Tree, u: Tree, l: nat)
    requires t.info.Keys == u.info.Keys && t.n == u.n
    requires forall q :: q in t.info ==> u.info[q].level == t.info[q].level
    requires forall q :: q in t.info && t.info[q].level == l ==>
      (q in u.mem <==> q in t.mem) && (q in t.mem ==> u.mem[q] == t.mem[q])
    ensures Entries(u, l) == Entries(t, l)
  {
    assert forall q :: q in t.info && t.info[q].level == l ==> (Has(t, q) <==> Has(u, q));
  }

  /** What rebalancing a level keeps and restores. */
  ghost predicate Rebalanced(t: Tree, t': Tree, l: nat) {
    && Inv(t', l) && Filled(t', l, 0) && Below(t, t', l, {}, {}) && SlotsKept(t, t', l)
    && Entries(t', l) == Entries(t, l) && l <= t'.height <= t.height
  }
}
