/** The memory the trees live in: every node is one flat array of longs, keys first, values after
    (btree.c:110-142), reached through its address. */
module Memory {
  import opened Nodes
  import opened Allocation

  /** A key passed by pointer: a caller's own copy, or key slot `i` of node `p` itself. */
  datatype KeyRef = Imm(k: nat) | Slot(p: Ptr, i: nat)

  ghost predicate RefOk(mem: map<Ptr, Node>, r: KeyRef) {
    r.Slot? ==> r.p in mem && r.i < |mem[r.p].keys|
  }

  /** What a key pointer reads right now. */
  ghost function KeyAt(mem: map<Ptr, Node>, r: KeyRef): nat
    requires RefOk(mem, r)
  {
    match r
    case Imm(k) => k
    case Slot(p, i) => mem[p].keys[i]
  }

  /** Array `a` stores the node value `nd`. */
  ghost predicate Holds(n: nat, a: array<nat>, nd: Node)
    reads a
  {
    && a.Length == 2 * n && Sized(n, nd)
    && (forall i {:trigger nd.keys[i]} :: 0 <= i < n ==> nd.keys[i] == a[i])
    && (forall i {:trigger nd.vals[i]} :: 0 <= i < n ==> nd.vals[i] == a[n + i])
  }

  /** The number of nodes in memory. */
  ghost function Count(mem: map<Ptr, Node>): nat {
    |mem.Keys|
  }

  lemma CountAdd(mem: map<Ptr, Node>, p: Ptr, nd: Node)
    requires p !in mem
    ensures Count(mem[p := nd]) == Count(mem) + 1
  {
    assert mem[p := nd].Keys == mem.Keys + {p};
  }

  lemma CountSame(mem: map<Ptr, Node>, mem': map<Ptr, Node>)
    requires mem.Keys == mem'.Keys
    ensures Count(mem) == Count(mem')
  {
  }

  class Heap {
    const n: nat      // geo->no_pairs
    const span: nat   // number of distinct keys of this geometry
    const calloc: Calloc
    var arena: map<Ptr, array<nat>>
    ghost var mem: map<Ptr, Node>
    ghost var repr: set<array<nat>>

    ghost predicate Valid()
      reads this, repr
    {
      && 0 !in arena && mem.Keys == arena.Keys
      && (forall p {:trigger arena[p]} {:trigger mem[p]} :: p in arena ==>
          arena[p] in repr && Holds(n, arena[p], mem[p]))
      && (forall p, q {:trigger arena[p], arena[q]} :: p in arena && q in arena && p != q ==> arena[p] != arena[q])
    }

    lemma SizedAt(p: Ptr)
      requires Valid() && p in mem
      ensures Sized(n, mem[p])
    {
    }

    constructor (n: nat, span: nat, calloc: Calloc)
      ensures Valid() && fresh(repr) && mem == map[]
      ensures this.n == n && this.span == span && this.calloc == calloc
    {
      this.n, this.span, this.calloc := n, span, calloc;
      arena, mem, repr := map[], map[], {};
    }

    /** calloc of one node: a fresh, all-zero node, or 0 when it is refused. */
    method Alloc() returns (p: Ptr)
      requires Valid()
      modifies this, calloc
      ensures Valid() && fresh(repr - old(repr))
      ensures calloc.refused == old(calloc.refused) + if p == 0 then 1 else 0
      ensures p == 0 ==> mem == old(mem)
      ensures p != 0 ==> p !in old(mem) && mem == old(mem)[p := EmptyNode(n)]
    {
      var no := calloc.Refuses();
      if no {
        return 0;
      }
      var q: Ptr := 1;
      ghost var seen := {};
      while q in arena
        invariant q != 0
        invariant seen <= arena.Keys
        invariant forall x :: x in seen <==> 1 <= x < q
        decreases arena.Keys - seen
      {
        seen := seen + {q};
        q := q + 1;
      }
      p := q;
      var a := new nat[2 * n](_ => 0);
      arena := arena[p := a];
      mem := mem[p := EmptyNode(n)];
      repr := repr + {a};
    }

    method Free(p: Ptr)
      requires Valid() && p in mem
      modifies this
      ensures Valid() && repr == old(repr)
      ensures mem == old(mem) - {p}
    {
      arena := arena - {p};
      mem := mem - {p};
    }

    method Load(r: KeyRef) returns (k: nat)
      requires Valid() && RefOk(mem, r)
      ensures k == KeyAt(mem, r)
    {
      match r {
        case Imm(key) => k := key;
        case Slot(p, i) => k := GetKey(p, i);
      }
    }

    method GetKey(p: Ptr, i: nat) returns (k: nat)
      requires Valid() && p in mem && i < n
      ensures Sized(n, mem[p]) && k == mem[p].keys[i]
    {
      k := arena[p][i];
    }

    /** `bkey` of any word of the node: past the keys it reads the values. */
    method GetWord(p: Ptr, i: nat) returns (k: nat)
      requires Valid() && p in mem && i < 2 * n
      ensures Sized(n, mem[p]) && k == if i < n then mem[p].keys[i] else mem[p].vals[i - n]
    {
      k := arena[p][i];
    }

    method GetVal(p: Ptr, i: nat) returns (v: nat)
      requires Valid() && p in mem && i < n
      ensures Sized(n, mem[p]) && v == mem[p].vals[i]
    {
      v := arena[p][n + i];
    }

    method SetKey(p: Ptr, k: nat, i: nat)
      requires Valid() && p in mem && i < n
      modifies this, repr
      ensures Valid() && repr == old(repr)
      ensures Sized(n, old(mem[p]))
      ensures mem == old(mem)[p := Node(old(mem[p]).keys[i := k], old(mem[p]).vals)]
    {
      arena[p][i] := k;
      mem := mem[p := Node(mem[p].keys[i := k], mem[p].vals)];
    }

    method SetVal(p: Ptr, v: nat, i: nat)
      requires Valid() && p in mem && i < n
      modifies this, repr
      ensures Valid() && repr == old(repr)
      ensures Sized(n, old(mem[p]))
      ensures mem == old(mem)[p := Node(old(mem[p]).keys, old(mem[p]).vals[i := v])]
    {
      arena[p][n + i] := v;
      mem := mem[p := Node(mem[p].keys, mem[p].vals[i := v])];
    }

    method ClearPair(p: Ptr, i: nat)
      requires Valid() && p in mem && i < n
      modifies this, repr
      ensures Valid() && repr == old(repr)
      ensures Sized(n, old(mem[p]))
      ensures mem == old(mem)[p := Node(old(mem[p]).keys[i := 0], old(mem[p]).vals[i := 0])]
    {
      hide Valid;
      ghost var m := mem;
      SetKey(p, 0, i);
      SetVal(p, 0, i);
      assert mem == m[p := Node(m[p].keys[i := 0], m[p].vals[i := 0])];
    }

    /** Copy pair `i` of node `src` over pair `j` of node `dst`: the setkey/setval couple. */
    method CopyPair(dst: Ptr, src: Ptr, i: nat, j: nat)
      requires Valid() && src in mem && dst in mem && i < n && j < n
      modifies this, repr
      ensures Valid() && repr == old(repr)
      ensures Sized(n, old(mem[src])) && Sized(n, old(mem[dst]))
      ensures mem == old(mem)[dst :=
        Node(old(mem[dst]).keys[j := old(mem[src]).keys[i]], old(mem[dst]).vals[j := old(mem[src]).vals[i]])]
    {
      hide Valid;
      var k := GetKey(src, i);
      var v := GetVal(src, i);
      ghost var m := mem;
      SetKey(dst, k, j);
      SetVal(dst, v, j);
      assert mem == m[dst := Node(m[dst].keys[j := k], m[dst].vals[j := v])];
    }
  }
}
