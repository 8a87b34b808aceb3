/** Contents of one B+tree node as a value: `n` key slots and `n` value slots, used slots on the
    left, unused slots all zero (btree.c:28-34). */
module Nodes {
  type Ptr = nat  // 0 is NULL

  datatype Node = Node(keys: seq<nat>, vals: seq<nat>)

  ghost predicate Sized(n: nat, nd: Node) {
    |nd.keys| == n && |nd.vals| == n
  }

  function Zeros(n: nat): (z: seq<nat>)
    ensures |z| == n && forall i :: 0 <= i < n ==> z[i] == 0
  {
    seq(n, _ => 0)
  }

  function EmptyNode(n: nat): Node {
    Node(Zeros(n), Zeros(n))
  }

  /** Index of the first unused slot at or after `start`. */
  function FillFrom(vals: seq<nat>, start: nat): (f: nat)
    requires start <= |vals|
    ensures start <= f <= |vals|
    ensures forall i :: start <= i < f ==> vals[i] != 0
    ensures f < |vals| ==> vals[f] == 0
    decreases |vals| - start
  {
    if start == |vals| || vals[start] == 0 then start else FillFrom(vals, start + 1)
  }

  function Fill(nd: Node): (f: nat)
    ensures f <= |nd.vals|
    ensures forall i :: 0 <= i < f ==> nd.vals[i] != 0
    ensures f < |nd.vals| ==> nd.vals[f] == 0
  {
    FillFrom(nd.vals, 0)
  }

  /** Index of the first slot whose key is at most `k`; `|keys|` when there is none. */
  function PosFrom(keys: seq<nat>, k: nat, start: nat): (p: nat)
    requires start <= |keys|
    ensures start <= p <= |keys|
    ensures forall i :: start <= i < p ==> keys[i] > k
    ensures p < |keys| ==> keys[p] <= k
    decreases |keys| - start
  {
    if start == |keys| || keys[start] <= k then start else PosFrom(keys, k, start + 1)
  }

  function Pos(nd: Node, k: nat): (p: nat)
    ensures p <= |nd.keys|
    ensures forall i :: 0 <= i < p ==> nd.keys[i] > k
    ensures p < |nd.keys| ==> nd.keys[p] <= k
  {
    PosFrom(nd.keys, k, 0)
  }

  ghost predicate Packed(n: nat, nd: Node) {
    && Sized(n, nd)
    && forall i :: Fill(nd) <= i < n ==> nd.keys[i] == 0 && nd.vals[i] == 0
  }

  ghost predicate Descending(nd: Node)
    requires |nd.keys| == |nd.vals|
  {
    forall i, j :: 0 <= i < j < Fill(nd) ==> nd.keys[i] > nd.keys[j]
  }

  /** The (key, value) pairs held in the used slots. */
  ghost function Ents(nd: Node): set<(nat, nat)>
    requires |nd.keys| == |nd.vals|
  {
    set i | 0 <= i < |nd.vals| && nd.vals[i] != 0 :: (nd.keys[i], nd.vals[i])
  }

  lemma FillIs(nd: Node, f: nat)
    requires f <= |nd.vals| && (forall i :: 0 <= i < f ==> nd.vals[i] != 0) && (f < |nd.vals| ==> nd.vals[f] == 0)
    ensures Fill(nd) == f
  {
  }

  /** `getfill` started anywhere in the used part finds the end of the used part. */
  lemma {:induction false} FillFromInside(vals: seq<nat>, i: nat, start: nat)
    requires i <= start <= |vals| && start <= FillFrom(vals, i)
    ensures FillFrom(vals, start) == FillFrom(vals, i)
  {
  }

  lemma PosInFill(n: nat, nd: Node, k: nat)
    requires Packed(n, nd)
    ensures Pos(nd, k) <= Fill(nd)
    ensures FillFrom(nd.vals, Pos(nd, k)) == Fill(nd)
  {
    FillFromInside(nd.vals, 0, Pos(nd, k));
  }

  /** The slots from `pos` on shifted one to the right, `x` in the gap. */
  function Insert1(s: seq<nat>, pos: nat, x: nat): (r: seq<nat>)
    requires pos < |s|
    ensures |r| == |s|
    ensures forall i {:trigger r[i]} :: 0 <= i < |s| ==> r[i] == if i < pos then s[i] else if i == pos then x
      else s[i - 1]
  {
    s[..pos] + [x] + s[pos..|s| - 1]
  }

  /** The slots after `pos` shifted one to the left, the last slot cleared. */
  function Remove1(s: seq<nat>, pos: nat): (r: seq<nat>)
    requires pos < |s|
    ensures |r| == |s|
    ensures forall i {:trigger r[i]} :: 0 <= i < |s| ==> r[i] == if i < pos then s[i] else if i + 1 < |s|
      then s[i + 1] else 0
  {
    s[..pos] + s[pos + 1..] + [0]
  }

  /** The first `a` slots, the rest cleared. */
  function Front(s: seq<nat>, a: nat): (r: seq<nat>)
    requires a <= |s|
    ensures |r| == |s|
    ensures forall i {:trigger r[i]} :: 0 <= i < |s| ==> r[i] == if i < a then s[i] else 0
  {
    s[..a] + Zeros(|s| - a)
  }

  /** The slots from `a` on moved to the left end, the rest cleared. */
  function Back(s: seq<nat>, a: nat): (r: seq<nat>)
    requires a <= |s|
    ensures |r| == |s|
    ensures forall i {:trigger r[i]} :: 0 <= i < |s| ==> r[i] == if i + a < |s| then s[i + a] else 0
  {
    s[a..] + Zeros(a)
  }

  /** The first `a` slots of `s`, then the first `b` of `u`, the rest cleared. */
  function Join(s: seq<nat>, a: nat, u: seq<nat>, b: nat): (r: seq<nat>)
    requires a + b <= |s| == |u|
    ensures |r| == |s|
    ensures forall i {:trigger r[i]} :: 0 <= i < |s| ==> r[i] == if i < a then s[i] else if i < a + b then u[i - a]
      else 0
  {
    s[..a] + u[..b] + Zeros(|s| - a - b)
  }

  function InsertAt(nd: Node, pos: nat, k: nat, v: nat): Node
    requires |nd.keys| == |nd.vals| > pos
  {
    Node(Insert1(nd.keys, pos, k), Insert1(nd.vals, pos, v))
  }

  lemma InsertAtFacts(n: nat, nd: Node, k: nat, v: nat)
    requires Packed(n, nd) && Descending(nd) && Fill(nd) < n && v != 0
    requires Pos(nd, k) < Fill(nd) ==> nd.keys[Pos(nd, k)] != k
    ensures Pos(nd, k) <= Fill(nd)
    ensures var nd' := InsertAt(nd, Pos(nd, k), k, v);
            Packed(n, nd') && Descending(nd') && Fill(nd') == Fill(nd) + 1
  {
    hide Insert1;
    var pos := Pos(nd, k);
    PosInFill(n, nd, k);
    FillIs(InsertAt(nd, pos, k, v), Fill(nd) + 1);
  }

  lemma InsertAtEnts(n: nat, nd: Node, pos: nat, k: nat, v: nat)
    requires Packed(n, nd) && pos <= Fill(nd) < n && v != 0
    ensures Ents(InsertAt(nd, pos, k, v)) == Ents(nd) + {(k, v)}
  {
    hide Insert1;
    var nd' := InsertAt(nd, pos, k, v);
    forall e | e in Ents(nd)
      ensures e in Ents(nd')
    {
      var i :| 0 <= i < n && nd.vals[i] != 0 && e == (nd.keys[i], nd.vals[i]);
      var j := if i < pos then i else i + 1;
      assert nd'.vals[j] == nd.vals[i] && nd'.keys[j] == nd.keys[i];
    }
    assert nd'.vals[pos] == v && nd'.keys[pos] == k;
    assert (k, v) in Ents(nd');
    forall e | e in Ents(nd')
      ensures e in Ents(nd) + {(k, v)}
    {
      var i :| 0 <= i < n && nd'.vals[i] != 0 && e == (nd'.keys[i], nd'.vals[i]);
      if i != pos {
        var j := if i < pos then i else i - 1;
        assert nd'.vals[i] == nd.vals[j] && nd'.keys[i] == nd.keys[j];
      }
    }
  }

  function FrontNode(nd: Node, a: nat): Node
    requires |nd.keys| == |nd.vals| >= a
  {
    Node(Front(nd.keys, a), Front(nd.vals, a))
  }

  function BackNode(nd: Node, a: nat): Node
    requires |nd.keys| == |nd.vals| >= a
  {
    Node(Back(nd.keys, a), Back(nd.vals, a))
  }

  function JoinNode(x: Node, a: nat, y: Node, b: nat): Node
    requires |x.keys| == |x.vals| == |y.keys| == |y.vals| >= a + b
  {
    Node(Join(x.keys, a, y.keys, b), Join(x.vals, a, y.vals, b))
  }

  lemma FrontFacts(n: nat, nd: Node, a: nat)
    requires Packed(n, nd) && Descending(nd) && a <= Fill(nd)
    ensures var r := FrontNode(nd, a); Packed(n, r) && Descending(r) && Fill(r) == a
  {
    hide Front;
    FillIs(FrontNode(nd, a), a);
  }

  lemma BackFacts(n: nat, nd: Node, a: nat)
    requires Packed(n, nd) && Descending(nd) && a <= Fill(nd)
    ensures var r := BackNode(nd, a); Packed(n, r) && Descending(r) && Fill(r) == Fill(nd) - a
  {
    hide Back;
    FillIs(BackNode(nd, a), Fill(nd) - a);
  }

  lemma JoinFacts(n: nat, x: Node, a: nat, y: Node, b: nat)
    requires Packed(n, x) && Descending(x) && Packed(n, y) && Descending(y)
    requires a <= Fill(x) && b <= Fill(y) && a + b <= n
    requires 0 < a && 0 < b ==> x.keys[a - 1] > y.keys[0]
    ensures var r := JoinNode(x, a, y, b); Packed(n, r) && Descending(r) && Fill(r) == a + b
  {
    hide Join;
    FillIs(JoinNode(x, a, y, b), a + b);
  }

  lemma FrontBackEnts(n: nat, nd: Node, a: nat)
    requires Packed(n, nd) && Descending(nd) && a <= Fill(nd)
    ensures Ents(FrontNode(nd, a)) + Ents(BackNode(nd, a)) == Ents(nd)
  {
    hide Front, Back;
    var x, y := FrontNode(nd, a), BackNode(nd, a);
    forall e | e in Ents(nd)
      ensures e in Ents(x) + Ents(y)
    {
      var i :| 0 <= i < n && nd.vals[i] != 0 && e == (nd.keys[i], nd.vals[i]);
      if i < a {
        assert x.keys[i] == nd.keys[i] && x.vals[i] == nd.vals[i];
      } else {
        assert y.keys[i - a] == nd.keys[i] && y.vals[i - a] == nd.vals[i];
      }
    }
    forall e | e in Ents(x)
      ensures e in Ents(nd)
    {
      var i :| 0 <= i < n && x.vals[i] != 0 && e == (x.keys[i], x.vals[i]);
      assert x.keys[i] == nd.keys[i] && x.vals[i] == nd.vals[i];
    }
    forall e | e in Ents(y)
      ensures e in Ents(nd)
    {
      var i :| 0 <= i < n && y.vals[i] != 0 && e == (y.keys[i], y.vals[i]);
      assert i + a < n && y.keys[i] == nd.keys[i + a] && y.vals[i] == nd.vals[i + a];
    }
  }

  lemma JoinEnts(n: nat, x: Node, y: Node)
    requires Packed(n, x) && Packed(n, y) && Fill(x) + Fill(y) <= n
    ensures Ents(JoinNode(x, Fill(x), y, Fill(y))) == Ents(x) + Ents(y)
  {
    hide Join;
    var a, r := Fill(x), JoinNode(x, Fill(x), y, Fill(y));
    forall e | e in Ents(x)
      ensures e in Ents(r)
    {
      var i :| 0 <= i < n && x.vals[i] != 0 && e == (x.keys[i], x.vals[i]);
      assert r.keys[i] == x.keys[i] && r.vals[i] == x.vals[i];
    }
    forall e | e in Ents(y)
      ensures e in Ents(r)
    {
      var i :| 0 <= i < n && y.vals[i] != 0 && e == (y.keys[i], y.vals[i]);
      assert r.keys[i + a] == y.keys[i] && r.vals[i + a] == y.vals[i];
    }
    forall e | e in Ents(r)
      ensures e in Ents(x) + Ents(y)
    {
      var i :| 0 <= i < n && r.vals[i] != 0 && e == (r.keys[i], r.vals[i]);
      if i < a {
        assert r.keys[i] == x.keys[i] && r.vals[i] == x.vals[i];
      } else {
        assert r.keys[i] == y.keys[i - a] && r.vals[i] == y.vals[i - a];
      }
    }
  }

  function RemoveAt(nd: Node, pos: nat): Node
    requires |nd.keys| == |nd.vals| > pos
  {
    Node(Remove1(nd.keys, pos), Remove1(nd.vals, pos))
  }

  lemma RemoveAtFacts(n: nat, nd: Node, pos: nat)
    requires Packed(n, nd) && Descending(nd) && pos < Fill(nd)
    ensures var nd' := RemoveAt(nd, pos); Packed(n, nd') && Descending(nd') && Fill(nd') == Fill(nd) - 1
  {
    hide Remove1;
    FillIs(RemoveAt(nd, pos), Fill(nd) - 1);
  }

  lemma RemoveAtEnts(n: nat, nd: Node, pos: nat)
    requires Packed(n, nd) && Descending(nd) && pos < Fill(nd)
    ensures (nd.keys[pos], nd.vals[pos]) in Ents(nd)
    ensures Ents(RemoveAt(nd, pos)) == Ents(nd) - {(nd.keys[pos], nd.vals[pos])}
  {
    hide Remove1;
    var nd' := RemoveAt(nd, pos);
    var gone := (nd.keys[pos], nd.vals[pos]);
    forall e | e in Ents(nd) && e != gone
      ensures e in Ents(nd')
    {
      var i :| 0 <= i < n && nd.vals[i] != 0 && e == (nd.keys[i], nd.vals[i]);
      var j := if i < pos then i else i - 1;
      assert i != pos && nd'.vals[j] == nd.vals[i] && nd'.keys[j] == nd.keys[i];
    }
    forall e | e in Ents(nd')
      ensures e in Ents(nd) && e != gone
    {
      var i :| 0 <= i < n && nd'.vals[i] != 0 && e == (nd'.keys[i], nd'.vals[i]);
      var j := if i < pos then i else i + 1;
      assert j < n && nd'.vals[i] == nd.vals[j] && nd'.keys[i] == nd.keys[j];
      assert j < Fill(nd) && j != pos;
    }
  }
}
