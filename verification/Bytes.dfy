/** Bytes and big-endian numbers. */
module Bytes {
  type byte = x: int | 0 <= x < 256

  function Pow(b: nat, e: nat): nat {
    if e == 0 then 1 else b * Pow(b, e - 1)
  }

  /** `n` as a big-endian number of `w` bytes; higher digits are cut off, as the C casts do. */
  function Be(n: nat, w: nat): (s: seq<byte>)
    ensures |s| == w
  {
    if w == 0 then [] else Be(n / 256, w - 1) + [n % 256]
  }

  function FromBe(s: seq<byte>): nat {
    if s == [] then 0 else 256 * FromBe(s[..|s| - 1]) + s[|s| - 1]
  }

  /** Reading back what `cpu_to_be*` stored gives the number modulo its width. */
  lemma {:induction false} BeRoundTrip(n: nat, w: nat)
    ensures Pow(256, w) > 0 && FromBe(Be(n, w)) == n % Pow(256, w)
  {
    if w > 0 {
      BeRoundTrip(n / 256, w - 1);
      assert Be(n, w)[..w - 1] == Be(n / 256, w - 1);
      DivModStep(n, Pow(256, w - 1));
    } else {
      assert n % 1 == 0;
    }
  }

  lemma DivModStep(n: nat, p: nat)
    requires p > 0
    ensures n % (256 * p) == 256 * ((n / 256) % p) + n % 256
  {
    var q := n / 256 / p;
    var r := 256 * ((n / 256) % p) + n % 256;
    assert n == 256 * (n / 256) + n % 256;
    assert n / 256 == p * q + (n / 256) % p;
    assert n == (256 * p) * q + r by {
      assert 256 * (p * q) == (256 * p) * q;
    }
    assert 0 <= r < 256 * p;
    ModUnique(n, 256 * p, q, r);
  }

  lemma {:induction false} MulStep(m: nat, a: nat, b: nat)
    requires a < b
    ensures m * a + m <= m * b
  {
    assert m * b == m * (b - 1) + m;
    if a + 1 < b {
      MulStep(m, a, b - 1);
    }
  }

  lemma ModUnique(n: nat, m: nat, q: nat, r: nat)
    requires m > 0 && n == m * q + r && r < m
    ensures n / m == q && n % m == r
  {
    var q', r' := n / m, n % m;
    assert n == m * q' + r';
    if q < q' {
      MulStep(m, q, q');
    }
    if q > q' {
      MulStep(m, q', q);
    }
  }

  lemma Pow8()
    ensures Pow(256, 8) == 0x1_0000_0000_0000_0000 && Pow(256, 4) == 0x1_0000_0000 && Pow(256, 2) == 0x1_0000
  {
    assert Pow(256, 1) == 256;
    assert Pow(256, 2) == 256 * Pow(256, 1);
    assert Pow(256, 3) == 256 * Pow(256, 2);
    assert Pow(256, 4) == 256 * Pow(256, 3);
    assert Pow(256, 5) == 256 * Pow(256, 4);
    assert Pow(256, 6) == 256 * Pow(256, 5);
    assert Pow(256, 7) == 256 * Pow(256, 6);
    assert Pow(256, 8) == 256 * Pow(256, 7);
  }

  lemma SliceOfSlice<T>(s: seq<T>, a: nat, b: nat, c: nat, d: nat)
    requires a <= b <= |s| && c <= d <= b - a
    ensures s[a..b][c..d] == s[a + c..a + d]
  {
    var r := s[a..b];
    var x, y := r[c..d], s[a + c..a + d];
    forall i | 0 <= i < |x|
      ensures x[i] == y[i]
    {
      assert x[i] == r[c + i] == s[a + (c + i)];
    }
    assert |x| == |y|;
  }

  /** Sequences with a common prefix have common slices in it. */
  lemma SliceOfPrefix<T>(s: seq<T>, t: seq<T>, end: nat, a: nat, b: nat)
    requires a <= b <= end <= |s| && end <= |t| && s[..end] == t[..end]
    ensures s[a..b] == t[a..b]
  {
    forall i | a <= i < b
      ensures s[i] == t[i]
    {
      assert s[i] == s[..end][i] == t[..end][i];
    }
  }

  /** Numbers that fit are read back unchanged. */
  lemma Be2(n: nat)
    requires n < 0x1_0000
    ensures FromBe(Be(n, 2)) == n
  {
    Pow8();
    BeRoundTrip(n, 2);
    hide FromBe, Be, Pow;
  }

  lemma Be4(n: nat)
    ensures FromBe(Be(n, 4)) == n % 0x1_0000_0000
  {
    Pow8();
    BeRoundTrip(n, 4);
    hide FromBe, Be, Pow;
  }

  lemma Be8(n: nat)
    requires n < 0x1_0000_0000_0000_0000
    ensures FromBe(Be(n, 8)) == n
  {
    Pow8();
    BeRoundTrip(n, 8);
    hide FromBe, Be, Pow;
  }
}
