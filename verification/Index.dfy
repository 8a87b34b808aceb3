/** Block indices of readwrite.c. A block index is a number in base 512; level `l` of a block tree is
    addressed by its digit `l`, and inner blocks carry indices whose low digits are all ones. */
module Index {
  import opened Bytes

  const FACTOR: nat := 512

  /** `x >> k`. */
  function Shr(x: nat, k: nat): nat {
    if k == 0 then x else Shr(x / 2, k - 1)
  }

  /** Bitwise or. */
  function Or(a: nat, b: nat): nat {
    if a == 0 then b else if b == 0 then a else 2 * Or(a / 2, b / 2) + (if a % 2 == 1 || b % 2 == 1 then 1 else 0)
  }

  lemma {:induction false} ShrIsDiv(x: nat, k: nat)
    ensures Pow(2, k) > 0 && Shr(x, k) == x / Pow(2, k)
  {
    if k > 0 {
      ShrIsDiv(x / 2, k - 1);
      var p := Pow(2, k - 1);
      DivTwice(x, p);
    }
  }

  lemma DivTwice(x: nat, p: nat)
    requires p > 0
    ensures x / 2 / p == x / (2 * p)
  {
    var q, r := x / 2 / p, x / 2 % p;
    assert x / 2 == p * q + r;
    assert x == (2 * p) * q + (2 * r + x % 2) by {
      assert 2 * (p * q) == (2 * p) * q;
    }
    ModUnique(x, 2 * p, q, 2 * r + x % 2);
  }

  lemma OrStep(b: nat, m: nat)
    ensures Or(b, 2 * m + 1) == 2 * Or(b / 2, m) + 1
  {
    assert (2 * m + 1) / 2 == m && (2 * m + 1) % 2 == 1;
  }

  /** Setting the low `k` bits. */
  lemma {:induction false} OrMask(b: nat, k: nat)
    ensures Pow(2, k) > 0 && Or(b, Pow(2, k) - 1) == (Shr(b, k) + 1) * Pow(2, k) - 1
  {
    if k > 0 {
      var p := Pow(2, k - 1);
      OrMask(b / 2, k - 1);
      Mul2(Shr(b, k) + 1, p);
      OrStep(b, p - 1);
      assert Pow(2, k) == 2 * p;
      hide Or, Pow;
    }
  }

  lemma Mul2(h: nat, p: nat)
    ensures h * (2 * p) == 2 * (h * p)
  {
  }

  /** The part of an index above its `l` low digits. */
  function Quot(b: nat, l: nat): nat {
    if l == 0 then b else Quot(b / FACTOR, l - 1)
  }

  function Digit(b: nat, l: nat): (d: nat)
    ensures d < FACTOR
  {
    Quot(b, l) % FACTOR
  }

  /** The index of the level `l` block above `b`. */
  function Canon(b: nat, l: nat): nat
  {
    PowPos(l); (Quot(b, l) + 1) * Pow(FACTOR, l) - 1
  }

  lemma {:induction false} PowPos(l: nat)
    ensures Pow(FACTOR, l) > 0
  {
    if l > 0 {
      PowPos(l - 1);
      assert FACTOR * Pow(FACTOR, l - 1) > 0;
    }
  }

  lemma {:induction false} QuotStep(b: nat, l: nat)
    ensures Quot(b, l + 1) == Quot(b, l) / FACTOR
  {
    if l > 0 {
      QuotStep(b / FACTOR, l - 1);
    }
  }

  lemma FactorOut(q: nat, p: nat)
    ensures q * (FACTOR * p) == FACTOR * (q * p) && (q + 1) * (FACTOR * p) == FACTOR * ((q + 1) * p) &&
      (q + 1) * p == q * p + p
  {
  }

  lemma {:induction false} QuotOfCanon(q: nat, l: nat)
    ensures Pow(FACTOR, l) > 0 && Quot((q + 1) * Pow(FACTOR, l) - 1, l) == q
  {
    PowPos(l);
    if l > 0 {
      var p := Pow(FACTOR, l - 1);
      QuotOfCanon(q, l - 1);
      FactorOut(q, p);
      var x := (q + 1) * Pow(FACTOR, l) - 1;
      assert Pow(FACTOR, l) == FACTOR * p;
      hide Pow;
      assert q * p >= 0;
      ModUnique(x, FACTOR, (q + 1) * p - 1, FACTOR - 1);
    }
  }

  /** The index of an inner block stands for all indices below it, and determines them together with
      the digits: (index of the parent, digit) is as good as the index itself. */
  lemma CanonFacts(b: nat, l: nat)
    ensures Quot(Canon(b, l), l) == Quot(b, l) && Canon(Canon(b, l), l) == Canon(b, l)
    ensures Digit(Canon(b, l), l) == Digit(b, l) && Canon(Canon(b, l), l + 1) == Canon(b, l + 1)
  {
    QuotOfCanon(Quot(b, l), l);
    QuotStep(b, l);
    QuotStep(Canon(b, l), l);
  }

  lemma CanonInjective(b: nat, c: nat, l: nat)
    ensures Canon(b, l) == Canon(c, l) <==> Quot(b, l) == Quot(c, l)
    ensures Canon(b, l) == Canon(c, l) <==> Canon(b, l + 1) == Canon(c, l + 1) && Digit(b, l) == Digit(c, l)
  {
    CanonQuot(b, c, l);
    CanonQuot(b, c, l + 1);
    QuotStep(b, l);
    QuotStep(c, l);
    hide Canon, Quot;
  }

  /** Pointer `i` of the level `l + 1` block with index `k` belongs to the level `l` block with this
      index. */
  function Child(k: nat, l: nat, i: nat): nat {
    PowPos(l); (Quot(k, l + 1) * FACTOR + i + 1) * Pow(FACTOR, l) - 1
  }

  /** Going up one level and down again by the digit leads back. */
  lemma ChildOfCanon(b: nat, l: nat)
    ensures Child(Canon(b, l + 1), l, Digit(b, l)) == Canon(b, l)
  {
    CanonFacts(b, l + 1);
    QuotStep(b, l);
  }

  lemma CanonQuot(b: nat, c: nat, l: nat)
    ensures Canon(b, l) == Canon(c, l) <==> Quot(b, l) == Quot(c, l)
  {
    QuotOfCanon(Quot(b, l), l);
    QuotOfCanon(Quot(c, l), l);
  }

  /** The index with the `h` low digits of `b` and `q` above them. */
  function Rebase(b: nat, q: nat, h: nat): nat {
    if h == 0 then q else FACTOR * Rebase(b / FACTOR, q, h - 1) + b % FACTOR
  }

  lemma {:induction false} RebaseFacts(b: nat, q: nat, h: nat)
    ensures Quot(Rebase(b, q, h), h) == q
    ensures forall i :: 0 <= i < h ==> Digit(Rebase(b, q, h), i) == Digit(b, i)
  {
    if h > 0 {
      var x := Rebase(b, q, h);
      ModUnique(x, FACTOR, Rebase(b / FACTOR, q, h - 1), b % FACTOR);
      RebaseFacts(b / FACTOR, q, h - 1);
      forall i | 0 <= i < h
        ensures Digit(x, i) == Digit(b, i)
      {
        if i > 0 {
          assert Digit(x, i) == Digit(x / FACTOR, i - 1) && Digit(b, i) == Digit(b / FACTOR, i - 1);
        }
      }
    }
  }

  /** Where `Rebase` leads: for `q` 0 the index itself, otherwise past the first 512^h indices. */
  lemma {:induction false} RebaseRange(b: nat, q: nat, h: nat)
    ensures q == 0 && b < Pow(FACTOR, h) ==> Rebase(b, q, h) == b
    ensures q * Pow(FACTOR, h) <= Rebase(b, q, h) < (q + 1) * Pow(FACTOR, h)
    ensures b < Pow(FACTOR, h) ==> Rebase(b, q, h) == q * Pow(FACTOR, h) + b
  {
    if h > 0 {
      var p := Pow(FACTOR, h - 1);
      RebaseRange(b / FACTOR, q, h - 1);
      FactorOut(q, p);
      assert Pow(FACTOR, h) == FACTOR * p && Rebase(b, q, h) == FACTOR * Rebase(b / FACTOR, q, h - 1) + b % FACTOR;
      hide Pow, Rebase;
    }
  }

  lemma {:induction false} RebaseSelf(b: nat, h: nat)
    ensures Rebase(b, Quot(b, h), h) == b
  {
    if h > 0 {
      RebaseSelf(b / FACTOR, h - 1);
    }
  }

  /** Every index below 512^h has a digit path of its own. */
  lemma {:induction false} DigitPath(b: nat, c: nat, h: nat)
    requires b < Pow(FACTOR, h) && c < Pow(FACTOR, h)
    requires forall i :: 0 <= i < h ==> Digit(b, i) == Digit(c, i)
    ensures b == c
  {
    if h > 0 {
      assert Digit(b, 0) == Digit(c, 0);
      forall i | 0 <= i < h - 1
        ensures Digit(b / FACTOR, i) == Digit(c / FACTOR, i)
      {
        assert Digit(b, i + 1) == Digit(c, i + 1);
      }
      DigitPath(b / FACTOR, c / FACTOR, h - 1);
    }
  }

  lemma {:induction false} QuotMono(b: nat, c: nat, l: nat)
    requires b <= c
    ensures Quot(b, l) <= Quot(c, l) && Canon(b, l) <= Canon(c, l)
  {
    if l > 0 {
      QuotMono(b / FACTOR, c / FACTOR, l - 1);
    }
    CanonMono(b, c, l);
  }

  lemma CanonMono(b: nat, c: nat, l: nat)
    requires Quot(b, l) <= Quot(c, l)
    ensures Canon(b, l) <= Canon(c, l)
  {
    hide Quot, Pow;
    var p, x, y := Pow(FACTOR, l), Quot(b, l) + 1, Quot(c, l) + 1;
    if x < y {
      MulStep(p, x, y);
    }
    assert p * x == x * p && p * y == y * p;
  }

  // The C expressions

  lemma {:induction false} ShrAdd(x: nat, j: nat, k: nat)
    ensures Shr(Shr(x, j), k) == Shr(x, j + k)
  {
    if j > 0 {
      ShrAdd(x / 2, j - 1, k);
    }
  }

  lemma {:induction false} PowAdd(j: nat, k: nat)
    ensures Pow(2, j + k) == Pow(2, j) * Pow(2, k)
  {
    if j > 0 {
      PowAdd(j - 1, k);
      assert 2 * (Pow(2, j - 1) * Pow(2, k)) == (2 * Pow(2, j - 1)) * Pow(2, k);
    }
  }

  lemma Nine(x: nat)
    ensures Shr(x, 9) == x / FACTOR && Pow(2, 9) == FACTOR
  {
    assert Pow(2, 1) == 2 && Pow(2, 2) == 4 && Pow(2, 3) == 8 && Pow(2, 4) == 16;
    assert Pow(2, 5) == 32 && Pow(2, 6) == 64 && Pow(2, 7) == 128 && Pow(2, 8) == 256;
    ShrIsDiv(x, 9);
  }

  lemma {:induction false} ShiftIsQuot(x: nat, l: nat)
    ensures Shr(x, 9 * l) == Quot(x, l) && Pow(2, 9 * l) == Pow(FACTOR, l)
  {
    if l > 0 {
      Nine(x);
      ShrAdd(x, 9, 9 * (l - 1));
      PowAdd(9, 9 * (l - 1));
      ShiftIsQuot(x / FACTOR, l - 1);
    }
  }

  /** `__get_bits`: shift down, then cut off above `no` bits by shifting up and down in 64 bits. */
  function GetBits(val: nat, skip: nat, no: nat): nat
    requires no <= 64
  {
    Shr(Shr(val, skip * no) * Pow(2, 64 - no) % Pow64(), 64 - no)
  }

  function Pow64(): (p: nat)
    ensures p > 0
  {
    0x1_0000_0000_0000_0000
  }

  /** `get_bits` extracts the digit. */
  lemma GetBitsIsDigit(bix: nat, level: nat)
    ensures GetBits(bix, level, 9) == Digit(bix, level)
  {
    ShiftIsQuot(bix, level);
    assert level * 9 == 9 * level;
    var x, a := Quot(bix, level), Pow(2, 55);
    PowAdd(55, 9);
    Nine(0);
    Pow2Is64();
    ShrIsDiv(0, 55);
    assert a * FACTOR == Pow64();
    assert x * a == (a * FACTOR) * (x / FACTOR) + a * (x % FACTOR) by {
      assert x == FACTOR * (x / FACTOR) + x % FACTOR;
    }
    assert a * (x % FACTOR) < a * FACTOR;
    ModUnique(x * a, a * FACTOR, x / FACTOR, a * (x % FACTOR));
    ShrIsDiv(a * (x % FACTOR), 55);
    ModUnique(a * (x % FACTOR), a, x % FACTOR, 0);
  }

  lemma Pow2Is64()
    ensures Pow(2, 64) == Pow64()
  {
    assert Pow(2, 1) == 2;
    Nine(0);
    hide Pow;
    PowAdd(9, 9);
    assert Pow(2, 18) == 0x4_0000;
    PowAdd(18, 18);
    assert Pow(2, 36) == 0x10_0000_0000;
    PowAdd(36, 18);
    assert Pow(2, 54) == 0x40_0000_0000_0000;
    PowAdd(54, 9);
    assert Pow(2, 63) == 0x8000_0000_0000_0000;
    PowAdd(63, 1);
  }

  /** `bixmask`; its shift is a 32-bit one, so the level is at most 3. */
  function BixMask(level: nat): nat
    requires level <= 3
  {
    if level == 0 then 0 else Pow(2, 9 * level) - (ShrIsDiv(0, 9 * level); 1)
  }

  /** `bix | bixmask(level)` is the index of the level's block. */
  lemma MaskIsCanon(bix: nat, level: nat)
    requires level <= 3
    ensures Or(bix, BixMask(level)) == Canon(bix, level)
  {
    ShiftIsQuot(bix, level);
    OrMask(bix, 9 * level);
    if level == 0 {
      assert Or(bix, 0) == bix;
    }
  }
}
