/** Machine words and Python's bitwise operators on non-negative integers. */
module Words {

  /** A value that fits an unsigned 16-bit `'H'` array slot. */
  type U16 = x: int | 0 <= x < 0x1_0000
  /** A byte, as read from a character stream. */
  type U8 = x: int | 0 <= x < 0x100

  /** Number of addressable words, and the modulus of 15-bit arithmetic. */
  const WordCount: nat := 32768
  /** Largest 15-bit word. */
  const MaxWord: nat := 32767
  /** The 15-bit mask `0x7FFF`. */
  const Mask15: nat := 0x7FFF

  predicate IsWord(x: int) {
    0 <= x <= MaxWord
  }

  function Pow2(k: nat): (r: nat)
    ensures r >= 1
  {
    if k == 0 then 1 else 2 * Pow2(k - 1)
  }

  /** The product of two words, as Python computes it: unbounded, before any mask. */
  function Product(x: U16, y: U16): nat
  {
    x * y
  }

  /** Python's `x & y` on non-negative integers, bit by bit from the least significant. */
  function BitAnd(x: nat, y: nat): nat
    decreases x
  {
    if x == 0 || y == 0 then 0
    else 2 * BitAnd(x / 2, y / 2) + (if x % 2 == 1 && y % 2 == 1 then 1 else 0)
  }

  /** Python's `x | y` on non-negative integers. */
  function BitOr(x: nat, y: nat): nat
    decreases x + y
  {
    if x == 0 then y
    else if y == 0 then x
    else 2 * BitOr(x / 2, y / 2) + (if x % 2 == 1 || y % 2 == 1 then 1 else 0)
  }

  /** Python's `x ^ y` on non-negative integers. */
  function BitXor(x: nat, y: nat): nat
    decreases x + y
  {
    if x == 0 then y
    else if y == 0 then x
    else 2 * BitXor(x / 2, y / 2) + (if x % 2 != y % 2 then 1 else 0)
  }

  /** Masking with `2^k - 1` keeps the low k bits: it is reduction modulo `2^k`. */
  lemma {:induction false} AndLowMask(x: nat, k: nat)
    ensures BitAnd(x, Pow2(k) - 1) == x % Pow2(k)
  {
    if k == 0 {
    } else if x == 0 {
    } else {
      var p := Pow2(k - 1);
      var mask := Pow2(k) - 1;
      assert mask == 2 * (p - 1) + 1;
      assert mask / 2 == p - 1 && mask % 2 == 1;
      assert BitAnd(x, mask) == 2 * BitAnd(x / 2, p - 1) + x % 2;
      AndLowMask(x / 2, k - 1);
      DivModSplit(x, p);
    }
  }

  /** Quotient and remainder are unique. */
  lemma DivModUnique(x: int, d: int, q: int, r: int)
    requires d >= 1 && 0 <= r < d && x == q * d + r
    ensures x / d == q && x % d == r
  {
    var q', r' := x / d, x % d;
    assert (q - q') * d == r' - r;
    if q > q' {
      MulAtLeast(q - q', d);
    } else if q' > q {
      MulAtLeast(q' - q, d);
    }
  }

  lemma MulAtLeast(a: int, d: int)
    requires a >= 1 && d >= 1
    ensures a * d >= d
  {
  }

  lemma DivModSplit(x: nat, p: nat)
    requires p >= 1
    ensures x % (2 * p) == 2 * ((x / 2) % p) + x % 2
  {
    var q := (x / 2) / p;
    var r := (x / 2) % p;
    assert x / 2 == q * p + r;
    assert x == 2 * (x / 2) + x % 2;
    assert x == q * (2 * p) + (2 * r + x % 2);
    DivModUnique(x, 2 * p, q, 2 * r + x % 2);
  }

  /** `x & y` is never larger than `x`. */
  lemma {:induction false} AndAtMost(x: nat, y: nat)
    ensures BitAnd(x, y) <= x
    decreases x
  {
    if x != 0 && y != 0 {
      AndAtMost(x / 2, y / 2);
    }
  }

  /** `|` keeps numbers below `2^k`. */
  lemma {:induction false} OrBelow(x: nat, y: nat, k: nat)
    requires x < Pow2(k) && y < Pow2(k)
    ensures BitOr(x, y) < Pow2(k)
    decreases x + y
  {
    if x != 0 && y != 0 {
      OrBelow(x / 2, y / 2, k - 1);
    }
  }

  /** `^` keeps numbers below `2^k`. */
  lemma {:induction false} XorBelow(x: nat, y: nat, k: nat)
    requires x < Pow2(k) && y < Pow2(k)
    ensures BitXor(x, y) < Pow2(k)
    decreases x + y
  {
    if x != 0 && y != 0 {
      XorBelow(x / 2, y / 2, k - 1);
    }
  }

  /** `(x ^ m) ^ m == x`. */
  lemma {:induction false} XorTwice(x: nat, m: nat)
    ensures BitXor(BitXor(x, m), m) == x
    decreases x + m
  {
    if x == 0 {
      XorSelf(m);
    } else if m != 0 {
      XorTwice(x / 2, m / 2);
      var h := BitXor(x / 2, m / 2);
      var b := if x % 2 != m % 2 then 1 else 0;
      assert BitXor(x, m) == 2 * h + b;
      if 2 * h + b != 0 {
        assert (2 * h + b) / 2 == h && (2 * h + b) % 2 == b;
      }
    }
  }

  lemma {:induction false} XorSelf(m: nat)
    ensures BitXor(m, m) == 0
    decreases m
  {
    if m != 0 {
      XorSelf(m / 2);
    }
  }

  lemma Pow2Of15()
    ensures Pow2(15) == WordCount && Pow2(16) == 0x1_0000
  {
    assert Pow2(1) == 2;
    assert Pow2(2) == 4;
    assert Pow2(3) == 8;
    assert Pow2(4) == 16;
    assert Pow2(5) == 32;
    assert Pow2(6) == 64;
    assert Pow2(7) == 128;
    assert Pow2(8) == 256;
    assert Pow2(9) == 512;
    assert Pow2(10) == 1024;
    assert Pow2(11) == 2048;
    assert Pow2(12) == 4096;
    assert Pow2(13) == 8192;
    assert Pow2(14) == 16384;
  }
}
