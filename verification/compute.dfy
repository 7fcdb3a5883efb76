/**
 * The memoised checksum of compute.c: a two-argument recurrence modulo
 * 32768, parameterised by the eighth register r7, and the search for the r7
 * that makes checksum(4, 1) equal 6.
 */
module Compute {
  import opened Wrappers

  /** Modulus of every checksum result: values are 15-bit words. */
  const Modulus: nat := 32768
  /** The marker for an empty cache slot (`0xFFFFFFFF`). */
  const Sentinel: int := 0xFFFF_FFFF

  /** `unsigned int`, the type of a cache slot. */
  type U32 = x: int | 0 <= x < 0x1_0000_0000

  /**
   * The recurrence that `checksum` computes: level 0 adds one; level r0
   * applied to 0 is level r0-1 applied to r7; otherwise level r0-1 applied
   * to the previous result of level r0. Every call decreases (r0, r1)
   * lexicographically.
   */
  function ChecksumOf(r7: nat, r0: nat, r1: nat): (r: nat)
    ensures r < Modulus
    decreases r0, r1
  {
    if r0 == 0 then (r1 + 1) % Modulus
    else if r1 == 0 then ChecksumOf(r7, r0 - 1, r7)
    else ChecksumOf(r7, r0 - 1, ChecksumOf(r7, r0, r1 - 1))
  }

  /** Level 1 adds r7 + 1 to its argument, modulo 32768. */
  lemma {:induction false} LevelOne(r7: nat, n: nat)
    ensures ChecksumOf(r7, 1, n) == (r7 + 1 + n) % Modulus
  {
    if n > 0 {
      LevelOne(r7, n - 1);
      ModStep(r7 + n);
    }
  }

  /** Level 2 is affine in its argument: 2*r7 + 1 + n*(r7 + 1), modulo 32768. */
  lemma {:induction false} LevelTwo(r7: nat, n: nat)
    ensures ChecksumOf(r7, 2, n) == LevelTwoValue(r7, n) % Modulus
  {
    if n == 0 {
      LevelOne(r7, r7);
    } else {
      var prev := ChecksumOf(r7, 2, n - 1);
      var a := LevelTwoValue(r7, n - 1);
      LevelTwo(r7, n - 1);
      LevelOne(r7, prev);
      ModAdd(a, r7 + 1);
      MulSucc(r7, n);
      calc {
        ChecksumOf(r7, 2, n);
        ChecksumOf(r7, 1, prev);
        (r7 + 1 + prev) % Modulus;
        (r7 + 1 + a % Modulus) % Modulus;
        (a + (r7 + 1)) % Modulus;
        LevelTwoValue(r7, n) % Modulus;
      }
    }
  }

  /** The unreduced closed form of level 2. */
  function LevelTwoValue(r7: nat, n: nat): nat
  {
    2 * r7 + 1 + n * (r7 + 1)
  }

  lemma MulSucc(r7: nat, n: nat)
    requires n >= 1
    ensures LevelTwoValue(r7, n - 1) + (r7 + 1) == LevelTwoValue(r7, n)
  {
    assert (n - 1) * (r7 + 1) + (r7 + 1) == n * (r7 + 1);
  }

  lemma ModStep(x: nat)
    ensures (x % Modulus + 1) % Modulus == (x + 1) % Modulus
  {
  }

  lemma ModAdd(a: nat, b: nat)
    ensures (b + a % Modulus) % Modulus == (a + b) % Modulus
  {
    var q := a / Modulus;
    assert a == q * Modulus + a % Modulus;
    assert a + b == (b + a % Modulus) + q * Modulus;
    ShiftMod(b + a % Modulus, q);
  }

  lemma {:induction false} ShiftMod(x: nat, q: nat)
    ensures (x + q * Modulus) % Modulus == x % Modulus
  {
    if q > 0 {
      ShiftMod(x, q - 1);
      assert x + q * Modulus == (x + (q - 1) * Modulus) + Modulus;
    }
  }

  /** The globals of compute.c: the 5 x 32768 cache and r7. */
  class Memo {
    const cache: array2<U32>
    var r7: nat

    /** Every filled slot [i, j] holds the recurrence's value at (i, j) for the current r7. */
    ghost predicate Valid()
      reads this, cache
    {
      && cache.Length0 == 5 && cache.Length1 == Modulus && r7 < Modulus
      && forall i, j :: 0 <= i < 5 && 0 <= j < Modulus && cache[i, j] != Sentinel ==>
           cache[i, j] == ChecksumOf(r7, i, j)
    }

    /**
     * The globals as C zero-initialises them. Every slot holds 0, not the
     * empty marker, so `Valid()` does not hold yet: `ResetCache` must run
     * before `Checksum` may be called, as `main` and `Search` do.
     */
    constructor()
      ensures cache.Length0 == 5 && cache.Length1 == Modulus && r7 == 0 && fresh(cache)
    {
      cache := new U32[5, Modulus]((_, _) => 0);
      r7 := 0;
    }

    /**
     * `checksum(r0, r1)`: the recurrence, consulting the cache before each
     * recursive call and filling the slot after it. Every index stays in
     * the table because r0 <= 4 and every argument is below 32768.
     */
    method Checksum(r0: nat, r1: nat) returns (r: nat)
      requires Valid() && r0 <= 4 && r1 < Modulus
      modifies cache
      ensures Valid() && r == ChecksumOf(r7, r0, r1)
      decreases r0, r1
    {
      if r0 == 0 {
        return (r1 + 1) % Modulus;
      }
      if r1 == 0 {
        if cache[r0 - 1, r7] == Sentinel {
          var v := Checksum(r0 - 1, r7);
          cache[r0 - 1, r7] := v;
        }
        return cache[r0 - 1, r7];
      }
      if cache[r0, r1 - 1] == Sentinel {
        var v := Checksum(r0, r1 - 1);
        cache[r0, r1 - 1] := v;
      }
      var t := cache[r0, r1 - 1];
      if cache[r0 - 1, t] == Sentinel {
        var v := Checksum(r0 - 1, t);
        cache[r0 - 1, t] := v;
      }
      return cache[r0 - 1, t];
    }

    /** The nested loops of `main` that empty every slot before each r7. */
    method ResetCache()
      requires cache.Length0 == 5 && cache.Length1 == Modulus
      modifies cache
      ensures forall i, j :: 0 <= i < 5 && 0 <= j < Modulus ==> cache[i, j] == Sentinel
    {
      var i := 0;
      while i < 5
        invariant 0 <= i <= 5
        invariant forall a, b :: 0 <= a < i && 0 <= b < Modulus ==> cache[a, b] == Sentinel
      {
        var j := 0;
        while j < Modulus
          invariant 0 <= j <= Modulus
          invariant forall a, b :: 0 <= a < i && 0 <= b < Modulus ==> cache[a, b] == Sentinel
          invariant forall b :: 0 <= b < j ==> cache[i, b] == Sentinel
        {
          cache[i, j] := Sentinel;
          j := j + 1;
        }
        i := i + 1;
      }
    }

    /**
     * The search of `main`: for r7 = 1, 2, ... 32767, empty the cache and
     * compute checksum(4, 1); stop at the first r7 giving 6, leaving it in r7.
     */
    method Search() returns (found: Option<nat>)
      requires cache.Length0 == 5 && cache.Length1 == Modulus
      modifies this, cache
      ensures found.Some? ==> && 1 <= found.value < Modulus && r7 == found.value
                              && ChecksumOf(found.value, 4, 1) == 6
                              && forall k :: 1 <= k < found.value ==> ChecksumOf(k, 4, 1) != 6
      ensures found.None? ==> forall k :: 1 <= k < Modulus ==> ChecksumOf(k, 4, 1) != 6
    {
      r7 := 1;
      while r7 != Modulus
        invariant 1 <= r7 <= Modulus
        invariant forall k :: 1 <= k < r7 ==> ChecksumOf(k, 4, 1) != 6
      {
        ResetCache();
        var res := Checksum(4, 1);
        if res == 6 {
          return Some(r7);
        }
        r7 := r7 + 1;
      }
      return None;
    }
  }
}
