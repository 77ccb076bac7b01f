/** The AHB transaction timeout derived from the GPU's NOC timeout. */
module AhbTimeout {
  import opened Basics

  const HZ_PER_MHZ := 1_000_000
  const MIN_TIMEOUT_USEC := 1000
  const MAX_TIMEOUT_VAL := 31  // GENMASK(4, 0)

  /** ilog2 of a 64-bit value; of zero it is -1, here as the u32 it is stored in. */
  function Ilog2(n: u64): u32 {
    if n == 0 then 0xFFFF_FFFF else FloorLog2(n)
  }

  function FloorLog2(n: u64): (k: nat)
    requires n > 0
    ensures k < 64 && Pow2(k) <= n < Pow2(k + 1)
  {
    assert Pow2(1) == 2;
    if n == 1 then 0
    else
      var k := FloorLog2(n / 2);
      Below64(k + 1, n);
      k + 1
  }

  lemma {:induction false} Pow2Grows(a: nat, b: nat)
    requires a <= b
    ensures Pow2(a) <= Pow2(b)
  {
    Pow2Positive(b);
    if a < b {
      Pow2Positive(b - 1);
      Pow2Grows(a, b - 1);
    }
  }

  lemma Pow2Of64()
    ensures Pow2(64) == TWO_64
  {
    assert Pow2(8) == 256;
    assert Pow2(16) == 256 * Pow2(8) by { assert Pow2(12) == 16 * Pow2(8); }
    assert Pow2(24) == 256 * Pow2(16) by { assert Pow2(20) == 16 * Pow2(16); }
    assert Pow2(32) == 256 * Pow2(24) by { assert Pow2(28) == 16 * Pow2(24); }
    assert Pow2(40) == 256 * Pow2(32) by { assert Pow2(36) == 16 * Pow2(32); }
    assert Pow2(48) == 256 * Pow2(40) by { assert Pow2(44) == 16 * Pow2(40); }
    assert Pow2(56) == 256 * Pow2(48) by { assert Pow2(52) == 16 * Pow2(48); }
    assert Pow2(64) == 256 * Pow2(56) by { assert Pow2(60) == 16 * Pow2(56); }
  }

  lemma Below64(k: nat, n: u64)
    requires Pow2(k) <= n
    ensures k < 64
  {
    if k >= 64 {
      Pow2Of64();
      Pow2Grows(64, k);
    }
  }

  predicate IsPowerOf2(n: u64) { n != 0 && n == Pow2(FloorLog2(n)) }

  /** 1 << k as the int it is computed in, widened to 64 bits: bit 31 is the sign. */
  function ShiftedOne(k: nat): u64
    requires k <= 31
  {
    Pow2Grows(k, 31);
    assert Pow2(7) == 128 && Pow2(15) == 128 * 256 && Pow2(23) == 128 * 256 * 256;
    if k == 31 then TWO_64 - 0x8000_0000 else Pow2(k)
  }

  /** The checks on a value and the conversion to what is programmed. */
  function Programmed(val: u32, mhz: nat): u32 {
    if val > MAX_TIMEOUT_VAL || MIN_TIMEOUT_USEC * mhz > ShiftedOne(val) then 0
    else (val - 1) % 0x1_0000_0000
  }

  function Adjusted(cycles: u64): u64 { if IsPowerOf2(cycles) then cycles - 1 else cycles }

  function Mhz(hubClkFreq: u64): nat { hubClkFreq / HZ_PER_MHZ }

  /** Hub cycles in the NOC timeout. */
  function Cycles(mhz: nat, nocTimeoutUs: u32): nat { mhz * nocTimeoutUs }

  lemma NoCycles(mhz: nat, nocTimeoutUs: u32)
    ensures Cycles(mhz, nocTimeoutUs) > 0 ==> mhz > 0 && nocTimeoutUs > 0
  {
  }

  /** adreno_get_ahb_timeout_val */
  function AhbTimeoutVal(hubClkFreq: u64, nocTimeoutUs: u32): u32 {
    if nocTimeoutUs == 0 then 0
    else
      var mhz := Mhz(hubClkFreq);
      Programmed(Ilog2(Adjusted(Cycles(mhz, nocTimeoutUs) % TWO_64)), mhz)
  }

  /** t is the largest power strictly below c. */
  predicate LargestBelow(t: nat, c: nat) { Pow2(t) < c <= Pow2(t + 1) }

  /** What the driver calls too low; at 31 the comparison never finds it so. */
  predicate LongEnough(t: nat, mhz: nat) { t == 31 || 1000 * mhz <= Pow2(t) }

  /** The rounding: the logarithm of the adjusted cycle count is the largest power below the count. */
  lemma AdjustedLog(c: u64)
    requires c > 1
    ensures LargestBelow(Ilog2(Adjusted(c)), c)
  {
    var k := FloorLog2(c);
    if IsPowerOf2(c) {
      assert c == Pow2(k);
      assert k > 0;
      var j := FloorLog2(c - 1);
      if j >= k {
        Pow2Grows(k, j);
      }
      if j + 1 < k {
        Pow2Grows(j + 1, k - 1);
      }
    }
  }

  lemma LargestIsUnique(s: nat, t: nat, c: nat)
    requires LargestBelow(s, c) && LargestBelow(t, c)
    ensures s == t
  {
    if s < t {
      Pow2Grows(s + 1, t);
    } else if t < s {
      Pow2Grows(t + 1, s);
    }
  }

  lemma TimeoutInCycles(hubClkFreq: u64, nocTimeoutUs: u32)
    ensures var mhz := Mhz(hubClkFreq); var c := Cycles(mhz, nocTimeoutUs) % TWO_64;
      var r := AhbTimeoutVal(hubClkFreq, nocTimeoutUs);
      && (r != 0 ==> LargestBelow(r + 1, c) && r + 1 <= 31 && LongEnough(r + 1, mhz))
      && (r == 0 ==> forall t: nat :: LargestBelow(t, c) ==> t > 31 || !LongEnough(t, mhz))
  {
    hide Cycles, Ilog2, Adjusted, Programmed, LargestBelow, LongEnough;
    var mhz := Mhz(hubClkFreq);
    var c: u64 := Cycles(mhz, nocTimeoutUs) % TWO_64;
    NoCycles(mhz, nocTimeoutUs);
    if c > 1 {
      AdjustedLog(c);
      var val := Ilog2(Adjusted(c));
      ProgrammedMeaning(val, mhz);
      forall t: nat | LargestBelow(t, c) ensures t == val {
        LargestIsUnique(t, val, c);
      }
    } else {
      NoneBelow(c);
      TooHigh(mhz);
    }
  }

  /**
   The timeout, for every clock and every NOC timeout: a non-zero result r means a timeout of
   2^(r+1) cycles, the largest power of two strictly below the NOC timeout as computed, which fits
   the five-bit field and is long enough; zero means that there is no such timeout. Nothing
   underflows.
   */
  lemma TimeoutMeaning(hubClkFreq: u64, nocTimeoutUs: u32)
    ensures var mhz := hubClkFreq / 1_000_000; var c := mhz * nocTimeoutUs % TWO_64;
      var r := AhbTimeoutVal(hubClkFreq, nocTimeoutUs);
      && (r != 0 ==> LargestBelow(r + 1, c) && r + 1 <= 31 && LongEnough(r + 1, mhz))
      && (r == 0 ==> forall t: nat :: LargestBelow(t, c) ==> t > 31 || !LongEnough(t, mhz))
  {
    hide AhbTimeoutVal, LargestBelow, LongEnough;
    TimeoutInCycles(hubClkFreq, nocTimeoutUs);
  }

  lemma TooHigh(mhz: nat)
    ensures Programmed(0xFFFF_FFFF, mhz) == 0
  {
  }

  /** No clock is fast enough for the widened sign bit to look too low. */
  lemma ProgrammedMeaning(val: u32, mhz: nat)
    requires 0 < mhz <= TWO_64 / HZ_PER_MHZ
    ensures var r := Programmed(val, mhz);
      if val <= MAX_TIMEOUT_VAL && LongEnough(val, mhz) then r == val - 1 && r != 0 else r == 0
  {
    if val <= MAX_TIMEOUT_VAL {
      assert Pow2(1) == 2;
      hide Pow2;
      if val == 31 {
        assert ShiftedOne(val) == TWO_64 - 0x8000_0000;
      }
    }
  }

  lemma NoneBelow(c: u64)
    requires c <= 1
    ensures forall t: nat :: !LargestBelow(t, c)
    ensures Ilog2(Adjusted(c)) == 0xFFFF_FFFF
  {
    assert Pow2(1) == 2;
    forall t: nat ensures !LargestBelow(t, c) {
      Pow2Positive(t);
    }
  }

  /**
   The bound meant, in terms of the true cycle count, holds of a non-zero result exactly when the
   64-bit product does not wrap.
   */
  lemma TrueCountIffNoWrap(hubClkFreq: u64, nocTimeoutUs: u32)
    requires AhbTimeoutVal(hubClkFreq, nocTimeoutUs) != 0
    ensures var cycles := Cycles(Mhz(hubClkFreq), nocTimeoutUs);
      LargestBelow(AhbTimeoutVal(hubClkFreq, nocTimeoutUs) + 1, cycles) <==> cycles < TWO_64
  {
    hide AhbTimeoutVal, Cycles, Mhz, Pow2, LongEnough;
    TimeoutInCycles(hubClkFreq, nocTimeoutUs);
    var r := AhbTimeoutVal(hubClkFreq, nocTimeoutUs);
    Pow2Of64();
    Pow2Grows(r + 2, 64);
  }

  const FAST_CLOCK := 8_589_934_594 * HZ_PER_MHZ  // 2^33 + 2 MHz
  const LONG_NOC := 0x8000_0000

  /** The product can wrap and still give a result: here 2^64 + 2^32 cycles are taken for 2^32. */
  lemma WrappedProductGivesAResult()
    ensures AhbTimeoutVal(FAST_CLOCK, LONG_NOC) == 30
    ensures Cycles(Mhz(FAST_CLOCK), LONG_NOC) == TWO_64 + TWO_32
    ensures !LargestBelow(31, Cycles(Mhz(FAST_CLOCK), LONG_NOC))
  {
    assert Mhz(FAST_CLOCK) == 8_589_934_594;
    assert Cycles(8_589_934_594, LONG_NOC) == TWO_64 + TWO_32;
    Pow2Of32();
    hide AhbTimeoutVal, Cycles, Mhz, Pow2;
    TimeoutInCycles(FAST_CLOCK, LONG_NOC);
    var r := AhbTimeoutVal(FAST_CLOCK, LONG_NOC);
    assert LargestBelow(31, TWO_32);
    assert r != 0;
    LargestIsUnique(r + 1, 31, TWO_32);
  }

  lemma Pow2Of32()
    ensures Pow2(32) == TWO_32 && Pow2(31) == 0x8000_0000
  {
    assert Pow2(8) == 256;
    assert Pow2(16) == 256 * Pow2(8) by { assert Pow2(12) == 16 * Pow2(8); }
    assert Pow2(24) == 256 * Pow2(16) by { assert Pow2(20) == 16 * Pow2(16); }
    assert Pow2(32) == 256 * Pow2(24) by { assert Pow2(28) == 16 * Pow2(24); }
  }
}
