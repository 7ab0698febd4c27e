/** Frequencies of the virtual real-time clock: student-distrib/interrupts/rtc.c. */
module RtcRate {
  import opened Machine

  /** The test shared by rtc_write and rtc_set_freq: a power of two between 2 and 1024. */
  predicate Accepted(f: bv32) {
    f & (f - 1) == 0 && 2 <= f <= 1024
  }

  /** rtc_write's reload value: how many 1024 Hz ticks make one virtual period. */
  function Cycles(f: bv32): u32
    requires f != 0
  {
    (1024 / f) as int
  }

  /** The bit trick accepts exactly the powers of two from 2 to 1024. */
  lemma AcceptedArePowers(f: bv32)
    ensures Accepted(f) <==> f in {2, 4, 8, 16, 32, 64, 128, 256, 512, 1024}
  {
  }

  /** The reload value of every accepted frequency is exact. */
  lemma CyclesAreExact(f: bv32)
    requires Accepted(f)
    ensures Cycles(f) * (f as int) == 1024
  {
    AcceptedArePowers(f);
  }

  function Log2(n: nat): nat {
    if n <= 1 then 0 else 1 + Log2(n / 2)
  }

  lemma {:induction false} Log2IsFloor(n: nat)
    requires n > 0
    ensures Pow2(Log2(n)) <= n < Pow2(Log2(n) + 1)
  {
    if n > 1 {
      Log2IsFloor(n / 2);
    }
  }

  /** log2_for_frequency: floor of the logarithm, -1 for zero and odd inputs. */
  method Log2ForFrequency(number: u32) returns (result: int)
    ensures number == 0 || number % 2 != 0 ==> result == -1
    ensures number != 0 && number % 2 == 0 ==> result >= 0 && Pow2(result) <= number < Pow2(result + 1)
  {
    if number <= 0 || number % 2 != 0 { return -1; }
    var n: nat := number;
    result := 0;
    while n > 1
      invariant result >= 0 && n >= 1 && result + Log2(n) == Log2(number)
    {
      n := n / 2;
      result := result + 1;
    }
    Log2IsFloor(number);
  }

  lemma {:induction false} LogOfPower(j: nat)
    ensures Log2(Pow2(j)) == j
  {
    if j > 0 {
      LogOfPower(j - 1);
      assert Pow2(j) == 2 * Pow2(j - 1);
    }
  }

  lemma {:induction false} PowersMultiply(k: nat, j: nat)
    ensures Pow2(k) * Pow2(j) == Pow2(k + j)
    decreases j
  {
    if j > 0 {
      PowersMultiply(k, j - 1);
      assert Pow2(k) * (2 * Pow2(j - 1)) == 2 * (Pow2(k) * Pow2(j - 1));
    }
  }

  /** rtc_set_freq's rate 16 - log2 f: dividing 32768 Hz by 2 to the (rate - 1) gives f back. */
  lemma RateGivesFrequency(f: bv32)
    requires Accepted(f)
    ensures var rate := 16 - Log2(f as int);
      6 <= rate <= 15 && Pow2(rate - 1) * (f as int) == 32768
  {
    AcceptedArePowers(f);
    assert Pow2(5) == 32;
    assert Pow2(10) == 32 * Pow2(5);
    assert Pow2(15) == 32 * Pow2(10);
    var j :| 1 <= j <= 10 && f as int == Pow2(j);
    LogOfPower(j);
    PowersMultiply(15 - j, j);
  }
}
