/** Arithmetic: remainders by a variable divisor, kept away from the proofs that use them. */
module Arithmetic {

  function Remainder(n: nat, rate: nat): (r: nat)
    requires rate > 0
    ensures r < rate
  {
    n % rate
  }

  function Times(k: int, rate: nat): int {
    k * rate
  }

  lemma MulAtLeast(k: int, rate: nat)
    ensures k >= 1 ==> k * rate >= rate
    ensures k <= -1 ==> k * rate <= -(rate as int)
  {
    if k >= 1 {
      assert (k - 1) * rate >= 0;
    } else if k <= -1 {
      assert (-1 - k) * rate >= 0;
    }
  }

  lemma {:induction false} DivisionIsUnique(rate: nat, q: int, r: int, q': int, r': int)
    requires 0 <= r < rate && 0 <= r' < rate && q * rate + r == q' * rate + r'
    ensures r == r'
  {
    MulAtLeast(q - q', rate);
    assert (q - q') * rate == q * rate - q' * rate;
  }

  /** Remainders count up and wrap around. */
  lemma {:induction false} ModStep(n: nat, rate: nat)
    requires n > 0 && rate > 0
    ensures Remainder(n, rate) == if Remainder(n - 1, rate) == rate - 1 then 0 else Remainder(n - 1, rate) + 1
  {
    var q, r := (n - 1) / rate, (n - 1) % rate;
    var q', r' := n / rate, n % rate;
    assert q * rate + r == n - 1 && q' * rate + r' == n;
    if r == rate - 1 {
      assert (q + 1) * rate == q * rate + rate;
      DivisionIsUnique(rate, q + 1, 0, q', r');
    } else {
      DivisionIsUnique(rate, q, r + 1, q', r');
    }
  }

  function Max(x: real, y: real): real {
    if x >= y then x else y
  }

  function Min(x: real, y: real): real {
    if x <= y then x else y
  }

  lemma TimesFacts(k: nat, rate: nat)
    ensures Times(k + 1, rate) == Times(k, rate) + rate && Times(0, rate) == 0
  {
    assert (k + 1) * rate == k * rate + rate;
  }

  lemma RemainderOfZero(rate: nat)
    requires rate > 0
    ensures Remainder(0, rate) == 0
  {
  }

  /** The quotient, and 0 for a zero divisor. */
  function Divided(m: nat, length: nat): nat {
    if length == 0 then 0 else m / length
  }

  lemma {:induction false} TimesBelow(k: nat, length: nat, m: nat)
    ensures Times(k, length) < m && length > 0 ==> k <= Divided(m, length)
  {
    if length > 0 && k > m / length {
      assert k * length >= (m / length + 1) * length;
    }
  }

  lemma TimesMonotone(few: nat, all: nat, rate: nat)
    requires rate > 0 && few <= all
    ensures few <= Times(few, rate) <= Times(all, rate)
  {
    assert (all - few) * rate >= 0;
    assert few * (rate - 1) >= 0;
  }

  /** Two numbers less than `rate` apart have the same remainder only if they are equal. */
  lemma {:induction false} NearRemaindersDiffer(a: nat, b: nat, rate: nat)
    requires rate > 0 && a <= b < a + rate
    ensures Remainder(a, rate) == Remainder(b, rate) ==> a == b
  {
    var q, r, q', r' := a / rate, a % rate, b / rate, b % rate;
    assert q * rate + r == a && q' * rate + r' == b;
    MulAtLeast(q' - q, rate);
    assert (q' - q) * rate == q' * rate - q * rate;
  }

  /** Adding the divisor keeps the remainder. */
  lemma {:induction false} RemainderShift(a: nat, rate: nat)
    requires rate > 0
    ensures Remainder(a + rate, rate) == Remainder(a, rate) < rate
  {
    var q, r, q', r' := a / rate, a % rate, (a + rate) / rate, (a + rate) % rate;
    assert q * rate + r == a && q' * rate + r' == a + rate;
    assert (q + 1) * rate == q * rate + rate;
    DivisionIsUnique(rate, q + 1, r, q', r');
  }
}
