/** The requeue delay of failing cycles: a time.Duration, an int64 count of nanoseconds, that
    doubles with every failure and is reset by a success. */
module Backoff {
  const SECOND := 1_000_000_000

  /** int64 arithmetic wraps around. */
  function Wrap64(x: int): (r: int)
    ensures -0x8000_0000_0000_0000 <= r < 0x8000_0000_0000_0000
  {
    (x + 0x8000_0000_0000_0000) % 0x1_0000_0000_0000_0000 - 0x8000_0000_0000_0000
  }

  function Pow2(n: nat): (r: nat)
    ensures r > 0
  {
    if n == 0 then 1 else 2 * Pow2(n - 1)
  }

  /** The stored delay after a history of cycle outcomes, `true` for success. */
  function DelayAfter(outcomes: seq<bool>): int {
    if outcomes == [] || outcomes[|outcomes| - 1] then SECOND
    else Wrap64(2 * DelayAfter(outcomes[..|outcomes| - 1]))
  }

  /** How many failures the history ends with. */
  function FailuresInARow(outcomes: seq<bool>): nat {
    if outcomes == [] || outcomes[|outcomes| - 1] then 0 else 1 + FailuresInARow(outcomes[..|outcomes| - 1])
  }

  lemma DoubleWrap(x: int)
    ensures Wrap64(2 * Wrap64(x)) == Wrap64(2 * x)
  {
    var q := (x + 0x8000_0000_0000_0000) / 0x1_0000_0000_0000_0000;
    assert Wrap64(x) == x - q * 0x1_0000_0000_0000_0000;
    WrapPeriod(2 * x, 2 * q);
  }

  lemma WrapPeriod(x: int, k: int)
    ensures Wrap64(x - k * 0x1_0000_0000_0000_0000) == Wrap64(x)
  {
  }

  /** The delay is the power of two that exponential backoff asks for, as far as int64 can say. */
  lemma {:induction false} DelayIsWrappedPower(outcomes: seq<bool>)
    ensures DelayAfter(outcomes) == Wrap64(SECOND * Pow2(FailuresInARow(outcomes)))
  {
    if outcomes != [] && !outcomes[|outcomes| - 1] {
      var init := outcomes[..|outcomes| - 1];
      DelayIsWrappedPower(init);
      DoubleWrap(SECOND * Pow2(FailuresInARow(init)));
      assert 2 * (SECOND * Pow2(FailuresInARow(init))) == SECOND * (2 * Pow2(FailuresInARow(init)));
    }
  }

  lemma {:induction false} Pow2Monotone(m: nat, n: nat)
    requires m <= n
    ensures Pow2(m) <= Pow2(n)
  {
    if m < n {
      Pow2Monotone(m, n - 1);
    }
  }

  /** After k failures in a row the stored delay is exactly 2^k seconds if and only if
      k <= 33; from the 34th failure on it has wrapped around. */
  lemma BackoffExactIff(outcomes: seq<bool>)
    ensures DelayAfter(outcomes) == SECOND * Pow2(FailuresInARow(outcomes)) <==> FailuresInARow(outcomes) <= 33
  {
    var k := FailuresInARow(outcomes);
    DelayIsWrappedPower(outcomes);
    Pow2At33();
    if k <= 33 {
      Pow2Monotone(k, 33);
    } else {
      Pow2Monotone(34, k);
    }
  }

  lemma Pow2At33()
    ensures Pow2(33) == 0x2_0000_0000 && Pow2(34) == 0x4_0000_0000
  {
    assert Pow2(8) == 0x100;
    assert Pow2(16) == 0x1_0000;
    assert Pow2(24) == 0x100_0000;
    assert Pow2(32) == 0x1_0000_0000;
  }

  // ------------------------------------------------------------------ past the limit

  /** The stored delay after k failures in a row. */
  function Delay(k: nat): int {
    if k == 0 then SECOND else Wrap64(2 * Delay(k - 1))
  }

  lemma {:induction false} DelayOfFailures(outcomes: seq<bool>)
    ensures DelayAfter(outcomes) == Delay(FailuresInARow(outcomes))
  {
    if outcomes != [] && !outcomes[|outcomes| - 1] {
      DelayOfFailures(outcomes[..|outcomes| - 1]);
    }
  }

  lemma DelayNext(k: nat, now: int, next: int)
    requires Delay(k) == now && next == Wrap64(2 * now)
    ensures Delay(k + 1) == next
  {
  }

  lemma {:induction false} DelayExact(k: nat)
    requires k <= 33
    ensures Delay(k) == SECOND * Pow2(k)
    ensures 0 < Delay(k) < 0x8000_0000_0000_0000
  {
    Pow2At33();
    Pow2Monotone(k, 33);
    if k > 0 {
      DelayExact(k - 1);
    }
  }

  /** The delays after 33 to 55 failures in a row. */
  const WRAPPED: seq<int> := [
    8589934592000000000, -1266874889709551616, -2533749779419103232, -5067499558838206464,
    8311744956033138688, -1823254161643274240, -3646508323286548480, -7293016646573096960,
    3860710780563357696, 7721421561126715392, -3003900951456120832, -6007801902912241664,
    6431140267885068288, -5584463537939415040, 7277816997830721536, -3891110078048108544,
    -7782220156096217088, 2882303761517117440, 5764607523034234880, -6917529027641081856,
    4611686018427387904, -9223372036854775808, 0
  ]

  lemma WrappedStep(i: nat)
    requires i < 22
    ensures |WRAPPED| == 23 && WRAPPED[i + 1] == Wrap64(2 * WRAPPED[i])
  {
  }

  lemma {:induction false} DelayWrapped(k: nat)
    requires 33 <= k <= 55
    ensures |WRAPPED| == 23 && Delay(k) == WRAPPED[k - 33]
  {
    if k == 33 {
      DelayExact(k);
      Pow2At33();
    } else {
      DelayWrapped(k - 1);
      WrappedStep(k - 34);
      DelayNext(k - 1, WRAPPED[k - 34], WRAPPED[k - 33]);
    }
  }

  lemma {:induction false} DelayStaysZero(k: nat)
    requires k >= 55
    ensures Delay(k) == 0
  {
    if k == 55 {
      DelayWrapped(k);
    } else {
      DelayStaysZero(k - 1);
      DelayNext(k - 1, 0, 0);
    }
  }

  /** The numbers of failures past 33 after which the wrapped delay happens to be positive. */
  const LUCKY: set<int> := {37, 41, 42, 45, 47, 50, 51, 53}

  lemma WrappedSign(k: nat)
    requires 33 < k < 55
    ensures |WRAPPED| == 23 && WRAPPED[k - 33] != 0 && (WRAPPED[k - 33] > 0 <==> k in LUCKY)
  {
  }

  /** A requeue needs a positive delay. The stored delay is positive up to 33 failures in a row
      and then for the few in `LUCKY`; it is negative for the others up to 54, and zero for good
      from 55 on. A failing cycle that meets such a delay is not retried on its own. */
  lemma DelayPositiveIff(outcomes: seq<bool>)
    ensures DelayAfter(outcomes) > 0 <==> FailuresInARow(outcomes) <= 33 || FailuresInARow(outcomes) in LUCKY
    ensures DelayAfter(outcomes) == 0 <==> FailuresInARow(outcomes) >= 55
  {
    var k := FailuresInARow(outcomes);
    DelayOfFailures(outcomes);
    if k <= 33 {
      DelayExact(k);
    } else if k < 55 {
      DelayWrapped(k);
      WrappedSign(k);
    } else {
      DelayStaysZero(k);
    }
  }
}
