/**
 * The sawtooth retry delay of `wait_for_pg_connection`: it starts at one
 * second, doubles after every failed attempt and drops back to one second
 * the first time doubling would pass 32.
 */
module Backoff {

  const InitialDelay: nat := 1
  const MaxDelay: nat := 32

  /** `i *= 2; if i > 32 { i = 1 }` */
  function NextDelay(i: nat): (r: nat)
    ensures InitialDelay <= i <= MaxDelay ==> InitialDelay <= r <= MaxDelay
    ensures r == 2 * i || r == InitialDelay
    ensures r < 2 * i ==> r == InitialDelay && 2 * i > MaxDelay
    ensures 2 * i > MaxDelay ==> r == InitialDelay
    ensures 2 * i <= MaxDelay ==> r == 2 * i
  {
    if i * 2 > MaxDelay then InitialDelay else i * 2
  }

  /** The delay held after `k` failed attempts of one connect cycle. */
  function DelayAfter(k: nat): (r: nat)
    ensures InitialDelay <= r <= MaxDelay
  {
    if k == 0 then InitialDelay else NextDelay(DelayAfter(k - 1))
  }

  /** The delays slept, in order, during the first `n` failed attempts of a cycle. */
  function Sawtooth(n: nat): (r: seq<nat>)
    ensures |r| == n
  {
    if n == 0 then [] else Sawtooth(n - 1) + [DelayAfter(n - 1)]
  }

  function Pow2(e: nat): (r: nat)
    ensures r >= 1
  {
    if e == 0 then 1 else 2 * Pow2(e - 1)
  }

  /** The delays the loop can hold: the powers of two from 1 to 32. */
  predicate IsBackoffDelay(d: nat) {
    exists e :: 0 <= e < 6 && Pow2(e) == d
  }

  /** Closed form: the delay after `k` failures is 2 to the power `k mod 6`. */
  lemma {:induction false} DelayAfterClosedForm(k: nat)
    ensures DelayAfter(k) == Pow2(k % 6)
  {
    if k > 0 {
      DelayAfterClosedForm(k - 1);
      var e := (k - 1) % 6;
      assert Pow2(1) == 2 && Pow2(2) == 4 && Pow2(3) == 8 && Pow2(4) == 16 && Pow2(5) == 32;
      if e == 5 {
        assert k % 6 == 0;
      } else {
        assert k % 6 == e + 1;
      }
    }
  }

  /** The delay stays in [1, 32] and is always a power of two. */
  lemma DelayAfterInRange(k: nat)
    ensures InitialDelay <= DelayAfter(k) <= MaxDelay
    ensures IsBackoffDelay(DelayAfter(k))
  {
    DelayAfterClosedForm(k);
    var e := k % 6;
    assert Pow2(1) == 2 && Pow2(2) == 4 && Pow2(3) == 8 && Pow2(4) == 16 && Pow2(5) == 32;
    assert 0 <= e < 6 && Pow2(e) == DelayAfter(k);
  }

  /** The sequence repeats every six failures. */
  lemma DelayAfterPeriodic(k: nat)
    ensures DelayAfter(k + 6) == DelayAfter(k)
  {
    DelayAfterClosedForm(k);
    DelayAfterClosedForm(k + 6);
  }

  /** The `k`-th sleep of a cycle (counting from 0) lasts 2^(k mod 6) seconds. */
  lemma {:induction false} SawtoothAt(n: nat, k: nat)
    requires k < n
    ensures Sawtooth(n)[k] == DelayAfter(k) == Pow2(k % 6)
  {
    DelayAfterClosedForm(k);
    if k < n - 1 {
      SawtoothAt(n - 1, k);
    }
  }

  /** A cycle with more failures sleeps the same delays first: the schedule never depends on the future. */
  lemma {:induction false} SawtoothPrefix(m: nat, n: nat)
    requires m <= n
    ensures Sawtooth(m) == Sawtooth(n)[..m]
  {
    if m < n {
      SawtoothPrefix(m, n - 1);
      assert Sawtooth(n)[..n - 1] == Sawtooth(n - 1);
    }
  }

  /** Every sleep of a cycle is a power of two in [1, 32]. */
  lemma SawtoothBounded(n: nat)
    ensures forall k :: 0 <= k < n ==> 1 <= Sawtooth(n)[k] <= 32 && IsBackoffDelay(Sawtooth(n)[k])
  {
    forall k | 0 <= k < n
      ensures 1 <= Sawtooth(n)[k] <= 32 && IsBackoffDelay(Sawtooth(n)[k])
    {
      SawtoothAt(n, k);
      DelayAfterInRange(k);
    }
  }

  /** Seven failures in a row sleep 1, 2, 4, 8, 16, 32 and then 1 second. */
  lemma SevenFailures()
    ensures Sawtooth(7) == [1, 2, 4, 8, 16, 32, 1]
  {
  }
}
