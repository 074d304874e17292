/**
 Machine words, results, and the bucket arithmetic of the three latency histograms.
 */
module Bits {

  datatype Option<+T> = None | Some(value: T)

  datatype Errno = EPERM | EINVAL

  datatype Result<+T> = Ok(value: T) | Err(error: Errno)

  const TWO64: nat := 0x1_0000_0000_0000_0000

  /** A 64-bit unsigned word. */
  type u64 = x: int | 0 <= x < TWO64

  /** Subtraction of 64-bit words, which wraps around. */
  function Sub64(a: u64, b: u64): (r: u64)
    ensures (r + b) % TWO64 == a
    ensures b <= a ==> r == a - b
  {
    if b <= a then a - b else a + TWO64 - b
  }

  /** Addition of 64-bit words, which wraps around. */
  function Add64(a: u64, b: u64): (r: u64)
    ensures Sub64(r, b) == a
    ensures a + b < TWO64 ==> r == a + b
  {
    (a + b) % TWO64
  }

  lemma AddMod(a: nat, b: nat)
    ensures (a % TWO64 + b) % TWO64 == (a + b) % TWO64
  {
  }

  function Pow2(n: nat): (r: nat)
    ensures r >= 1
  {
    if n == 0 then 1 else 2 * Pow2(n - 1)
  }

  lemma {:induction false} Pow2Monotone(m: nat, n: nat)
    requires m < n
    ensures 2 * Pow2(m) <= Pow2(n)
  {
    if m + 1 < n {
      Pow2Monotone(m, n - 1);
    }
  }

  /**
   How often a latency is halved before it drops below `step`. Every histogram of the
   tracers computes its bucket this way.
   */
  function Bucket(delta: nat, step: nat): (r: nat)
    requires step > 0
    ensures delta < step * Pow2(r + 1)
    ensures r > 0 ==> step * Pow2(r) <= delta
  {
    if delta / 2 < step then
      assert step * Pow2(1) == 2 * step;
      0
    else
      var rest := Bucket(delta / 2, step);
      HalvedBucket(delta, step, rest);
      1 + rest
  }

  /** Halving the latency moves it down by exactly one bucket. */
  lemma HalvedBucket(delta: nat, step: nat, rest: nat)
    requires step <= delta / 2 < step * Pow2(rest + 1)
    requires rest > 0 ==> step * Pow2(rest) <= delta / 2
    ensures step * Pow2(rest + 1) <= delta < step * Pow2(rest + 2)
  {
    assert step * Pow2(rest + 2) == 2 * (step * Pow2(rest + 1));
    assert step * Pow2(rest + 1) == 2 * (step * Pow2(rest));
  }

  /** The bounds of a bucket determine it: buckets do not overlap. */
  lemma BucketUnique(delta: nat, step: nat, i: nat)
    requires step > 0
    requires step * Pow2(i) <= delta < step * Pow2(i + 1)
    ensures Bucket(delta, step) == i
  {
    var r := Bucket(delta, step);
    if r < i {
      ScaledPow2Monotone(step, r + 1, i);
    } else if i < r {
      ScaledPow2Monotone(step, i + 1, r);
    }
  }

  /** The printed range of bucket `i`. */
  predicate InRange(delta: nat, step: nat, i: nat) {
    step * Pow2(i) <= delta < step * Pow2(i + 1)
  }

  /** A latency from the step on is in the range of its bucket and in no other. */
  lemma InRangeIff(delta: nat, step: nat, i: nat)
    requires 0 < step <= delta
    ensures InRange(delta, step, i) <==> Bucket(delta, step) == i
  {
    assert step * Pow2(0) == step;
    if InRange(delta, step, i) {
      BucketUnique(delta, step, i);
    }
  }

  /** There are buckets below `cap` for exactly the latencies below `step * 2^cap`. */
  lemma BucketBelow(delta: nat, step: nat, cap: nat)
    requires 0 < step <= delta && 0 < cap
    ensures Bucket(delta, step) < cap <==> delta < step * Pow2(cap)
  {
    hide Bucket;
    var r := Bucket(delta, step);
    if r < cap {
      ScaledPow2Monotone(step, r + 1, cap);
    } else {
      ScaledPow2Monotone(step, cap, r);
    }
  }

  /** With the last bucket taking the rest, a latency is under its range if there is a bucket for it. */
  lemma CappedRangeIff(delta: nat, step: nat, cap: nat)
    requires 0 < step <= delta && 0 < cap
    ensures
      var used := if Bucket(delta, step) >= cap then cap - 1 else Bucket(delta, step);
      InRange(delta, step, used) <==> delta < step * Pow2(cap)
  {
    hide InRange;
    BucketBelow(delta, step, cap);
    InRangeIff(delta, step, if Bucket(delta, step) >= cap then cap - 1 else Bucket(delta, step));
  }

  lemma ScaledPow2Monotone(step: nat, m: nat, n: nat)
    requires m <= n
    ensures step * Pow2(m) <= step * Pow2(n)
  {
    if m < n {
      Pow2Monotone(m, n);
    }
    assert Pow2(m) <= Pow2(n);
    MulMonotone(step, Pow2(m), Pow2(n));
  }

  lemma MulMonotone(a: nat, x: nat, y: nat)
    requires x <= y
    ensures a * x <= a * y
  {
  }

  // Arrays of counters.

  function Zeros(n: nat): (r: seq<u64>)
    ensures |r| == n && forall i :: 0 <= i < n ==> r[i] == 0
  {
    seq(n, _ => 0)
  }

  function Sum(counts: seq<nat>): nat {
    if counts == [] then 0 else Sum(counts[..|counts| - 1]) + counts[|counts| - 1]
  }

  lemma {:induction false} SumIncrement(counts: seq<nat>, k: nat)
    requires k < |counts|
    ensures Sum(counts[k := counts[k] + 1]) == Sum(counts) + 1
  {
    var counts', n := counts[k := counts[k] + 1], |counts| - 1;
    if k == n {
      assert counts'[..n] == counts[..n];
    } else {
      assert counts'[..n] == counts[..n][k := counts[k] + 1];
      SumIncrement(counts[..n], k);
    }
  }

  lemma {:induction false} SumZeros(n: nat)
    ensures Sum(Zeros(n)) == 0
  {
    if n > 0 {
      assert Zeros(n)[..n - 1] == Zeros(n - 1);
      SumZeros(n - 1);
    }
  }
}
