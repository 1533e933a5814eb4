/**
 * The cyclic display index shared by the texture sequence of the viewer and
 * by the readings of every marker: on each timer tick the index moves on by
 * one and wraps around at the length of the sequence it points into.
 */
module RoundRobin {

  /** One tick: `(prev + 1) % length`. */
  function Advance(prev: nat, length: nat): (next: nat)
    requires length > 0
    ensures next < length
    ensures prev + 1 < length ==> next == prev + 1
    ensures prev + 1 == length ==> next == 0
  {
    (prev + 1) % length
  }

  /** The index after `k` ticks starting from `start`. */
  function AdvanceTimes(start: nat, length: nat, k: nat): (index: nat)
    requires length > 0
    ensures k > 0 ==> index < length
    ensures start < length ==> index < length
  {
    if k == 0 then start else Advance(AdvanceTimes(start, length, k - 1), length)
  }

  /** Starting from 0, the index after `k` ticks is `k mod length`. */
  lemma {:induction false} AdvanceTimesFromZero(length: nat, k: nat)
    requires length > 0
    ensures AdvanceTimes(0, length, k) == k % length
  {
    AdvanceTimesOffset(0, length, k);
  }

  /** After `length` ticks from any index inside the range, the index is back where it started. */
  lemma {:induction false} AdvanceFullCycle(start: nat, length: nat)
    requires start < length
    ensures AdvanceTimes(start, length, length) == start
  {
    AdvanceTimesOffset(start, length, length);
    ModUnique(start + length, length, 1, start);
  }

  /** From an index inside the range, `k` ticks land on `(start + k) mod length`. */
  lemma {:induction false} AdvanceTimesOffset(start: nat, length: nat, k: nat)
    requires start < length
    ensures AdvanceTimes(start, length, k) == (start + k) % length
  {
    if k == 0 {
      ModUnique(start, length, 0, start);
    } else {
      AdvanceTimesOffset(start, length, k - 1);
      ModSucc(start + k - 1, length);
    }
  }

  /** The remainder of a successor is the successor of the remainder, wrapped at `n`. */
  lemma ModSucc(x: nat, n: nat)
    requires n > 0
    ensures (x + 1) % n == Advance(x % n, n)
  {
    var q, r := x / n, x % n;
    assert x == q * n + r;
    if r + 1 < n {
      ModUnique(x + 1, n, q, r + 1);
    } else {
      assert x + 1 == (q + 1) * n + 0;
      ModUnique(x + 1, n, q + 1, 0);
    }
  }

  /** Euclidean remainder is determined by any quotient/remainder decomposition. */
  lemma ModUnique(x: int, n: int, q: int, r: int)
    requires n > 0 && 0 <= r < n && x == q * n + r
    ensures x % n == r
  {
    var q0, r0 := x / n, x % n;
    assert x == q0 * n + r0;
    var d := q - q0;
    assert d * n == r0 - r;
    if d > 0 {
      MulAtLeast(d, n);
    } else if d < 0 {
      MulAtLeast(-d, n);
    }
  }

  lemma MulAtLeast(d: int, n: int)
    requires d >= 1 && n >= 0
    ensures d * n >= n
  {
    assert d * n == (d - 1) * n + n;
  }
}
