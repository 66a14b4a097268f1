/**
 * 24-bit packet sequence numbers and the two window tests of the receive path.
 */
module Psn {
  const PSN_SPACE: int := 0x100_0000

  type Psn = x: int | 0 <= x < PSN_SPACE

  function Add(p: Psn, n: int): Psn {
    (p + n) % PSN_SPACE
  }

  /** How many steps lead from one sequence number forward to another. */
  function Dist(from: Psn, to: Psn): Psn {
    (to - from) % PSN_SPACE
  }

  // ----- the tests as they are written, with wrap-around by cases -----

  predicate AckTest(epsn: Psn, psn: Psn, maxForward: Psn) {
    (epsn <= psn && psn <= maxForward)
    || ((epsn <= psn || psn <= maxForward) && maxForward < epsn)
  }

  predicate DuplicateTest(oldest: Psn, epsn: Psn, psn: Psn) {
    || (oldest < epsn && psn < epsn && psn >= oldest)
    || (oldest > epsn && (psn < epsn || psn >= oldest))
  }

  // ----- what they mean: windows on the ring -----

  lemma DistCases(from: Psn, to: Psn)
    ensures Dist(from, to) == if from <= to then to - from else to - from + PSN_SPACE
  {
    if from > to {
      ModOnce(to - from);
    }
  }

  lemma ModOnce(x: int)
    requires -PSN_SPACE <= x < 0
    ensures x % PSN_SPACE == x + PSN_SPACE
  {
  }

  /** An acknowledgement is accepted exactly when it lies in [epsn, maxForward] on the ring. */
  lemma AckTestIsWindow(epsn: Psn, psn: Psn, maxForward: Psn)
    ensures AckTest(epsn, psn, maxForward) <==> Dist(epsn, psn) <= Dist(epsn, maxForward)
  {
    DistCases(epsn, psn);
    DistCases(epsn, maxForward);
  }

  /** A packet is a duplicate exactly when it lies in [oldest, epsn) on the ring. */
  lemma DuplicateTestIsWindow(oldest: Psn, epsn: Psn, psn: Psn)
    ensures DuplicateTest(oldest, epsn, psn) <==> Dist(oldest, psn) < Dist(oldest, epsn)
  {
    DistCases(oldest, psn);
    DistCases(oldest, epsn);
  }

  lemma AddCases(p: Psn, n: int)
    requires 0 <= n <= PSN_SPACE
    ensures Add(p, n) == if p + n < PSN_SPACE then p + n else p + n - PSN_SPACE
  {
  }

  lemma AddZero(p: Psn)
    ensures Add(p, 0) == p
  {
  }

  /** Only whole turns of the ring leave a sequence number where it is. */
  lemma AddStays(p: Psn, n: nat)
    ensures Add(p, n) == p <==> n % PSN_SPACE == 0
  {
    var k, m := n / PSN_SPACE, n % PSN_SPACE;
    assert p + n == (p + m) + k * PSN_SPACE;
    ModShift(p + m, k);
    AddCases(p, m);
  }

  lemma AddAdd(p: Psn, m: int, n: int)
    ensures Add(Add(p, m), n) == Add(p, m + n)
  {
    var q := (p + m) / PSN_SPACE;
    assert p + m == q * PSN_SPACE + Add(p, m);
    ModShift(Add(p, m) + n, q);
  }

  lemma {:induction false} ModShift(x: int, k: int)
    ensures (x + k * PSN_SPACE) % PSN_SPACE == x % PSN_SPACE
    decreases if k < 0 then -k else k
  {
    if k > 0 {
      ModShift(x, k - 1);
    } else if k < 0 {
      ModShift(x, k + 1);
    }
  }

  /** Positions less than a whole ring apart are told apart by their sequence numbers. */
  lemma SamePsnSamePosition(p: Psn, a: int, b: int)
    requires -PSN_SPACE < a - b < PSN_SPACE
    ensures Add(p, a) == Add(p, b) <==> a == b
  {
    if a != b {
      var x := Add(p, a);
      AddAdd(p, a, b - a);
      assert Add(p, b) == Add(x, b - a);
      if b - a < 0 {
        ModShift(x + (b - a), 1);
        assert Add(x, b - a) == (x + (b - a) + PSN_SPACE) % PSN_SPACE;
      }
      assert Add(x, b - a) != x;
    }
  }
}
