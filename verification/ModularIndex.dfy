/** Facts about positions taken modulo the ring capacity. */
module ModularIndex {

  /** A product with a nonzero factor is at least as far from zero as the other factor. */
  lemma ProductBound(q: int, n: nat)
    ensures q >= 1 ==> q * n >= n
    ensures q <= -1 ==> q * n + n <= 0
  {
    if q >= 1 {
      assert q * n == (q - 1) * n + n;
    } else if q <= -1 {
      assert q * n + n == (q + 1) * n;
    }
  }

  lemma QuotientRemainderUnique(a: int, n: nat, q: int, r: int)
    requires n > 0 && a == q * n + r && 0 <= r < n
    ensures a % n == r && a / n == q
  {
    var d := a / n - q;
    assert d * n == r - a % n;
    ProductBound(d, n);
  }

  /** Two positions less than one lap apart share a slot only if they are the same position. */
  lemma SameSlotSamePosition(a: nat, b: nat, n: nat)
    requires n > 0
    requires a <= b < a + n
    ensures a % n == b % n ==> a == b
  {
    var d := b / n - a / n;
    assert d * n == (b - b % n) - (a - a % n);
    ProductBound(d, n);
  }

  /** Two positions share a slot just when whole laps lie between them. */
  lemma SameSlotWholeLaps(a: nat, b: nat, n: nat)
    requires n > 0 && a <= b
    ensures a % n == b % n <==> (b - a) % n == 0
  {
    var q := (b - a) / n;
    if a % n == b % n {
      assert b - a == (b / n - a / n) * n;
      QuotientRemainderUnique(b - a, n, b / n - a / n, 0);
    } else if (b - a) % n == 0 {
      assert b == (a / n + q) * n + a % n;
      QuotientRemainderUnique(b, n, a / n + q, a % n);
    }
  }

  /** Adding before or after wrapping lands on the same slot. */
  lemma AddWraps(a: nat, k: nat, n: nat)
    requires n > 0
    ensures (a % n + k) % n == (a + k) % n
  {
    var q, r := (a % n + k) / n, (a % n + k) % n;
    assert a + k == (a / n + q) * n + r;
    QuotientRemainderUnique(a + k, n, a / n + q, r);
  }

  /** Positions one lap apart share a slot. */
  lemma LapSameSlot(a: nat, n: nat)
    requires n > 0
    ensures (a + n) % n == a % n
  {
    assert a + n == (a / n + 1) * n + a % n;
    QuotientRemainderUnique(a + n, n, a / n + 1, a % n);
  }

  /** The wrapped distance recovers the number of positions between two indices. */
  lemma WrappedDistance(t: nat, h: nat, n: nat)
    requires n > 0 && t <= h < t + n
    ensures (h % n + n - t % n) % n == h - t
  {
    var q := t / n + 1 - h / n;
    assert h % n + n - t % n == (h - t) + q * n;
    assert h % n + n - t % n >= 0;
    QuotientRemainderUnique(h % n + n - t % n, n, q, h - t);
  }
}
