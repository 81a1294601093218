/**
  Arithmetic of a ring whose slots carry a phase ("sense reversal") bit instead of shared counters.

  Positions are counted from 0 and never wrap: position k lives in slot k % n and is written with
  the sense of its lap, which flips each time the ring wraps. The completion queue, the work queue
  and the circular receive buffer all use this one library.
 */
module PhaseRing {

  function Slot(k: nat, n: nat): (i: nat)
    requires n > 0
    ensures i < n
  {
    k % n
  }

  /** The sense with which position k is written, `init` being the sense of the first lap. */
  predicate Sense(init: bool, k: nat, n: nat)
    requires n > 0
  {
    init == ((k / n) % 2 == 0)
  }

  /** The position last written to slot i once positions 0..p are written; negative if none was. */
  function LastIndex(i: nat, p: nat, n: nat): int
    requires i < n
  {
    if i < p % n then p - p % n + i else p - p % n + i - n
  }

  /** The sense bit found in slot i once positions 0..p are written, the ring starting as !init. */
  predicate SlotSense(init: bool, i: nat, p: nat, n: nat)
    requires i < n
  {
    if i < p % n then Sense(init, p, n) else !Sense(init, p, n)
  }

  /** How many of the positions below p fall into slot i, counted one by one. */
  function WriteCount(i: nat, p: nat, n: nat): nat
    requires i < n
  {
    if p == 0 then 0 else WriteCount(i, p - 1, n) + (if (p - 1) % n == i then 1 else 0)
  }

  /** A multiple of n that is not 0 is at least n away from 0. */
  lemma MultipleGap(d: int, n: int)
    requires n > 0
    ensures d >= 1 ==> d * n >= n
    ensures d >= 2 ==> d * n >= 2 * n
    ensures d <= -1 ==> d * n <= -n
  {
  }

  lemma {:induction false} MulBelow(a: nat, b: nat, c: nat)
    requires a < b
    ensures a * c + c <= b * c
  {
    if a + 1 < b {
      MulBelow(a, b - 1, c);
    }
    assert b * c == (b - 1) * c + c;
  }

  lemma DivModUnique(k: nat, q: nat, r: nat, n: nat)
    requires n > 0 && r < n && k == q * n + r
    ensures k / n == q && k % n == r
  {
    assert k == (k / n) * n + k % n;
    assert (q - k / n) * n == q * n - (k / n) * n;
    MultipleGap(q - k / n, n);
  }

  /** Moving on by one: the index wraps to 0 and the lap number grows exactly at the end of a lap. */
  lemma Advance(k: nat, n: nat)
    requires n > 0
    ensures k % n + 1 < n ==> (k + 1) % n == k % n + 1 && (k + 1) / n == k / n
    ensures k % n + 1 == n ==> (k + 1) % n == 0 && (k + 1) / n == k / n + 1
  {
    assert k == (k / n) * n + k % n;
    if k % n + 1 < n {
      DivModUnique(k + 1, k / n, k % n + 1, n);
    } else {
      assert (k / n + 1) * n == (k / n) * n + n;
      DivModUnique(k + 1, k / n + 1, 0, n);
    }
  }

  /** The increment-and-wrap code of every ring in the source: index and sense stay in step. */
  lemma AdvanceSense(init: bool, k: nat, n: nat)
    requires n > 0
    ensures Slot(k + 1, n) == if Slot(k, n) + 1 >= n then 0 else Slot(k, n) + 1
    ensures Sense(init, k + 1, n) ==
            if Slot(k, n) + 1 >= n then !Sense(init, k, n) else Sense(init, k, n)
  {
    Advance(k, n);
  }

  /** Writing position p changes slot p % n and no other. */
  lemma WriteNext(init: bool, i: nat, p: nat, n: nat)
    requires i < n
    ensures LastIndex(i, p + 1, n) == if i == Slot(p, n) then p else LastIndex(i, p, n)
    ensures SlotSense(init, i, p + 1, n) ==
            if i == Slot(p, n) then Sense(init, p, n) else SlotSense(init, i, p, n)
  {
    Advance(p, n);
  }

  /** c and p at most a lap apart are on the same lap or on neighbouring ones. */
  lemma Laps(c: nat, p: nat, n: nat)
    requires n > 0 && c <= p <= c + n
    ensures p / n == c / n || p / n == c / n + 1
    ensures p / n == c / n ==> p - p % n == c - c % n
    ensures p / n == c / n + 1 ==> p - p % n == c - c % n + n
  {
    var d := p / n - c / n;
    assert p == (p / n) * n + p % n && c == (c / n) * n + c % n;
    assert d * n == (p / n) * n - (c / n) * n;
    MultipleGap(d, n);
  }

  /** The law of the phase ring: a consumer at position c that only looks at one bit of one slot
      knows exactly whether the producer, at most a lap ahead, has written position c. */
  lemma PendingExactly(init: bool, c: nat, p: nat, n: nat)
    requires n > 0 && c <= p <= c + n
    ensures SlotSense(init, Slot(c, n), p, n) == Sense(init, c, n) <==> c < p
    ensures LastIndex(Slot(c, n), p, n) == if c < p then c else c - n
  {
    Laps(c, p, n);
  }

  /** LastIndex really is the latest position in the slot. */
  lemma LastIndexIsLatest(i: nat, p: nat, n: nat)
    requires i < n
    ensures p - n <= LastIndex(i, p, n) < p
    ensures LastIndex(i, p, n) >= 0 ==> Slot(LastIndex(i, p, n), n) == i
    ensures forall k: nat :: k < p && Slot(k, n) == i ==> k <= LastIndex(i, p, n)
  {
    if LastIndex(i, p, n) >= 0 {
      LastIndexSlot(i, p, n);
    }
    forall k: nat | k < p && Slot(k, n) == i
      ensures k <= LastIndex(i, p, n)
    {
      if p <= k + n {
        PendingExactly(true, k, p, n);
      }
    }
  }

  lemma LastIndexSlot(i: nat, p: nat, n: nat)
    requires i < n && LastIndex(i, p, n) >= 0
    ensures LastIndex(i, p, n) / n == if i < p % n then p / n else p / n - 1
    ensures LastIndex(i, p, n) % n == i
  {
    assert p == (p / n) * n + p % n;
    if i < p % n {
      DivModUnique(LastIndex(i, p, n), p / n, i, n);
    } else {
      MultipleGap(p / n - 1, n);
      assert (p / n - 1) * n == (p / n) * n - n;
      DivModUnique(LastIndex(i, p, n), p / n - 1, i, n);
    }
  }

  /** Two positions less than a lap apart share a slot only if they are the same position. */
  lemma SameSlot(j: nat, k: nat, n: nat)
    requires n > 0 && j <= k < j + n && Slot(j, n) == Slot(k, n)
    ensures j == k
  {
    Laps(j, k, n);
  }

  /** A slot has been written once on every finished lap, and once more if the current lap is past it. */
  lemma {:induction false} WriteCountIs(i: nat, p: nat, n: nat)
    requires i < n
    ensures WriteCount(i, p, n) == p / n + (if i < p % n then 1 else 0)
  {
    if p == 0 {
      DivModUnique(0, 0, 0, n);
    } else {
      WriteCountIs(i, p - 1, n);
      Advance(p - 1, n);
    }
  }

  /** The bit in a slot is the parity of the number of writes made to that slot. */
  lemma SenseIsWriteParity(init: bool, i: nat, p: nat, n: nat)
    requires i < n
    ensures SlotSense(init, i, p, n) == (init == (WriteCount(i, p, n) % 2 == 1))
    ensures WriteCount(i, p, n) == p / n + (if i < p % n then 1 else 0)
  {
    hide WriteCount;
    WriteCountIs(i, p, n);
  }

  /** For any sense bits whatsoever, left unchanged, a drain that accepts m entries in a row has
      m <= n: a lap later the bit of the starting slot is the wrong one. */
  lemma DrainBound(senses: seq<bool>, init: bool, c: nat, m: nat)
    requires |senses| > 0
    requires forall k :: c <= k < c + m ==> senses[Slot(k, |senses|)] == Sense(init, k, |senses|)
    ensures m <= |senses|
  {
    var n := |senses|;
    assert c == (c / n) * n + c % n;
    assert (c / n + 1) * n == (c / n) * n + n;
    DivModUnique(c + n, c / n + 1, c % n, n);
    assert Slot(c + n, n) == Slot(c, n) && Sense(init, c + n, n) != Sense(init, c, n);
  }
}
