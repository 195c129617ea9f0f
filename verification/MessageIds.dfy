/** Message identifiers and sequence numbers of an encrypted session (mtproto/invoke.go). */
module MessageIds {
  import opened Arithmetic
  import opened Bytes

  const NANOS := 1_000_000_000

  /** Go's integer division, which truncates toward zero. */
  function TruncDiv(a: int, b: int): int
    requires b > 0
  {
    if a >= 0 then a / b else -(-a / b)
  }

  /** The fraction of the second, in units of 2^-32 seconds. */
  function Fraction(now: int): int {
    TruncDiv((now - TruncDiv(now, NANOS) * NANOS) * 0x1_0000_0000, NANOS)
  }

  /**
   * (seconds << 32) | fraction in 64 bits: the shift wraps, and or-ing a negative fraction into
   * a multiple of 2^32 gives the fraction.
   */
  function Pack(seconds: int, fraction: int): i64 {
    Wrap64(if fraction < 0 then fraction else seconds * 0x1_0000_0000 + fraction)
  }

  function ClearLowBits(x: i64): (r: i64)
    ensures r % 4 == 0 && r <= x < r + 4
  {
    x - x % 4
  }

  /** The identifier computed from a clock reading in nanoseconds. */
  function Candidate(now: i64): (id: i64)
    ensures id % 4 == 0
  {
    ClearLowBits(Pack(TruncDiv(now, NANOS), Fraction(now)))
  }

  /** The last second whose identifiers fit 64 bits ends here: 2^31 seconds after the epoch. */
  const CLOCK_END := 0x8000_0000 * NANOS

  lemma DivMonotone(a: nat, b: nat, d: nat)
    requires a <= b && d > 0
    ensures a / d <= b / d
  {
    var k := b / d - a / d;
    assert d * k == (b - a) + a % d - b % d;
    if k <= -1 {
      MulMonotone(d, k, -1);
    }
  }

  lemma FractionInRange(now: nat)
    ensures Fraction(now) == (now % NANOS) * 0x1_0000_0000 / NANOS
    ensures 0 <= Fraction(now) < 0x1_0000_0000
  {
    assert now - TruncDiv(now, NANOS) * NANOS == now % NANOS;
  }

  lemma PackInRange(seconds: nat, fraction: nat)
    requires seconds < 0x8000_0000 && fraction < 0x1_0000_0000
    ensures Pack(seconds, fraction) == seconds * 0x1_0000_0000 + fraction
  {
  }

  lemma ClearLowBitsMonotone(x: i64, y: i64)
    requires x <= y
    ensures ClearLowBits(x) <= ClearLowBits(y)
  {
  }

  lemma SecondsInRange(now: nat)
    requires now < CLOCK_END
    ensures TruncDiv(now, NANOS) == now / NANOS < 0x8000_0000
  {
  }

  /** In the last second before the epoch the candidate is the negative fraction alone. */
  lemma JustBeforeEpoch(now: i64)
    requires -NANOS < now < 0
    ensures Fraction(now) == -(-now * 0x1_0000_0000 / NANOS) && -0x1_0000_0000 < Fraction(now) < 0
    ensures Candidate(now) == ClearLowBits(Fraction(now))
  {
    assert TruncDiv(now, NANOS) == 0;
  }

  lemma SecondBeforeEpoch()
    ensures Candidate(-NANOS) == -0x1_0000_0000
    ensures Candidate(-NANOS - 1) == -4
  {
    assert TruncDiv(-NANOS, NANOS) == -1 && Fraction(-NANOS) == 0;
    assert TruncDiv(-NANOS - 1, NANOS) == -1 && Fraction(-NANOS - 1) == -4;
  }

  lemma FromEpochMonotone(a: i64, b: i64)
    requires 0 <= a <= b < CLOCK_END
    ensures 0 <= Candidate(a) <= Candidate(b)
  {
    hide Fraction, Pack, ClearLowBits, TruncDiv;
    FractionInRange(a);
    FractionInRange(b);
    SecondsInRange(a);
    SecondsInRange(b);
    DivMonotone(a, b, NANOS);
    PackInRange(a / NANOS, Fraction(a));
    PackInRange(b / NANOS, Fraction(b));
    if a / NANOS == b / NANOS {
      DivMonotone((a % NANOS) * 0x1_0000_0000, (b % NANOS) * 0x1_0000_0000, NANOS);
    }
    ClearLowBitsMonotone(Pack(a / NANOS, Fraction(a)), Pack(b / NANOS, Fraction(b)));
  }

  /** From one second before the epoch up to 2^31 seconds after it the candidate is monotone in the clock reading. */
  lemma CandidateMonotone(a: i64, b: i64)
    requires -NANOS <= a <= b < CLOCK_END
    ensures Candidate(a) <= Candidate(b)
  {
    hide Candidate, Fraction, ClearLowBits;
    SecondBeforeEpoch();
    if a >= 0 {
      FromEpochMonotone(a, b);
    } else if b >= 0 {
      FromEpochMonotone(b, b);
      if a > -NANOS {
        JustBeforeEpoch(a);
        ClearLowBitsMonotone(Fraction(a), -1);
      }
    } else if b > -NANOS {
      JustBeforeEpoch(b);
      ClearLowBitsMonotone(-0x1_0000_0000, Fraction(b));
      if a > -NANOS {
        JustBeforeEpoch(a);
        DivMonotone(-b * 0x1_0000_0000, -a * 0x1_0000_0000, NANOS);
        ClearLowBitsMonotone(Fraction(a), Fraction(b));
      }
    }
  }

  /** The candidate never decreases between two clock readings of the range. */
  ghost predicate MonotoneOn(lo: i64, hi: i64) {
    forall a: i64, b: i64 :: lo <= a <= b <= hi ==> Candidate(a) <= Candidate(b)
  }

  /**
   * On a range of clock readings around the epoch the candidate is monotone exactly when the
   * range starts at most one second before the epoch and ends before 2^31 seconds after it.
   */
  lemma MonotoneExactly(lo: i64, hi: i64)
    requires lo <= 0 <= hi
    ensures MonotoneOn(lo, hi) <==> -NANOS <= lo && hi < CLOCK_END
  {
    hide Candidate;
    if -NANOS <= lo && hi < CLOCK_END {
      forall a: i64, b: i64 | lo <= a <= b <= hi ensures Candidate(a) <= Candidate(b) {
        CandidateMonotone(a, b);
      }
    } else {
      SecondBeforeEpoch();
      CandidateWraps();
      var a: i64, b: i64 := -NANOS - 1, -NANOS;
      var last: i64, end: i64 := CLOCK_END - 1, CLOCK_END;
      assert Candidate(a) > Candidate(b) && Candidate(last) > Candidate(end);
    }
  }

  // Ranges from the epoch on, also past the first wrap-around.

  /** The number of wrap-arounds of the shift up to a reading: they come every 2^32 seconds, the first after 2^31. */
  function Stretch(now: nat): nat {
    (now / NANOS + 0x8000_0000) / 0x1_0000_0000
  }

  lemma UnitsMonotone(a: nat, b: nat)
    requires a <= b
    ensures Units(a) <= Units(b)
  {
    hide Fraction;
    FractionInRange(a);
    DivMonotone(a, b, NANOS);
    if a / NANOS == b / NANOS {
      DivMonotone((a % NANOS) * 0x1_0000_0000, (b % NANOS) * 0x1_0000_0000, NANOS);
    } else {
      MulMonotone(0x1_0000_0000, a / NANOS + 1, b / NANOS);
    }
  }

  /** Within a stretch the shift is off by a fixed multiple of 2^64. */
  lemma CandidateInStretch(now: i64)
    requires now >= 0
    ensures Candidate(now) == ClearLowBits(Wrap64(Units(now)))
    ensures Wrap64(Units(now)) == Units(now) - Stretch(now) * 0x1_0000_0000_0000_0000
  {
    FractionInRange(now);
    hide Fraction;
    var seconds, fraction := now / NANOS, now % NANOS * 0x1_0000_0000 / NANOS;
    var k, r := (seconds + 0x8000_0000) / 0x1_0000_0000, (seconds + 0x8000_0000) % 0x1_0000_0000;
    assert seconds == 0x1_0000_0000 * k + r - 0x8000_0000;
    var x := (r - 0x8000_0000) * 0x1_0000_0000 + fraction;
    assert Units(now) == x + 0x1_0000_0000_0000_0000 * k;
    WrapsTo(Units(now), x, k);
  }

  lemma WrapsTo(v: int, x: i64, k: int)
    requires v == x + 0x1_0000_0000_0000_0000 * k
    ensures Wrap64(v) == x
  {
    ModAddMultiple(x, k, 0x1_0000_0000_0000_0000);
  }

  /** Where a stretch begins the candidate drops to the least 64-bit integer, from a positive number. */
  lemma StretchEdge(k: nat, edge: i64)
    requires k > 0 && edge == (k * 0x1_0000_0000 - 0x8000_0000) * NANOS
    ensures Stretch(edge) == k && edge > 0 && Stretch(edge - 1) == k - 1
    ensures Candidate(edge) < Candidate(edge - 1)
  {
    var seconds := k * 0x1_0000_0000 - 0x8000_0000;
    DivModUnique(edge, NANOS, seconds, 0);
    DivModUnique(edge - 1, NANOS, seconds - 1, NANOS - 1);
    DivModUnique(seconds + 0x8000_0000, 0x1_0000_0000, k, 0);
    DivModUnique(seconds - 1 + 0x8000_0000, 0x1_0000_0000, k - 1, 0xFFFF_FFFF);
    hide Candidate, ClearLowBits, Wrap64;
    CandidateInStretch(edge);
    CandidateInStretch(edge - 1);
    assert Wrap64(Units(edge)) == -0x8000_0000_0000_0000;
    assert Wrap64(Units(edge - 1)) >= 0;
    ClearLowBitsMonotone(0, Wrap64(Units(edge - 1)));
    assert ClearLowBits(0) >= 0 by {
      ZeroCleared();
    }
  }

  lemma ZeroCleared()
    ensures ClearLowBits(0) == 0
  {
  }

  lemma StretchMonotone(a: nat, b: nat)
    requires a <= b
    ensures Stretch(a) <= Stretch(b)
  {
    DivMonotone(a, b, NANOS);
    DivMonotone(a / NANOS + 0x8000_0000, b / NANOS + 0x8000_0000, 0x1_0000_0000);
  }

  /**
   * On a range of readings from the epoch on the candidate is monotone exactly when no
   * wrap-around lies between its ends.
   */
  lemma MonotoneFromEpoch(lo: i64, hi: i64)
    requires 0 <= lo <= hi
    ensures MonotoneOn(lo, hi) <==> Stretch(lo) == Stretch(hi)
  {
    hide Candidate, ClearLowBits, Stretch, Units, Wrap64;
    if Stretch(lo) == Stretch(hi) {
      forall a: i64, b: i64 | lo <= a <= b <= hi ensures Candidate(a) <= Candidate(b) {
        StretchMonotone(lo, a);
        StretchMonotone(a, b);
        StretchMonotone(b, hi);
        UnitsMonotone(a, b);
        CandidateInStretch(a);
        CandidateInStretch(b);
        ClearLowBitsMonotone(Wrap64(Units(a)), Wrap64(Units(b)));
      }
    } else {
      StretchMonotone(lo, hi);
      var edge := EdgeBetween(lo, hi);
      StretchEdge(Stretch(hi), edge);
    }
  }

  lemma EdgeBetween(lo: i64, hi: i64) returns (edge: i64)
    requires 0 <= lo <= hi && Stretch(lo) < Stretch(hi)
    ensures edge == (Stretch(hi) * 0x1_0000_0000 - 0x8000_0000) * NANOS
    ensures lo < edge <= hi
  {
    var k := Stretch(hi);
    var seconds := k * 0x1_0000_0000 - 0x8000_0000;
    assert hi / NANOS >= seconds;
    assert lo / NANOS < seconds;
    MulMonotone(NANOS, seconds, hi / NANOS);
    MulMonotone(NANOS, lo / NANOS + 1, seconds);
    edge := seconds * NANOS;
  }

  /** At the clock end the shift wraps: the candidate drops to the least 64-bit integer. */
  lemma CandidateWraps()
    ensures Candidate(CLOCK_END) == -0x8000_0000_0000_0000
    ensures Candidate(CLOCK_END - 1) > 0
  {
    hide Fraction, ClearLowBits, TruncDiv, Pack;
    AtClockEnd();
    FractionInRange(CLOCK_END - 1);
    SecondsInRange(CLOCK_END - 1);
    PackInRange((CLOCK_END - 1) / NANOS, Fraction(CLOCK_END - 1));
  }

  lemma AtClockEnd()
    ensures Pack(TruncDiv(CLOCK_END, NANOS), Fraction(CLOCK_END)) == -0x8000_0000_0000_0000
    ensures (CLOCK_END - 1) / NANOS == 0x7fff_ffff
  {
    assert TruncDiv(CLOCK_END, NANOS) == 0x8000_0000;
    hide TruncDiv;
    assert Fraction(CLOCK_END) == 0 by {
      FractionInRange(CLOCK_END);
    }
    hide Fraction;
  }

  /** The time in units of 2^-32 seconds. */
  function Units(now: nat): nat {
    now / NANOS * 0x1_0000_0000 + now % NANOS * 0x1_0000_0000 / NANOS
  }

  /** The identifier without 64-bit limits: the time in units of 2^-32 seconds, rounded down to a multiple of four. */
  function ExactId(now: nat): int {
    Units(now) - Units(now) % 4
  }

  /** From the epoch on, the candidate is the exact identifier precisely until the clock end. */
  lemma CandidateExact(now: i64)
    requires now >= 0
    ensures Candidate(now) == ExactId(now) <==> now < CLOCK_END
  {
    hide Fraction, Pack, TruncDiv;
    FractionInRange(now);
    if now < CLOCK_END {
      SecondsInRange(now);
      PackInRange(now / NANOS, Fraction(now));
    } else {
      DivMonotone(CLOCK_END, now, NANOS);
      AtClockEnd();
      assert CLOCK_END / NANOS == 0x8000_0000;
    }
  }

  /** nextMsgID: the candidate if it is larger than the last id, otherwise the last id plus four. */
  function NextId(last: i64, candidate: i64): i64 {
    if candidate > last then candidate else Wrap64(last + 4)
  }

  /** Exactly when an id grows: unless the counter has to step past the largest 64-bit integer. */
  lemma NextIdIncreases(last: i64, candidate: i64)
    ensures NextId(last, candidate) > last <==> candidate > last || last + 4 <= MAX_I64
    ensures last + 4 <= MAX_I64 ==> NextId(last, candidate) == if candidate > last then candidate else last + 4
  {
  }

  /** The largest id: after it the counter wraps around. */
  const LAST_ID: i64 := MAX_I64 - 3

  /** From an id divisible by four the next one is divisible by four too, and larger unless there is no larger one. */
  lemma NextIdAligned(last: i64, candidate: i64)
    requires last % 4 == 0 && candidate % 4 == 0
    ensures NextId(last, candidate) % 4 == 0
    ensures last < NextId(last, candidate) <==> last != LAST_ID
    ensures last == LAST_ID ==> NextId(last, candidate) == -MAX_I64 - 1
  {
    NextIdIncreases(last, candidate);
  }

  /** The ids drawn for a sequence of candidates, in order. */
  function IdRun(last: i64, candidates: seq<i64>): (ids: seq<i64>)
    ensures |ids| == |candidates|
    decreases |candidates|
  {
    if candidates == [] then []
    else
      var id := NextId(last, candidates[0]);
      [id] + IdRun(id, candidates[1..])
  }

  /**
   * For every trace of candidates, in any order, that leaves room for the counter: ids are
   * strictly increasing and divisible by four, none is below its candidate, and the k-th is at
   * most 4k above a common bound on the starting id and the candidates.
   */
  lemma {:induction false} IdRunProperties(last: i64, candidates: seq<i64>, bound: int)
    requires last % 4 == 0 && last <= bound
    requires forall i :: 0 <= i < |candidates| ==> candidates[i] <= bound && candidates[i] % 4 == 0
    requires bound + 4 * |candidates| <= MAX_I64
    ensures var ids := IdRun(last, candidates);
            && (forall i :: 0 <= i < |ids| ==> last < ids[i] && ids[i] % 4 == 0)
            && (forall i, j :: 0 <= i < j < |ids| ==> ids[i] < ids[j])
            && (forall i :: 0 <= i < |ids| ==> candidates[i] <= ids[i] <= bound + 4 * (i + 1))
    decreases |candidates|
  {
    if candidates != [] {
      var id := NextId(last, candidates[0]);
      NextIdIncreases(last, candidates[0]);
      hide NextId;
      IdRunProperties(id, candidates[1..], bound + 4);
    }
  }

  /** nextSeqNo for a content-related message: the odd number 2*seq + 1 in 32 bits. */
  function SeqNo(seqCounter: int): i32 {
    Wrap32(2 * seqCounter + 1)
  }

  lemma Wrap32Shift(x: int, k: int)
    ensures Wrap32(x + 0x1_0000_0000 * k) == Wrap32(x)
  {
    ModAddMultiple(x, k, 0x1_0000_0000);
  }

  lemma Wrap32Distance(x: int) returns (k: int)
    ensures Wrap32(x) == x + 0x1_0000_0000 * k
  {
    k := if x % 0x1_0000_0000 < 0x8000_0000 then -(x / 0x1_0000_0000) else -(x / 0x1_0000_0000) - 1;
  }

  /** Counting in 32 bits sends the same numbers as counting without bound. */
  lemma SeqNoWraps(counter: int)
    ensures SeqNo(Wrap32(counter)) == SeqNo(counter)
  {
    hide Wrap32;
    var k := Wrap32Distance(counter);
    Wrap32Shift(2 * counter + 1, 2 * k);
    assert 2 * Wrap32(counter) + 1 == (2 * counter + 1) + 0x1_0000_0000 * (2 * k);
  }

  /** Sequence numbers are odd, and 2*counter + 1 itself for the first 2^30 requests. */
  lemma SeqNoOdd(counter: int)
    ensures SeqNo(counter) % 2 == 1
    ensures 0 <= counter < 0x4000_0000 ==> SeqNo(counter) == 2 * counter + 1
  {
    hide Wrap32;
    var k := Wrap32Distance(2 * counter + 1);
    assert SeqNo(counter) == 2 * (counter + 0x8000_0000 * k) + 1;
    if 0 <= counter < 0x4000_0000 {
      SmallWraps(2 * counter + 1);
    }
  }

  lemma SmallWraps(x: int)
    requires 0 <= x < 0x8000_0000
    ensures Wrap32(x) == x
  {
  }
}
