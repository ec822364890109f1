/** Sending by the clock (extras/realm/punch_engine.go): rounds and bursts go out at the first
    reading at which they are due. How many sends that allows is found for any readings, over
    a whole attempt and in any window of time, and compared with the configured rate. */
module PunchPacing {
  import opened Clock
  import opened PunchPlans

  // ------------------------------------------------------------ pacing by the clock

  /** When the next send after these is due. */
  function Due(start: int, gap: int, times: seq<int>): int {
    if times == [] then start else times[|times| - 1] + gap
  }

  /** The readings before the end at which a send repeated every gap is due. */
  function Paced(start: int, gap: int, end: int, readings: seq<int>): seq<int> {
    if readings == [] then []
    else
      var before := Paced(start, gap, end, readings[..|readings| - 1]);
      var now := readings[|readings| - 1];
      if Due(start, gap, before) <= now < end then before + [now] else before
  }

  lemma PacedNext(start: int, gap: int, end: int, readings: seq<int>, now: int)
    ensures var before := Paced(start, gap, end, readings);
            Paced(start, gap, end, readings + [now])
            == if Due(start, gap, before) <= now < end then before + [now] else before
  {
    assert (readings + [now])[..|readings|] == readings;
  }

  function NoSooner(start: int, gap: int, k: nat): int {
    start + k * gap
  }

  lemma NextNoSooner(start: int, gap: int, k: nat)
    ensures NoSooner(start, gap, k + 1) == NoSooner(start, gap, k) + gap
  {
  }

  /** However the clock jumps, the k-th send is at least k gaps after the start. */
  lemma {:induction false} PacedIsSpaced(start: int, gap: int, end: int, readings: seq<int>)
    ensures var sends := Paced(start, gap, end, readings);
            forall k | 0 <= k < |sends| :: NoSooner(start, gap, k) <= sends[k] < end && sends[k] in readings
  {
    if readings != [] {
      var before := Paced(start, gap, end, readings[..|readings| - 1]);
      PacedIsSpaced(start, gap, end, readings[..|readings| - 1]);
      if before != [] {
        NextNoSooner(start, gap, |before| - 1);
        assert NoSooner(start, gap, |before| - 1) <= before[|before| - 1];
      }
    }
  }

  /** And none is missed: with readings in order, every reading between the start and the end
      is less than a gap after a send, its own included. */
  lemma {:induction false} NoReadingIsLate(start: int, gap: int, end: int, readings: seq<int>, r: nat) returns (k: nat)
    requires gap > 0 && r < |readings| && start <= readings[r] < end
    requires forall i, j | 0 <= i < j < |readings| :: readings[i] <= readings[j]
    ensures var sends := Paced(start, gap, end, readings);
            k < |sends| && readings[r] - gap < sends[k] <= readings[r]
  {
    var n := |readings| - 1;
    var before := Paced(start, gap, end, readings[..n]);
    if r < n {
      k := NoReadingIsLate(start, gap, end, readings[..n], r);
    } else if Due(start, gap, before) <= readings[n] {
      k := |before|;
    } else {
      k := |before| - 1;
      PacedIsSpaced(start, gap, end, readings[..n]);
      assert NoSooner(start, gap, k) <= before[k];
      var m :| 0 <= m < n && readings[..n][m] == before[k];
    }
  }

  lemma SendsBy(start: int, gap: int, end: int, readings: seq<int>, latest: int)
    requires gap > 0 && start <= latest
    requires forall now | now in readings :: now <= latest
    ensures |Paced(start, gap, end, readings)| <= (latest - start) / gap + 1
  {
    PacedIsSpaced(start, gap, end, readings);
    var sends := Paced(start, gap, end, readings);
    if sends != [] {
      assert NoSooner(start, gap, |sends| - 1) <= sends[|sends| - 1];
      QuotientBounds(|sends| - 1, gap, latest - start);
    }
  }

  lemma Times(a: nat, n: int, m: int)
    requires n <= m
    ensures n * a <= m * a && a * n <= a * m
  {
  }

  lemma QuotientBounds(k: nat, gap: int, span: int)
    requires gap > 0 && k * gap <= span
    ensures k <= span / gap
  {
    if k > span / gap {
      Times(gap, span / gap + 1, k);
      assert false;
    }
  }

  // ------------------------------------------------------------ sends in batches

  function Capped(n: nat, most: nat): nat {
    if n < most then n else most
  }

  lemma CappedNext(burst: nat, n: nat, total: nat)
    requires Capped(burst * n, total) < total
    ensures Capped(burst * (n + 1), total) == Capped(Capped(burst * n, total) + burst, total)
  {
    BurstsReach(burst, n);
  }

  lemma BurstsReach(burst: nat, n: nat)
    ensures burst * (n + 1) == burst * n + burst
  {
  }

  function AllAt(n: nat, at: int): seq<int> {
    seq(n, _ => at)
  }

  /** One more batch: size sends at one moment, or what is missing of the total. */
  function WithBatch(before: seq<int>, size: nat, total: nat, at: int): (r: seq<int>)
    requires |before| <= total
    ensures |r| == Capped(|before| + size, total)
  {
    before + AllAt(Capped(|before| + size, total) - |before|, at)
  }

  /** The times of total sends made size at a time, as many batches as there are or are needed. */
  function BatchTimes(size: nat, total: nat, batches: seq<int>): (r: seq<int>)
    ensures |r| <= total
  {
    if batches == [] then []
    else WithBatch(BatchTimes(size, total, batches[..|batches| - 1]), size, total, batches[|batches| - 1])
  }

  lemma BatchTimesNext(size: nat, total: nat, batches: seq<int>, at: int)
    ensures BatchTimes(size, total, batches + [at]) == WithBatch(BatchTimes(size, total, batches), size, total, at)
  {
    var more := batches + [at];
    assert more[..|more| - 1] == batches && more[|more| - 1] == at;
  }

  lemma {:induction false} BatchTimesSize(size: nat, total: nat, batches: seq<int>)
    ensures |BatchTimes(size, total, batches)| == Capped(size * |batches|, total)
  {
    if batches != [] {
      BatchTimesSize(size, total, batches[..|batches| - 1]);
      BurstsReach(size, |batches| - 1);
    }
  }

  // ------------------------------------------------------------ probes in any window

  lemma {:induction false} PacedSteps(start: int, gap: int, end: int, readings: seq<int>)
    ensures Spaced(Paced(start, gap, end, readings), gap)
  {
    if readings != [] {
      PacedSteps(start, gap, end, readings[..|readings| - 1]);
    }
  }

  /** Two sends some gaps apart in the schedule are at least those gaps apart in time. */
  lemma {:induction false} PacedApart(sends: seq<int>, gap: int, a: nat, b: nat)
    requires Spaced(sends, gap) && a <= b < |sends|
    ensures NoSooner(sends[a], gap, b - a) <= sends[b]
    decreases b
  {
    if a < b {
      PacedApart(sends, gap, a, b - 1);
      NextNoSooner(sends[a], gap, b - 1 - a);
    }
  }

  lemma Quotients(k: nat, size: int, n: nat)
    requires size > 0 && size * n <= k < size * (n + 1)
    ensures k / size == n
  {
    var q := k / size;
    assert size * q <= k < size * (q + 1);
    if q < n {
      Times(size, q + 1, n);
      assert false;
    }
    if q > n {
      Times(size, n + 1, q);
      assert false;
    }
  }

  lemma {:induction false} BatchAt(size: nat, total: nat, batches: seq<int>, k: nat)
    requires k < |BatchTimes(size, total, batches)|
    ensures size > 0 && k / size < |batches| && BatchTimes(size, total, batches)[k] == batches[k / size]
  {
    var n := |batches| - 1;
    var before := BatchTimes(size, total, batches[..n]);
    BatchTimesSize(size, total, batches[..n]);
    if k < |before| {
      BatchAt(size, total, batches[..n], k);
    } else {
      BurstsReach(size, n);
      Quotients(k, size, n);
    }
  }

  ghost predicate Spaced(batches: seq<int>, gap: int) {
    forall k | 0 < k < |batches| :: batches[k - 1] + gap <= batches[k]
  }

  lemma BatchesInSpan(batches: seq<int>, gap: int, a: nat, b: nat, span: int)
    requires gap > 0 && Spaced(batches, gap) && a <= b < |batches| && batches[b] - batches[a] < span
    ensures b - a <= (span - 1) / gap
  {
    PacedApart(batches, gap, a, b);
    QuotientBounds(b - a, gap, span - 1);
  }

  /** Probes less than span apart in time are at most this many, wherever the span begins. */
  lemma WindowBound(size: nat, total: nat, batches: seq<int>, gap: int, i: nat, j: nat, span: int)
    requires gap > 0 && Spaced(batches, gap)
    requires i <= j < |BatchTimes(size, total, batches)|
    requires BatchTimes(size, total, batches)[j] - BatchTimes(size, total, batches)[i] < span
    ensures j - i + 1 <= size * ((span - 1) / gap + 1)
  {
    var a := BatchOf(size, total, batches, i);
    var b := BatchOf(size, total, batches, j);
    QuotientGrows(i, j, size);
    BatchesInSpan(batches, gap, a, b, span);
    BatchesHold(i, j, size, a, b, (span - 1) / gap);
  }

  lemma BatchOf(size: nat, total: nat, batches: seq<int>, k: nat) returns (n: nat)
    requires k < |BatchTimes(size, total, batches)|
    ensures size > 0 && n == k / size && n < |batches| && BatchTimes(size, total, batches)[k] == batches[n]
  {
    BatchAt(size, total, batches, k);
    n := k / size;
  }

  lemma BatchesHold(i: nat, j: nat, size: int, a: nat, b: nat, q: int)
    requires size > 0 && a == i / size && b == j / size && b - a <= q
    ensures j - i + 1 <= size * (q + 1)
  {
    Spread(i, j, size, a, b);
    Times(size, b - a + 1, q + 1);
  }

  lemma QuotientGrows(i: nat, j: nat, size: int)
    requires size > 0 && i <= j
    ensures i / size <= j / size
  {
    QuotientBounds(i / size, size, j);
  }

  lemma Spread(i: nat, j: nat, size: int, a: nat, b: nat)
    requires size > 0 && a == i / size && b == j / size
    ensures j - i + 1 <= size * (b - a + 1)
  {
    assert size * a <= i && j < size * b + size;
    assert size * (b - a + 1) == size * b - size * a + size;
  }

  // ------------------------------------------------------------ the configured rate

  /** When total probes go out at a rate, at readings before the end. */
  function Schedule(rate: int, total: nat, start: int, end: int, readings: seq<int>): seq<int> {
    var (burst, gap) := ProbePacing(rate);
    BatchTimes(burst, total, Paced(start, gap, end, readings))
  }

  /** No more probes than the rate ever go out within less than a second of each other, however
      many a plan can have and whatever the readings. */
  ghost predicate CapsSecond(rate: int) {
    forall total: nat, start: int, end: int, readings: seq<int>, i: nat, j: nat
      {:trigger Schedule(rate, total, start, end, readings)[i], Schedule(rate, total, start, end, readings)[j]} ::
      total <= MAX_PROBES && i <= j < |Schedule(rate, total, start, end, readings)|
      && Schedule(rate, total, start, end, readings)[j] - Schedule(rate, total, start, end, readings)[i] < SECOND
      ==> j - i + 1 <= rate
  }

  /** A second is a whole number of whole gaps. */
  predicate DividesSecond(rate: int)
    requires rate > 0
  {
    var burst := ProbePacing(rate).0;
    rate % burst == 0 && SECOND % (rate / burst) == 0
  }

  /** How many bursts fit in less than a second. */
  function BurstsInSecond(gap: int): nat
    requires gap > 0
  {
    (SECOND - 1) / gap + 1
  }

  lemma NextMultiple(b: int, c: int)
    ensures (b + 1) * c == b * c + c
  {
  }

  lemma Cancel(a: int, b: int, c: int)
    requires c > 0 && a * c <= b * c
    ensures a <= b
  {
    NextMultiple(b, c);
    if a > b {
      Times(c, b + 1, a);
      assert false;
    }
  }

  lemma SecondIsCovered(gap: int)
    requires 0 < gap
    ensures (BurstsInSecond(gap) - 1) * gap < SECOND <= BurstsInSecond(gap) * gap
  {
  }

  /** A second's bursts come to the rate at least, and to exactly the rate when gaps divide it. */
  lemma SecondOfBursts(rate: int, burst: int, gap: int)
    requires 0 < rate && 0 < burst && 0 < gap && gap * rate <= SECOND * burst < (gap + 1) * rate
    ensures rate <= burst * BurstsInSecond(gap)
    ensures burst * BurstsInSecond(gap) == rate <==> rate % burst == 0 && SECOND % (rate / burst) == 0
  {
    var n := BurstsInSecond(gap);
    SecondIsCovered(gap);
    AtLeastRate(rate, burst, gap, n);
    if burst * n == rate {
      RateDivides(rate, burst, gap, n);
    } else if rate % burst == 0 && SECOND % (rate / burst) == 0 {
      DividedRate(rate, burst, gap, n);
    }
  }

  lemma AtLeastRate(rate: int, burst: int, gap: int, n: int)
    requires 0 < rate && 0 < burst && 0 < gap && gap * rate <= SECOND * burst && SECOND <= n * gap
    ensures rate <= burst * n
  {
    assert SECOND * burst <= n * gap * burst == burst * n * gap;
    Cancel(rate, burst * n, gap);
  }

  lemma RateDivides(rate: int, burst: int, gap: int, n: int)
    requires 0 < burst && 0 < gap && 0 < n && gap * rate <= SECOND * burst && SECOND <= n * gap && burst * n == rate
    ensures rate % burst == 0 && rate / burst == n && SECOND % n == 0
  {
    assert n * gap * burst == gap * rate;
    Cancel(n * gap, SECOND, burst);
    Multiple(n, burst);
    Multiple(gap, n);
  }

  lemma Multiple(a: nat, b: int)
    requires b > 0
    ensures a * b % b == 0 && a * b / b == a
  {
    BurstsReach(b, a);
    Quotients(a * b, b, a);
    Remainder(a * b, b);
  }

  lemma Remainder(k: nat, d: int)
    requires d > 0
    ensures k == d * (k / d) + k % d
  {
  }

  lemma DividedRate(rate: int, burst: int, gap: int, n: int)
    requires 0 < rate && 0 < burst && 0 < gap && gap * rate <= SECOND * burst < (gap + 1) * rate
    requires (n - 1) * gap < SECOND <= n * gap
    requires rate % burst == 0 && SECOND % (rate / burst) == 0
    ensures burst * n == rate
  {
    var k := rate / burst;
    var g := SECOND / k;
    assert rate == k * burst && SECOND == k * g;
    assert gap * (k * burst) <= k * g * burst && k * g * burst < (gap + 1) * (k * burst);
    assert gap * (k * burst) == gap * rate && g * (k * burst) == k * g * burst;
    Cancel(gap, g, rate);
    if gap < g {
      Times(rate, gap + 1, g);
      assert false;
    }
    Cancel(k, n, g);
    if k < n {
      Times(g, k, n - 1);
      assert false;
    }
  }

  /** Readings exactly a gap apart. */
  function Ticks(gap: int, n: nat): (r: seq<int>)
    ensures |r| == n
  {
    if n == 0 then [] else Ticks(gap, n - 1) + [(n - 1) * gap]
  }

  lemma {:induction false} TicksAt(gap: int, n: nat, k: nat)
    requires k < n
    ensures Ticks(gap, n)[k] == k * gap
  {
    if k < n - 1 {
      TicksAt(gap, n - 1, k);
    }
  }

  lemma TicksWithin(gap: int, n: nat)
    requires gap > 0
    ensures forall k | 0 <= k < n :: 0 <= Ticks(gap, n)[k] <= (n - 1) * gap
  {
    forall k | 0 <= k < n
      ensures 0 <= Ticks(gap, n)[k] <= (n - 1) * gap
    {
      TicksAt(gap, n, k);
      Times(gap, 0, k);
      Times(gap, k, n - 1);
    }
  }

  lemma {:induction false} TicksAreDue(gap: int, n: nat, end: int)
    requires gap > 0 && (n > 0 ==> (n - 1) * gap < end)
    ensures Paced(0, gap, end, Ticks(gap, n)) == Ticks(gap, n)
  {
    if n > 0 {
      var before := Ticks(gap, n - 1);
      Times(gap, n - 2, n - 1);
      TicksAreDue(gap, n - 1, end);
      PacedNext(0, gap, end, before, (n - 1) * gap);
      if n > 1 {
        TicksAt(gap, n - 1, n - 2);
        assert (n - 2) * gap + gap == (n - 1) * gap;
      }
    }
  }

  lemma SlowRateIsPaced(rate: int)
    requires 0 < rate < MAX_PROBES
    ensures var (burst, gap) := ProbePacing(rate);
            0 < burst <= rate && 0 < gap && gap * rate <= SECOND * burst < (gap + 1) * rate
  {
    PacingKeepsRate(rate);
  }

  /** Readings a gap apart fit more than the rate into a second when gaps do not divide it. */
  lemma UnevenRateOverflows(rate: int) returns (readings: seq<int>)
    requires 0 < rate < MAX_PROBES && !DividesSecond(rate)
    ensures var ts := Schedule(rate, MAX_PROBES, 0, SECOND, readings);
            |ts| > rate && ts[|ts| - 1] - ts[0] < SECOND
  {
    var (burst, gap) := ProbePacing(rate);
    SlowRateIsPaced(rate);
    var n := BurstsInSecond(gap);
    SecondOfBursts(rate, burst, gap);
    SecondIsCovered(gap);
    readings := Ticks(gap, n);
    TicksAreDue(gap, n, SECOND);
    var ts := Schedule(rate, MAX_PROBES, 0, SECOND, readings);
    BatchTimesSize(burst, MAX_PROBES, readings);
    LastBatchAt(burst, MAX_PROBES, gap, n);
  }

  lemma LastBatchAt(burst: nat, total: nat, gap: int, n: nat)
    requires gap > 0 && BatchTimes(burst, total, Ticks(gap, n)) != []
    ensures var ts := BatchTimes(burst, total, Ticks(gap, n));
            ts[|ts| - 1] - ts[0] <= (n - 1) * gap
  {
    var ts := BatchTimes(burst, total, Ticks(gap, n));
    BatchAt(burst, total, Ticks(gap, n), 0);
    BatchAt(burst, total, Ticks(gap, n), |ts| - 1);
    TicksWithin(gap, n);
  }

  /** The rate caps the probes sent within any second exactly when no plan has more probes than
      that, or when a second is a whole number of whole gaps. The default rate of 100 is such. */
  lemma CapIsExact(rate: int)
    requires rate > 0
    ensures CapsSecond(rate) <==> rate >= MAX_PROBES || DividesSecond(rate)
  {
    if rate >= MAX_PROBES {
    } else if DividesSecond(rate) {
      forall total: nat, start: int, end: int, readings: seq<int>, i: nat, j: nat
        {:trigger Schedule(rate, total, start, end, readings)[i], Schedule(rate, total, start, end, readings)[j]} |
        total <= MAX_PROBES && i <= j < |Schedule(rate, total, start, end, readings)|
        && Schedule(rate, total, start, end, readings)[j] - Schedule(rate, total, start, end, readings)[i] < SECOND
        ensures j - i + 1 <= rate
      {
        EvenRateFits(rate, total, start, end, readings, i, j);
      }
    } else {
      var readings := UnevenRateOverflows(rate);
      var ts := Schedule(rate, MAX_PROBES, 0, SECOND, readings);
      assert ts[|ts| - 1] - ts[0] < SECOND;
    }
  }

  lemma EvenRateFits(rate: int, total: nat, start: int, end: int, readings: seq<int>, i: nat, j: nat)
    requires 0 < rate < MAX_PROBES && DividesSecond(rate)
    requires i <= j < |Schedule(rate, total, start, end, readings)|
    requires Schedule(rate, total, start, end, readings)[j] - Schedule(rate, total, start, end, readings)[i] < SECOND
    ensures j - i + 1 <= rate
  {
    var (burst, gap) := ProbePacing(rate);
    SlowRateIsPaced(rate);
    SecondOfBursts(rate, burst, gap);
    PacedSteps(start, gap, end, readings);
    WindowBound(burst, total, Paced(start, gap, end, readings), gap, i, j, SECOND);
  }

  lemma DefaultRateIsCap()
    ensures CapsSecond(DEFAULT_PROBE_RATE)
  {
    CapIsExact(DEFAULT_PROBE_RATE);
  }
}
