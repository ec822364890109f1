/** The clock Salamander v2 runs on where the system clock was found wrong at start-up
    (extras/timesource/clock.go): one correction, kept until the system clock is stepped. */
module TimeSource {
  import opened Time = Clock
  import opened Results
  import opened Salamander

  // How far the system clock may move, against elapsed time, before it counts as stepped.
  const STEP_THRESHOLD: int := 15 * SECOND

  datatype Correction = Correction(offset: int, anchor: Instant)

  /** What the system clock would read had it not been stepped since the correction. */
  function Expected(k: Correction, at: Instant): int {
    k.anchor.wall + (at.elapsed - k.anchor.elapsed)
  }

  predicate SteppedSince(k: Correction, at: Instant, threshold: int) {
    at.wall - Expected(k, at) > threshold || at.wall - Expected(k, at) < -threshold
  }

  /** What the clock reads, and the correction in effect afterwards. */
  function ReadAt(s: Option<Correction>, at: Instant, threshold: int): (int, Option<Correction>) {
    match s
    case None => (at.wall, None)
    case Some(k) => if SteppedSince(k, at, threshold) then (at.wall, None) else (at.wall + k.offset, s)
  }

  class Clock {
    var corrected: bool
    var offset: int
    var anchorWall: int
    var anchorMono: int

    ghost predicate Valid()
      reads this
    {
      !corrected ==> offset == 0
    }

    ghost function InEffect(): Option<Correction>
      reads this
    {
      if corrected then Some(Correction(offset, Instant(anchorWall, anchorMono))) else None
    }

    constructor ()
      ensures Valid() && InEffect() == None
    {
      corrected, offset, anchorWall, anchorMono := false, 0, 0, 0;
    }

    /** Now: at is what wallNow and mono give. */
    method Now(at: Instant) returns (t: int)
      requires Valid()
      modifies this`corrected, this`offset
      ensures Valid()
      ensures (t, InEffect()) == ReadAt(old(InEffect()), at, STEP_THRESHOLD)
      ensures InEffect().Some? <==>
                old(corrected) && -15 * SECOND <= (at.wall - anchorWall) - (at.elapsed - anchorMono) <= 15 * SECOND
      ensures t == if InEffect().Some? then at.wall + old(offset) else at.wall
      ensures InEffect().Some? ==> InEffect() == old(InEffect())
    {
      if !corrected {
        return at.wall;
      }
      var expected := anchorWall + (at.elapsed - anchorMono);
      var diff := at.wall - expected;
      if diff > STEP_THRESHOLD || diff < -STEP_THRESHOLD {
        corrected, offset := false, 0;
        return at.wall;
      }
      return at.wall + offset;
    }

    method Correct(amount: int, at: Instant)
      requires Valid()
      modifies this
      ensures Valid() && InEffect() == Some(Correction(amount, at))
    {
      corrected, offset := true, amount;
      anchorWall, anchorMono := at.wall, at.elapsed;
    }
  }

  // ------------------------------------------------------------ runs of readings

  ghost predicate IsReadings(threshold: int, states: seq<Option<Correction>>, ats: seq<Instant>, times: seq<int>) {
    && |states| == |ats| + 1 == |times| + 1
    && (forall i | 0 <= i < |ats| :: ReadAt(states[i], ats[i], threshold) == (times[i], states[i + 1]))
    && forall i, j | 0 <= i < j < |ats| :: ats[i].elapsed <= ats[j].elapsed
  }

  /** A correction still in effect at the end was in effect all along: nothing but Correct
      brings one back. */
  lemma {:induction false} HeldThroughout(threshold: int, states: seq<Option<Correction>>, ats: seq<Instant>, times: seq<int>, i: nat)
    requires IsReadings(threshold, states, ats, times) && i < |states|
    requires states[|ats|].Some?
    ensures states[i] == states[|ats|]
    decreases |ats| - i
  {
    if i < |ats| {
      HeldThroughout(threshold, states, ats, times, i + 1);
      assert ReadAt(states[i], ats[i], threshold) == (times[i], states[i + 1]);
    }
  }

  /** While a correction is in effect no reading falls more than twice the threshold below an
      earlier one, whatever is done to the system clock. */
  lemma CorrectedDropIsBounded(threshold: int, states: seq<Option<Correction>>, ats: seq<Instant>, times: seq<int>, i: nat, j: nat)
    requires IsReadings(threshold, states, ats, times) && i <= j < |ats|
    requires states[|ats|].Some?
    ensures times[i] - times[j] <= 2 * threshold
  {
    HeldThroughout(threshold, states, ats, times, i);
    HeldThroughout(threshold, states, ats, times, i + 1);
    HeldThroughout(threshold, states, ats, times, j);
    HeldThroughout(threshold, states, ats, times, j + 1);
    assert ReadAt(states[i], ats[i], threshold) == (times[i], states[i + 1]);
    assert ReadAt(states[j], ats[j], threshold) == (times[j], states[j + 1]);
  }

  // ------------------------------------------------------------ against the replay window

  /** The calls of a receiver run were timed by these readings. */
  ghost predicate Times(calls: seq<Call>, times: seq<int>) {
    |calls| == |times| && forall i | 0 <= i < |calls| :: calls[i].now == Stripped(times[i])
  }

  /** No receiver timed by a clock with a correction by offset in effect throughout accepts a
      packet twice. */
  ghost predicate SafeWhileCorrected(offset: int, threshold: int) {
    forall c: Receiver, sets: seq<ReplaySet>, calls: seq<Call>,
           states: seq<Option<Correction>>, ats: seq<Instant>, times: seq<int> ::
      && IsRun(c, sets, calls) && Times(calls, times) && IsReadings(threshold, states, ats, times)
      && states[|ats|].Some? && states[|ats|].value.offset == offset
      ==> !AcceptsTwice(c, sets, calls)
  }

  lemma TimedRunIsSafe(c: Receiver, sets: seq<ReplaySet>, calls: seq<Call>, threshold: int,
                       states: seq<Option<Correction>>, ats: seq<Instant>, times: seq<int>)
    requires IsRun(c, sets, calls) && Times(calls, times) && IsReadings(threshold, states, ats, times)
    requires states[|ats|].Some? && 2 * threshold <= TOLERANCE
    ensures !AcceptsTwice(c, sets, calls)
  {
    forall i, j | 0 <= i <= j < |calls|
      ensures calls[i].now.wall - calls[j].now.wall <= 2 * threshold
    {
      CorrectedDropIsBounded(threshold, states, ats, times, i, j);
    }
    ToleranceIsExact(StrippedClock, 2 * threshold);
    assert PairsLagAtMost(StrippedClock, calls, 2 * threshold);
  }

  // The smallest threshold, in nanoseconds, that twice over is past the tolerance.
  const TOO_FAR: int := 14_500_000_001

  /** The system clock runs ahead by just over 14.5 seconds, then falls as far behind: neither
      is a step to this clock. */
  lemma UnnoticedSteps(offset: int, threshold: int)
      returns (states: seq<Option<Correction>>, ats: seq<Instant>, times: seq<int>)
    requires threshold >= TOO_FAR
    ensures IsReadings(threshold, states, ats, times)
    ensures times == [1, 30 * SECOND, 120 * SECOND + 1, 91 * SECOND - 1]
    ensures states[|ats|].Some? && states[|ats|].value.offset == offset
  {
    var k := Correction(offset, Instant(-offset, 0));
    states := seq(5, _ => Some(k));
    times := [1, 30 * SECOND, 120 * SECOND + 1, 91 * SECOND - 1];
    var elapsed := [1, 30 * SECOND, 120 * SECOND + 1 - TOO_FAR, 120 * SECOND + 1 - TOO_FAR];
    ats := seq(4, i requires 0 <= i < 4 => Instant(times[i] - offset, elapsed[i]));
    forall i | 0 <= i < |ats|
      ensures ReadAt(states[i], ats[i], threshold) == (times[i], states[i + 1])
    {
      assert -TOO_FAR <= times[i] - elapsed[i] <= TOO_FAR;
    }
  }

  /** The receiver such a clock times accepts a packet twice. */
  lemma TwiceWhileCorrected(offset: int, threshold: int)
      returns (sets: seq<ReplaySet>, calls: seq<Call>, states: seq<Option<Correction>>, ats: seq<Instant>, times: seq<int>)
    requires threshold >= TOO_FAR
    ensures IsRun(WITNESS, sets, calls) && Times(calls, times) && IsReadings(threshold, states, ats, times)
    ensures states[|ats|].Some? && states[|ats|].value.offset == offset
    ensures AcceptsTwice(WITNESS, sets, calls)
  {
    sets, calls := TwiceOnStrippedClock();
    states, ats, times := UnnoticedSteps(offset, threshold);
  }

  /** The threshold protects the replay window exactly when twice it is within the tolerance. */
  lemma ThresholdIsExact(offset: int, threshold: int)
    ensures SafeWhileCorrected(offset, threshold) <==> 2 * threshold <= TOLERANCE
  {
    if 2 * threshold <= TOLERANCE {
      forall c: Receiver, sets: seq<ReplaySet>, calls: seq<Call>,
             states: seq<Option<Correction>>, ats: seq<Instant>, times: seq<int> |
        && IsRun(c, sets, calls) && Times(calls, times) && IsReadings(threshold, states, ats, times)
        && states[|ats|].Some? && states[|ats|].value.offset == offset
        ensures !AcceptsTwice(c, sets, calls)
      {
        TimedRunIsSafe(c, sets, calls, threshold, states, ats, times);
      }
    } else {
      var sets, calls, states, ats, times := TwiceWhileCorrected(offset, threshold);
    }
  }

  /** At fifteen seconds it does not. */
  lemma StepThresholdIsTooLarge(offset: int)
    ensures !SafeWhileCorrected(offset, STEP_THRESHOLD)
  {
    ThresholdIsExact(offset, STEP_THRESHOLD);
  }
}
