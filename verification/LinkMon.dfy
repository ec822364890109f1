/** Coalescing of link change notifications (app/internal/linkmon/linkmon.go). The debounce loop,
    the one-slot channel it hands events to and the consumer are interleaved steps; until the
    context is cancelled no notification is lost or counted twice. The timer of a burst is never
    due later than the cap, and a report lands by the cap exactly when the last notification of
    its burst was taken by then. */
module LinkMon {
  import opened Clock
  import opened Results

  const DEFAULT_DEBOUNCE: int := 250 * MILLISECOND
  const DEFAULT_MAX_DELAY: int := 750 * MILLISECOND
  const DEFAULT_POLL_INTERVAL: int := 2 * SECOND

  // ------------------------------------------------------------ configuration

  datatype Config = Config(debounce: int, maxDelay: int, pollInterval: int)

  predicate IsUsable(c: Config) {
    0 < c.debounce <= c.maxDelay && c.pollInterval > 0
  }

  /** The defaults repair what is missing and leave a usable configuration alone. */
  function WithDefaults(c: Config): (r: Config)
    ensures IsUsable(r)
    ensures IsUsable(c) ==> r == c
    ensures c.debounce > 0 ==> r.debounce == c.debounce
    ensures c.maxDelay > 0 && c.maxDelay >= r.debounce ==> r.maxDelay == c.maxDelay
    ensures c.debounce <= 0 ==> r.debounce == 250 * MILLISECOND
    ensures c.maxDelay <= 0 ==> r.maxDelay == Max(750 * MILLISECOND, r.debounce)
    ensures 0 < c.maxDelay < r.debounce ==> r.maxDelay == r.debounce
    ensures r.pollInterval == if c.pollInterval <= 0 then 2 * SECOND else c.pollInterval
  {
    var debounce := if c.debounce <= 0 then DEFAULT_DEBOUNCE else c.debounce;
    var maxDelay := if c.maxDelay <= 0 then DEFAULT_MAX_DELAY else c.maxDelay;
    Config(debounce, Max(maxDelay, debounce), if c.pollInterval <= 0 then DEFAULT_POLL_INTERVAL else c.pollInterval)
  }

  // ------------------------------------------------------------ the loop's steps

  /** A report: the union of what moved, when it settled, and how many notifications it covers. */
  datatype Report = Report(changes: bv8, at: int, count: nat)

  /** A timer, with the reading at which it was started. */
  datatype Timer = Timer(started: int, due: int)

  /** The loop's variables, the event emit is busy handing over, the channel's slot, and what
      the consumer has received. */
  datatype State = State(
    pending: bv8,
    count: nat,
    burst: int,
    timer: Option<Timer>,
    hand: Option<Report>,
    slot: Option<Report>,
    delivered: seq<Report>)

  const START := State(0, 0, 0, None, None, None, [])

  datatype Step =
    | Notify(change: bv8, first: int, now: int)
    | Fire(now: int)
    | Put
    | Merge
    | Receive

  /** How long to wait for the burst to go quiet, given the reading the wait starts at. */
  function Delay(cfg: Config, burst: int, now: int): (d: int)
    ensures d >= 0 && (cfg.debounce >= 0 ==> d <= cfg.debounce)
  {
    Max(0, Min(cfg.debounce, cfg.maxDelay - (now - burst)))
  }

  predicate Enabled(s: State, e: Step) {
    match e
    case Notify(_, _, _) => s.hand.None?
    case Fire(now) => s.hand.None? && s.timer.Some? && s.timer.value.due <= now
    case Put => s.hand.Some? && s.slot.None?
    case Merge => s.hand.Some? && s.slot.Some?
    case Receive => s.slot.Some?
  }

  function Merged(newer: Report, older: Report): Report {
    Report(newer.changes | older.changes, newer.at, newer.count + older.count)
  }

  function Next(cfg: Config, s: State, e: Step): State
    requires Enabled(s, e)
  {
    match e
    case Notify(c, first, now) =>
      if c == 0 then s
      else
        var burst := if s.count == 0 then first else s.burst;
        s.(pending := s.pending | c, count := s.count + 1, burst := burst,
           timer := Some(Timer(now, now + Delay(cfg, burst, now))))
    case Fire(now) =>
      s.(timer := None, hand := Some(Report(s.pending, now, s.count)), pending := 0, count := 0)
    case Put => s.(slot := s.hand, hand := None)
    case Merge => s.(hand := Some(Merged(s.hand.value, s.slot.value)), slot := None)
    case Receive => s.(delivered := s.delivered + [s.slot.value], slot := None)
  }

  ghost predicate IsRun(cfg: Config, states: seq<State>, steps: seq<Step>) {
    && |states| == |steps| + 1
    && states[0] == START
    && forall i | 0 <= i < |steps| :: Enabled(states[i], steps[i]) && states[i + 1] == Next(cfg, states[i], steps[i])
  }

  // ------------------------------------------------------------ what was notified

  predicate Notifies(e: Step) {
    e.Notify? && e.change != 0
  }

  function Notified(steps: seq<Step>): nat {
    if steps == [] then 0
    else Notified(steps[..|steps| - 1]) + (if Notifies(steps[|steps| - 1]) then 1 else 0)
  }

  function NotifiedBits(steps: seq<Step>): bv8 {
    if steps == [] then 0
    else if Notifies(steps[|steps| - 1]) then NotifiedBits(steps[..|steps| - 1]) | steps[|steps| - 1].change
    else NotifiedBits(steps[..|steps| - 1])
  }

  /** The reading at the first notification since the last report was made, if there is one. */
  function BurstStart(steps: seq<Step>): Option<int> {
    if steps == [] then None
    else
      var before, last := BurstStart(steps[..|steps| - 1]), steps[|steps| - 1];
      if last.Fire? then None
      else if Notifies(last) && before.None? then Some(last.first)
      else before
  }

  /** The reading at which the latest notification of all was taken. */
  function LastTaken(steps: seq<Step>): int {
    if steps == [] then 0
    else if Notifies(steps[|steps| - 1]) then steps[|steps| - 1].now
    else LastTaken(steps[..|steps| - 1])
  }

  function Counts(reports: seq<Report>): nat {
    if reports == [] then 0 else Counts(reports[..|reports| - 1]) + reports[|reports| - 1].count
  }

  function Bits(reports: seq<Report>): bv8 {
    if reports == [] then 0 else Bits(reports[..|reports| - 1]) | reports[|reports| - 1].changes
  }

  function Listed(r: Option<Report>): seq<Report> {
    if r.Some? then [r.value] else []
  }

  /** What there is of both: received, in the slot, in emit's hand and still pending. */
  function AllCounts(s: State): nat {
    Counts(s.delivered) + Counts(Listed(s.slot)) + Counts(Listed(s.hand)) + s.count
  }

  function AllBits(s: State): bv8 {
    Bits(s.delivered) | Bits(Listed(s.slot)) | Bits(Listed(s.hand)) | s.pending
  }

  // ------------------------------------------------------------ the invariant

  ghost predicate Conserved(s: State, steps: seq<Step>) {
    AllCounts(s) == Notified(steps) && AllBits(s) == NotifiedBits(steps)
  }

  /** The timer runs exactly while something is pending, never past the cap, and not at all
      while emit has an event in hand. */
  ghost predicate Timed(cfg: Config, s: State, steps: seq<Step>) {
    && (s.timer.Some? <==> s.count > 0)
    && BurstStart(steps) == (if s.count > 0 then Some(s.burst) else None)
    && (s.timer.Some? ==>
          && s.timer.value.started == LastTaken(steps)
          && s.timer.value.due == s.timer.value.started + Delay(cfg, s.burst, s.timer.value.started))
    && (s.hand.Some? ==> s.count == 0)
  }

  predicate Covers(r: Report) {
    r.count > 0 && r.changes != 0
  }

  /** Every report covers something. */
  ghost predicate Covering(s: State) {
    && (s.pending == 0 <==> s.count == 0)
    && (s.hand.Some? ==> Covers(s.hand.value))
    && (s.slot.Some? ==> Covers(s.slot.value))
    && forall r | r in s.delivered :: Covers(r)
  }

  lemma OneReport(r: Option<Report>)
    ensures Counts(Listed(r)) == (if r.Some? then r.value.count else 0)
    ensures Bits(Listed(r)) == (if r.Some? then r.value.changes else 0)
  {
    if r.Some? {
      assert Listed(r)[..0] == [];
    }
  }

  lemma CountsKept(cfg: Config, s: State, e: Step)
    requires Enabled(s, e)
    ensures AllCounts(Next(cfg, s, e)) == AllCounts(s) + (if Notifies(e) then 1 else 0)
  {
    var t := Next(cfg, s, e);
    OneReport(s.slot);
    OneReport(s.hand);
    OneReport(t.slot);
    OneReport(t.hand);
    if e.Fire? {
      assert s.hand.None?;
    }
    if e.Receive? {
      assert t.delivered[..|s.delivered|] == s.delivered;
    }
  }

  lemma OrAssociates(a: bv8, p: bv8, c: bv8)
    ensures a | (p | c) == a | p | c
  {
  }

  lemma OrNothing(a: bv8)
    ensures a | 0 == a
  {
  }

  lemma OrPastNothing(a: bv8, p: bv8)
    ensures a | 0 | p == a | p | 0
  {
  }

  lemma OrSwaps(d: bv8, slot: bv8, hand: bv8)
    ensures d | slot | hand == d | 0 | (hand | slot)
  {
  }

  lemma NotifyAddsBits(cfg: Config, s: State, e: Step)
    requires Enabled(s, e) && Notifies(e)
    ensures AllBits(Next(cfg, s, e)) == AllBits(s) | e.change
  {
    OrAssociates(Bits(s.delivered) | Bits(Listed(s.slot)) | Bits(Listed(s.hand)), s.pending, e.change);
  }

  lemma FireKeepsBits(cfg: Config, s: State, e: Step)
    requires Enabled(s, e) && e.Fire?
    ensures AllBits(Next(cfg, s, e)) == AllBits(s)
  {
    OneReport(s.hand);
    OneReport(Next(cfg, s, e).hand);
    OrPastNothing(Bits(s.delivered) | Bits(Listed(s.slot)), s.pending);
  }

  lemma PutKeepsBits(cfg: Config, s: State, e: Step)
    requires Enabled(s, e) && e.Put?
    ensures AllBits(Next(cfg, s, e)) == AllBits(s)
  {
    OneReport(None);
    OrPastNothing(Bits(s.delivered), Bits(Listed(s.hand)));
  }

  lemma MergeKeepsBits(cfg: Config, s: State, e: Step)
    requires Enabled(s, e) && e.Merge?
    ensures AllBits(Next(cfg, s, e)) == AllBits(s)
  {
    OneReport(None);
    OneReport(s.slot);
    OneReport(s.hand);
    OneReport(Next(cfg, s, e).hand);
    OrSwaps(Bits(s.delivered), s.slot.value.changes, s.hand.value.changes);
  }

  lemma ReceiveKeepsBits(cfg: Config, s: State, e: Step)
    requires Enabled(s, e) && e.Receive?
    ensures AllBits(Next(cfg, s, e)) == AllBits(s)
  {
    OneReport(None);
    OneReport(s.slot);
    assert Next(cfg, s, e).delivered[..|s.delivered|] == s.delivered;
    OrNothing(Bits(s.delivered) | s.slot.value.changes);
  }

  lemma OthersKeepBits(cfg: Config, s: State, e: Step)
    requires Enabled(s, e) && !Notifies(e)
    ensures AllBits(Next(cfg, s, e)) == AllBits(s)
  {
    match e
    case Notify(_, _, _) =>
    case Fire(_) => FireKeepsBits(cfg, s, e);
    case Put => PutKeepsBits(cfg, s, e);
    case Merge => MergeKeepsBits(cfg, s, e);
    case Receive => ReceiveKeepsBits(cfg, s, e);
  }

  lemma NonZeroUnion(a: bv8, b: bv8)
    requires a != 0 || b != 0
    ensures a | b != 0
  {
  }

  lemma CoveringKept(cfg: Config, s: State, e: Step, steps: seq<Step>)
    requires Enabled(s, e) && Covering(s) && Timed(cfg, s, steps)
    ensures Covering(Next(cfg, s, e))
  {
    if Notifies(e) {
      NonZeroUnion(s.pending, e.change);
    } else if e.Merge? {
      NonZeroUnion(s.hand.value.changes, s.slot.value.changes);
    }
  }

  lemma TimedKept(cfg: Config, s: State, e: Step, steps: seq<Step>)
    requires Enabled(s, e) && Timed(cfg, s, steps)
    ensures Timed(cfg, Next(cfg, s, e), steps + [e])
  {
    assert (steps + [e])[..|steps|] == steps;
  }

  lemma BitsConserved(cfg: Config, s: State, e: Step, steps: seq<Step>)
    requires Enabled(s, e) && AllBits(s) == NotifiedBits(steps)
    ensures AllBits(Next(cfg, s, e)) == NotifiedBits(steps + [e])
  {
    assert (steps + [e])[..|steps|] == steps;
    if Notifies(e) {
      NotifyAddsBits(cfg, s, e);
    } else {
      OthersKeepBits(cfg, s, e);
    }
  }

  lemma CountsConserved(cfg: Config, s: State, e: Step, steps: seq<Step>)
    requires Enabled(s, e) && AllCounts(s) == Notified(steps)
    ensures AllCounts(Next(cfg, s, e)) == Notified(steps + [e])
  {
    assert (steps + [e])[..|steps|] == steps;
    CountsKept(cfg, s, e);
  }

  lemma {:induction false} ConservedHolds(cfg: Config, states: seq<State>, steps: seq<Step>, i: nat)
    requires IsRun(cfg, states, steps) && i <= |steps|
    ensures Conserved(states[i], steps[..i])
  {
    if i == 0 {
      OneReport(None);
    } else {
      ConservedHolds(cfg, states, steps, i - 1);
      assert steps[..i] == steps[..i - 1] + [steps[i - 1]];
      CountsConserved(cfg, states[i - 1], steps[i - 1], steps[..i - 1]);
      BitsConserved(cfg, states[i - 1], steps[i - 1], steps[..i - 1]);
    }
  }

  lemma {:induction false} TimedHolds(cfg: Config, states: seq<State>, steps: seq<Step>, i: nat)
    requires IsRun(cfg, states, steps) && i <= |steps|
    ensures Timed(cfg, states[i], steps[..i])
  {
    if i > 0 {
      TimedHolds(cfg, states, steps, i - 1);
      assert steps[..i] == steps[..i - 1] + [steps[i - 1]];
      TimedKept(cfg, states[i - 1], steps[i - 1], steps[..i - 1]);
    }
  }

  /** No report is empty: each covers a notification and names a change. */
  lemma {:induction false} CoveringHolds(cfg: Config, states: seq<State>, steps: seq<Step>, i: nat)
    requires IsRun(cfg, states, steps) && i <= |steps|
    ensures Covering(states[i])
  {
    if i > 0 {
      CoveringHolds(cfg, states, steps, i - 1);
      TimedHolds(cfg, states, steps, i - 1);
      CoveringKept(cfg, states[i - 1], steps[i - 1], steps[..i - 1]);
    }
  }

  // ------------------------------------------------------------ results

  /** Nothing is lost and nothing is counted twice, in every interleaving of notifications,
      reports and a consumer of any speed. */
  lemma NothingLost(cfg: Config, states: seq<State>, steps: seq<Step>)
    requires IsRun(cfg, states, steps)
    ensures AllCounts(states[|steps|]) == Notified(steps)
    ensures AllBits(states[|steps|]) == NotifiedBits(steps)
  {
    ConservedHolds(cfg, states, steps, |steps|);
    assert steps[..|steps|] == steps;
  }

  /** Once nothing is pending or under way, the consumer has been told everything. */
  lemma ConsumerToldAll(cfg: Config, states: seq<State>, steps: seq<Step>)
    requires IsRun(cfg, states, steps)
    requires var s := states[|steps|]; s.timer.None? && s.slot.None? && s.hand.None?
    ensures Counts(states[|steps|].delivered) == Notified(steps)
    ensures Bits(states[|steps|].delivered) == NotifiedBits(steps)
  {
    ConservedHolds(cfg, states, steps, |steps|);
    TimedHolds(cfg, states, steps, |steps|);
    CoveringHolds(cfg, states, steps, |steps|);
    assert steps[..|steps|] == steps;
    OneReport(None);
    OrNothing(Bits(states[|steps|].delivered));
  }

  /** While a burst lasts a timer is running that is due no later than the cap after the burst
      began, or at once when it was started past the cap. */
  lemma BurstIsCapped(cfg: Config, states: seq<State>, steps: seq<Step>)
    requires IsRun(cfg, states, steps)
    ensures var s := states[|steps|];
            && (BurstStart(steps).Some? <==> s.timer.Some?)
            && (s.timer.Some? ==> s.timer.value.due <= Max(s.timer.value.started, BurstStart(steps).value + cfg.maxDelay))
  {
    TimedHolds(cfg, states, steps, |steps|);
    assert steps[..|steps|] == steps;
  }

  /** And it is due when the burst has been quiet for the debounce time or is as old as the cap
      allows, whichever comes first, and at once when that has passed. */
  lemma TimerIsExact(cfg: Config, states: seq<State>, steps: seq<Step>, i: nat)
    requires IsRun(cfg, states, steps) && i <= |steps| && IsUsable(cfg) && states[i].timer.Some?
    ensures BurstStart(steps[..i]).Some?
    ensures var last, begun := LastTaken(steps[..i]), BurstStart(steps[..i]).value;
            states[i].timer.value.due == Max(last, Min(last + cfg.debounce, begun + cfg.maxDelay))
  {
    TimedHolds(cfg, states, steps, i);
  }

  /** So no report is made early: the last notification is the debounce time back, or the first
      the cap. */
  lemma ReportWaits(cfg: Config, states: seq<State>, steps: seq<Step>, i: nat)
    requires IsRun(cfg, states, steps) && i < |steps| && IsUsable(cfg) && steps[i].Fire?
    ensures BurstStart(steps[..i]).Some?
    ensures || steps[i].now >= LastTaken(steps[..i]) + cfg.debounce
            || steps[i].now >= BurstStart(steps[..i]).value + cfg.maxDelay
  {
    TimerIsExact(cfg, states, steps, i);
  }

  /** How many notifications came since the last report was made, and what they said. */
  function Since(steps: seq<Step>): (nat, bv8) {
    if steps == [] || steps[|steps| - 1].Fire? then (0, 0)
    else
      var before, last := Since(steps[..|steps| - 1]), steps[|steps| - 1];
      if Notifies(last) then (before.0 + 1, before.1 | last.change) else before
  }

  lemma SinceNext(cfg: Config, s: State, e: Step, steps: seq<Step>)
    requires Enabled(s, e) && (s.count, s.pending) == Since(steps)
    ensures (Next(cfg, s, e).count, Next(cfg, s, e).pending) == Since(steps + [e])
  {
    assert (steps + [e])[..|steps|] == steps;
  }

  lemma {:induction false} PendingIsSince(cfg: Config, states: seq<State>, steps: seq<Step>, i: nat)
    requires IsRun(cfg, states, steps) && i <= |steps|
    ensures (states[i].count, states[i].pending) == Since(steps[..i])
  {
    if i > 0 {
      PendingIsSince(cfg, states, steps, i - 1);
      assert steps[..i] == steps[..i - 1] + [steps[i - 1]];
      SinceNext(cfg, states[i - 1], steps[i - 1], steps[..i - 1]);
    }
  }

  /** A report is of exactly the notifications since the one before it. */
  lemma ReportIsTheBurst(cfg: Config, states: seq<State>, steps: seq<Step>, i: nat)
    requires IsRun(cfg, states, steps) && i < |steps| && steps[i].Fire?
    ensures var (count, changes) := Since(steps[..i]);
            states[i + 1].hand == Some(Report(changes, steps[i].now, count))
  {
    PendingIsSince(cfg, states, steps, i);
  }

  /** When the loop takes the timer as soon as it is due, the report of a burst lands by the cap
      exactly when the last notification of the burst was taken by then. */
  lemma ReportByCap(cfg: Config, states: seq<State>, steps: seq<Step>, i: nat)
    requires IsRun(cfg, states, steps) && IsUsable(cfg) && i < |steps|
    requires steps[i].Fire? && steps[i].now == states[i].timer.value.due
    ensures BurstStart(steps[..i]).Some? && states[i + 1].hand.Some?
    ensures var cap := BurstStart(steps[..i]).value + cfg.maxDelay;
            states[i + 1].hand.value.at <= cap <==> LastTaken(steps[..i]) <= cap
  {
    TimedHolds(cfg, states, steps, i);
  }

  /** A notification that the loop takes while the timer is already due starts it afresh, so a
      report can land any time past the cap. */
  lemma ReportPastCap(cfg: Config, extra: nat) returns (states: seq<State>, steps: seq<Step>)
    requires IsUsable(cfg) && extra > 0
    ensures IsRun(cfg, states, steps) && |steps| == 3
    ensures steps[2].Fire? && steps[2].now == states[2].timer.value.due
    ensures BurstStart(steps[..2]) == Some(0) && states[3].hand.Some?
    ensures states[3].hand.value.at == cfg.maxDelay + extra
  {
    var late := cfg.maxDelay + extra;
    var e0, e1, e2 := Notify(1, 0, 0), Notify(1, late, late), Fire(late);
    var s1 := Next(cfg, START, e0);
    var s2 := Next(cfg, s1, e1);
    states, steps := [START, s1, s2, Next(cfg, s2, e2)], [e0, e1, e2];
    assert steps[..2] == [e0, e1];
    FirstStartsBurst(e0, e1);
  }

  lemma FirstStartsBurst(e0: Step, e1: Step)
    requires Notifies(e0) && Notifies(e1)
    ensures BurstStart([e0, e1]) == Some(e0.first)
  {
    var one, two := [e0], [e0, e1];
    assert one[..|one| - 1] == [] && two[..|two| - 1] == one;
    assert BurstStart(one) == Some(e0.first);
  }

  /** The loop is never stuck in emit: at most one merge, and then the slot is free. */
  function EmitRank(s: State): nat {
    if s.hand.None? then 0 else if s.slot.None? then 1 else 2
  }

  lemma EmitFinishes(cfg: Config, s: State, e: Step)
    requires s.hand.Some?
    ensures Enabled(s, Put) || Enabled(s, Merge)
    ensures Enabled(s, e) ==> EmitRank(Next(cfg, s, e)) < EmitRank(s)
  {
  }

  ghost predicate IsPath(cfg: Config, states: seq<State>, steps: seq<Step>) {
    && |states| == |steps| + 1
    && forall i | 0 <= i < |steps| :: Enabled(states[i], steps[i]) && states[i + 1] == Next(cfg, states[i], steps[i])
  }

  /** What is left to do when no more notifications come. */
  function DrainRank(s: State): nat {
    (if s.timer.Some? then 6 else 0) + (if s.hand.Some? then 3 else 0) + (if s.slot.Some? then 1 else 0)
  }

  /** When notifications stop, at most ten steps of the timer, emit and the consumer deliver
      everything, from whatever point. */
  lemma {:induction false} EverythingIsDelivered(cfg: Config, s: State) returns (states: seq<State>, steps: seq<Step>)
    ensures IsPath(cfg, states, steps) && states[0] == s && |steps| <= DrainRank(s) <= 10
    ensures forall e | e in steps :: !e.Notify?
    ensures var t := states[|steps|]; t.timer.None? && t.hand.None? && t.slot.None?
    decreases DrainRank(s)
  {
    if DrainRank(s) == 0 {
      states, steps := [s], [];
    } else {
      var e := if s.hand.Some? then (if s.slot.Some? then Merge else Put)
               else if s.slot.Some? then Receive
               else Fire(s.timer.value.due);
      var states', steps' := EverythingIsDelivered(cfg, Next(cfg, s, e));
      states, steps := [s] + states', [e] + steps';
      PathPrepends(cfg, s, e, states', steps');
    }
  }

  lemma PathPrepends(cfg: Config, s: State, e: Step, states: seq<State>, steps: seq<Step>)
    requires Enabled(s, e) && IsPath(cfg, states, steps) && states[0] == Next(cfg, s, e)
    ensures IsPath(cfg, [s] + states, [e] + steps)
  {
    var states', steps' := [s] + states, [e] + steps;
    forall i | 0 <= i < |steps'|
      ensures Enabled(states'[i], steps'[i]) && states'[i + 1] == Next(cfg, states'[i], steps'[i])
    {
      if i > 0 {
        assert states'[i] == states[i - 1] && steps'[i] == steps[i - 1] && states'[i + 1] == states[i];
      }
    }
  }

  // ------------------------------------------------------------ when reports settled

  /** Reports are made at readings that never go back. */
  ghost predicate InTimeOrder(steps: seq<Step>) {
    forall i, j | 0 <= i < j < |steps| && steps[i].Fire? && steps[j].Fire? :: steps[i].now <= steps[j].now
  }

  /** The report in hand settled last, the one in the slot before it. */
  ghost predicate SettledInOrder(s: State, steps: seq<Step>) {
    && (s.hand.Some? && s.slot.Some? ==> s.slot.value.at <= s.hand.value.at)
    && (s.hand.Some? ==> SettledIn(steps, s.hand.value.at))
    && (s.slot.Some? ==> SettledIn(steps, s.slot.value.at))
  }

  ghost predicate SettledIn(steps: seq<Step>, at: int) {
    exists k :: 0 <= k < |steps| && steps[k].Fire? && steps[k].now == at
  }

  lemma StillSettled(steps: seq<Step>, i: nat, at: int)
    requires i < |steps| && SettledIn(steps[..i], at)
    ensures SettledIn(steps[..i + 1], at)
    ensures InTimeOrder(steps) && steps[i].Fire? ==> at <= steps[i].now
  {
    var k :| 0 <= k < i && steps[..i][k].Fire? && steps[..i][k].now == at;
    assert steps[..i + 1][k] == steps[k];
  }

  lemma {:induction false} OrderHolds(cfg: Config, states: seq<State>, steps: seq<Step>, i: nat)
    requires IsRun(cfg, states, steps) && i <= |steps| && InTimeOrder(steps)
    ensures SettledInOrder(states[i], steps[..i])
  {
    if i > 0 {
      OrderHolds(cfg, states, steps, i - 1);
      var s, e := states[i - 1], steps[i - 1];
      if s.hand.Some? {
        StillSettled(steps, i - 1, s.hand.value.at);
      }
      if s.slot.Some? {
        StillSettled(steps, i - 1, s.slot.value.at);
      }
      assert e.Fire? ==> steps[..i][i - 1] == e;
    }
  }

  /** A merged report carries the later of the two settle times. */
  lemma MergeKeepsTheLater(cfg: Config, states: seq<State>, steps: seq<Step>, i: nat)
    requires IsRun(cfg, states, steps) && InTimeOrder(steps) && i < |steps| && steps[i].Merge?
    ensures states[i + 1].hand.Some?
    ensures states[i + 1].hand.value.at == Max(states[i].hand.value.at, states[i].slot.value.at)
  {
    OrderHolds(cfg, states, steps, i);
  }
}
