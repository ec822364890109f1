/** The hole punching loop (extras/realm/punch_engine.go). A plan fixes whom to send to and how
    fast; the loop is proved to keep its packet budgets for any clock readings, any packets
    received and any way the attempt ends. */
module PunchEngine {
  import opened Clock
  import opened Net
  import opened PunchPacing
  import opened PunchPlans
  import opened Results

  datatype Kind = Hello | Ack
  datatype Purpose = ToTarget | ToProbe | Reply
  // at is the clock reading of the pass that sent the packet.
  datatype Sent = Sent(to: AddrPort, kind: Kind, purpose: Purpose, at: int)

  datatype CtxError = DeadlineExceeded | Canceled
  datatype Received = ReadError | Nothing | Packet(from: AddrPort, kind: Kind)

  /** What one pass of the loop sees: the context, the clock, and what the wait ended with. */
  datatype Pass = Pass(ctx: Option<CtxError>, now: int, received: Received)

  datatype Outcome =
    | Running
    | TimedOut(bothEndsSymmetric: bool)
    | Cancelled
    | ReadFailed
    | Found(peer: AddrPort, kind: Kind)

  // ------------------------------------------------------------ the packet log

  function AddressedTo(sent: seq<Sent>, purpose: Purpose): seq<AddrPort> {
    if sent == [] then []
    else
      var last := sent[|sent| - 1];
      AddressedTo(sent[..|sent| - 1], purpose) + (if last.purpose == purpose then [last.to] else [])
  }

  lemma AddressedNext(sent: seq<Sent>, s: Sent, purpose: Purpose)
    ensures AddressedTo(sent + [s], purpose)
            == AddressedTo(sent, purpose) + (if s.purpose == purpose then [s.to] else [])
  {
    assert (sent + [s])[..|sent|] == sent;
  }

  /** When the probes sent so far went out. */
  function ProbeTimes(sent: seq<Sent>): seq<int> {
    if sent == [] then []
    else
      var last := sent[|sent| - 1];
      ProbeTimes(sent[..|sent| - 1]) + (if last.purpose == ToProbe then [last.at] else [])
  }

  lemma ProbeTimesNext(sent: seq<Sent>, s: Sent)
    ensures ProbeTimes(sent + [s]) == ProbeTimes(sent) + (if s.purpose == ToProbe then [s.at] else [])
  {
    assert (sent + [s])[..|sent|] == sent;
  }

  lemma {:induction false} EverySendHasAPurpose(sent: seq<Sent>)
    ensures |sent| == |AddressedTo(sent, ToTarget)| + |AddressedTo(sent, ToProbe)| + |AddressedTo(sent, Reply)|
  {
    if sent != [] {
      EverySendHasAPurpose(sent[..|sent| - 1]);
    }
  }

  /** Hellos go to targets and probes, and only an answer to a hello is an ack. */
  predicate KindsMatch(sent: seq<Sent>) {
    forall s | s in sent :: s.kind == if s.purpose == Reply then Ack else Hello
  }

  method SendHellos(sent: seq<Sent>, addrs: seq<AddrPort>, purpose: Purpose, at: int) returns (r: seq<Sent>)
    requires KindsMatch(sent) && purpose != Reply
    ensures KindsMatch(r)
    ensures AddressedTo(r, purpose) == AddressedTo(sent, purpose) + addrs
    ensures forall p | p != purpose :: AddressedTo(r, p) == AddressedTo(sent, p)
    ensures ProbeTimes(r) == ProbeTimes(sent) + AllAt(if purpose == ToProbe then |addrs| else 0, at)
  {
    r := sent;
    for i := 0 to |addrs|
      invariant KindsMatch(r)
      invariant AddressedTo(r, purpose) == AddressedTo(sent, purpose) + addrs[..i]
      invariant forall p | p != purpose :: AddressedTo(r, p) == AddressedTo(sent, p)
      invariant ProbeTimes(r) == ProbeTimes(sent) + AllAt(if purpose == ToProbe then i else 0, at)
    {
      var s := Sent(addrs[i], Hello, purpose, at);
      forall p ensures AddressedTo(r + [s], p) == AddressedTo(r, p) + (if s.purpose == p then [s.to] else []) {
        AddressedNext(r, s, p);
      }
      ProbeTimesNext(r, s);
      r := r + [s];
    }
    assert addrs[..|addrs|] == addrs;
  }

  function Repeated(s: seq<AddrPort>, n: nat): (r: seq<AddrPort>)
    ensures |r| == n * |s|
  {
    if n == 0 then [] else Repeated(s, n - 1) + s
  }

  lemma RoundFits(size: nat, n: nat, i: nat)
    requires i < n
    ensures i * size + size <= n * size
    ensures i < n - 1 ==> i * size + size <= (n - 1) * size
  {
    NextMultiple(i, size);
    Times(size, i + 1, n);
    if i < n - 1 {
      Times(size, i + 1, n - 1);
    }
  }

  /** Each round goes to every address once, in order. */
  lemma {:induction false} RepeatedAt(s: seq<AddrPort>, n: nat, i: nat, j: nat)
    requires i < n && j < |s|
    ensures 0 <= i * |s| + j < n * |s| && Repeated(s, n)[i * |s| + j] == s[j]
  {
    var before := Repeated(s, n - 1);
    RoundFits(|s|, n, i);
    if i < n - 1 {
      RepeatedAt(s, n - 1, i, j);
      assert (before + s)[i * |s| + j] == before[i * |s| + j];
    } else {
      assert (before + s)[|before| + j] == s[j];
    }
  }

  // ------------------------------------------------------------ how a pass can end the attempt

  function ContextEnd(plan: Plan, e: CtxError): Outcome {
    if e == DeadlineExceeded then TimedOut(plan.bothEndsSymmetric) else Cancelled
  }

  /** The pass gets as far as sending what is due. */
  predicate Sends(plan: Plan, start: int, p: Pass) {
    p.ctx.None? && p.now < start + plan.timeout
  }

  function ReceivedEnd(plan: Plan, received: Received): Outcome {
    match received
    case ReadError => ReadFailed
    case Nothing => Running
    case Packet(from, kind) => if plan.sources.Allows(from) then Found(from, kind) else Running
  }

  function PassEnd(plan: Plan, start: int, p: Pass): Outcome {
    if p.ctx.Some? then ContextEnd(plan, p.ctx.value)
    else if p.now >= start + plan.timeout then TimedOut(plan.bothEndsSymmetric)
    else ReceivedEnd(plan, p.received)
  }

  /** The clock readings of the passes that sent what was due. */
  function Readings(plan: Plan, start: int, script: seq<Pass>): seq<int> {
    if script == [] then []
    else
      var last := script[|script| - 1];
      Readings(plan, start, script[..|script| - 1]) + (if Sends(plan, start, last) then [last.now] else [])
  }

  lemma {:induction false} ReadingsInTime(plan: Plan, start: int, script: seq<Pass>)
    ensures forall now | now in Readings(plan, start, script) :: now < start + plan.timeout
  {
    if script != [] {
      ReadingsInTime(plan, start, script[..|script| - 1]);
    }
  }

  lemma ReadingsNext(plan: Plan, start: int, script: seq<Pass>, k: nat)
    requires k < |script|
    ensures Readings(plan, start, script[..k + 1])
            == Readings(plan, start, script[..k]) + (if Sends(plan, start, script[k]) then [script[k].now] else [])
  {
    assert script[..k + 1][..k] == script[..k];
  }

  // ------------------------------------------------------------ what is due

  function Rounds(plan: Plan, start: int, readings: seq<int>): seq<int> {
    Paced(start, plan.interval, start + plan.timeout, readings)
  }

  function Bursts(plan: Plan, start: int, readings: seq<int>): seq<int> {
    Paced(start, plan.probeGap, start + plan.probeBudget, readings)
  }

  function ProbesOut(plan: Plan, start: int, readings: seq<int>): nat {
    Capped(plan.probeBurst * |Bursts(plan, start, readings)|, |plan.probes|)
  }

  /** Everything sent so far, by purpose: all targets once a round, and the probes in their
      order, a burst at a time, at the readings the bursts were due. */
  ghost predicate SentIsDue(plan: Plan, start: int, readings: seq<int>, sent: seq<Sent>) {
    && KindsMatch(sent)
    && AddressedTo(sent, ToTarget) == Repeated(plan.targets, |Rounds(plan, start, readings)|)
    && AddressedTo(sent, ToProbe) == plan.probes[..ProbesOut(plan, start, readings)]
    && ProbeTimes(sent) == BatchTimes(plan.probeBurst, |plan.probes|, Bursts(plan, start, readings))
  }

  /** The earliest moment something is due after a pass: a round, a burst while there are
      probes and budget left, the end of the attempt or the caller's deadline. */
  function NextDue(plan: Plan, ctxDeadline: int, start: int, readings: seq<int>): int
    requires readings != []
  {
    var now := readings[|readings| - 1];
    var d := Min(Min(start + plan.timeout, ctxDeadline), Due(start, plan.interval, Rounds(plan, start, readings)));
    if ProbesOut(plan, start, readings) < |plan.probes| && now < start + plan.probeBudget
    then Min(d, Due(start, plan.probeGap, Bursts(plan, start, readings))) else d
  }

  /** Each wait lasts until the next thing is due, and a millisecond when that has passed. */
  ghost predicate WaitsInTime(plan: Plan, ctxDeadline: int, start: int, readings: seq<int>, waits: seq<int>) {
    && |waits| == |readings|
    && (readings == [] ||
        var n := |readings| - 1;
        && WaitsInTime(plan, ctxDeadline, start, readings[..n], waits[..n])
        && waits[n] == Wake(readings[n], NextDue(plan, ctxDeadline, start, readings)))
  }

  /** No wait is over before it begins, so the loop never spins. */
  function Wake(now: int, due: int): (r: int)
    ensures now < r
  {
    if due <= now then now + MILLISECOND else due
  }

  // ------------------------------------------------------------ budgets

  function Budget(plan: Plan): int
    requires plan.interval > 0
  {
    |plan.targets| * (plan.timeout / plan.interval + 1) + |plan.probes| + 1
  }

  /** Whatever arrives and however the clock runs, an attempt sends no more than this. */
  lemma PacketBudget(plan: Plan, start: int, script: seq<Pass>, sent: seq<Sent>)
    requires plan.interval > 0 && plan.timeout >= 0
    requires SentIsDue(plan, start, Readings(plan, start, script), sent) && |AddressedTo(sent, Reply)| <= 1
    ensures |sent| <= Budget(plan)
  {
    RoundsFit(plan, start, script);
    EverySendHasAPurpose(sent);
  }

  lemma RoundsFit(plan: Plan, start: int, script: seq<Pass>)
    requires plan.interval > 0 && plan.timeout >= 0
    ensures var rounds := |Rounds(plan, start, Readings(plan, start, script))|;
            rounds * |plan.targets| <= |plan.targets| * (plan.timeout / plan.interval + 1)
  {
    var readings := Readings(plan, start, script);
    ReadingsInTime(plan, start, script);
    SendsBy(start, plan.interval, start + plan.timeout, readings, start + plan.timeout);
    Times(|plan.targets|, |Rounds(plan, start, readings)|, plan.timeout / plan.interval + 1);
  }

  /** By any moment no more bursts have gone out than the pacing allows. A gap that is not
      positive goes with a burst that holds all the probes, and then there is one. */
  lemma ProbesArePaced(plan: Plan, start: int, readings: seq<int>, sent: seq<Sent>, latest: int)
    requires SentIsDue(plan, start, readings, sent)
    requires plan.probeGap > 0 || |plan.probes| <= plan.probeBurst
    requires start <= latest && forall now | now in readings :: now <= latest
    ensures |AddressedTo(sent, ToProbe)|
            <= plan.probeBurst * (if plan.probeGap > 0 then (latest - start) / plan.probeGap + 1 else 1)
  {
    if plan.probeGap > 0 {
      SendsBy(start, plan.probeGap, start + plan.probeBudget, readings, latest);
      Times(plan.probeBurst, |Bursts(plan, start, readings)|, (latest - start) / plan.probeGap + 1);
    }
  }

  lemma PlanIsPaced(c: Config, fallback: Policy, p: Peers, text: AddrPort -> int, plan: Plan)
    requires IsPlan(c, fallback, p, text, plan)
    ensures plan.probeGap > 0 || |plan.probes| <= plan.probeBurst
  {
    if WillProbe(c, p) {
      PlannedPacing(c, fallback, p, text, plan);
      PacedOrOneBurst(OrDefault(c.sym.probeRate, DEFAULT_PROBE_RATE));
    }
  }

  /** Probes sent less than span apart are at most this many, wherever the span begins. */
  lemma ProbesInWindow(plan: Plan, start: int, readings: seq<int>, sent: seq<Sent>, i: nat, j: nat, span: int)
    requires SentIsDue(plan, start, readings, sent) && plan.probeGap > 0
    requires i <= j < |ProbeTimes(sent)| && ProbeTimes(sent)[j] - ProbeTimes(sent)[i] < span
    ensures j - i + 1 <= plan.probeBurst * ((span - 1) / plan.probeGap + 1)
  {
    PacedSteps(start, plan.probeGap, start + plan.probeBudget, readings);
    assert ProbeTimes(sent) == BatchTimes(plan.probeBurst, |plan.probes|, Bursts(plan, start, readings));
    WindowBound(plan.probeBurst, |plan.probes|, Bursts(plan, start, readings), plan.probeGap, i, j, span);
  }

  /** The configured rate is kept within every second when a second is a whole number of gaps
      or the rate is more than a plan can have probes. */
  lemma RateCapsProbes(c: Config, fallback: Policy, p: Peers, text: AddrPort -> int, plan: Plan,
                       start: int, readings: seq<int>, sent: seq<Sent>, i: nat, j: nat)
    requires IsPlan(c, fallback, p, text, plan) && WillProbe(c, p) && SentIsDue(plan, start, readings, sent)
    requires var rate := OrDefault(c.sym.probeRate, DEFAULT_PROBE_RATE);
             rate > 0 && (rate >= MAX_PROBES || DividesSecond(rate))
    requires i <= j < |ProbeTimes(sent)| && ProbeTimes(sent)[j] - ProbeTimes(sent)[i] < SECOND
    ensures j - i + 1 <= OrDefault(c.sym.probeRate, DEFAULT_PROBE_RATE)
  {
    PlannedPacing(c, fallback, p, text, plan);
    RateCaps(plan, OrDefault(c.sym.probeRate, DEFAULT_PROBE_RATE), start, readings, sent, i, j);
  }

  lemma PlannedPacing(c: Config, fallback: Policy, p: Peers, text: AddrPort -> int, plan: Plan)
    requires IsPlan(c, fallback, p, text, plan) && WillProbe(c, p)
    ensures (plan.probeBurst, plan.probeGap) == ProbePacing(OrDefault(c.sym.probeRate, DEFAULT_PROBE_RATE))
    ensures |plan.probes| <= MAX_PROBES
  {
    assert ProbingFits(c.sym, plan.targets, ProbingOf(plan));
  }

  lemma RateCaps(plan: Plan, rate: int, start: int, readings: seq<int>, sent: seq<Sent>, i: nat, j: nat)
    requires (plan.probeBurst, plan.probeGap) == ProbePacing(rate) && |plan.probes| <= MAX_PROBES
    requires rate > 0 && (rate >= MAX_PROBES || DividesSecond(rate)) && SentIsDue(plan, start, readings, sent)
    requires i <= j < |ProbeTimes(sent)| && ProbeTimes(sent)[j] - ProbeTimes(sent)[i] < SECOND
    ensures j - i + 1 <= rate
  {
    CapIsExact(rate);
    assert ProbeTimes(sent) == Schedule(rate, |plan.probes|, start, start + plan.probeBudget, readings);
  }

  // ------------------------------------------------------------ the loop

  method SendTargets(plan: Plan, start: int, ghost readings: seq<int>, now: int, sent: seq<Sent>, nextTargets: int)
    returns (r: seq<Sent>, next: int)
    requires KindsMatch(sent) && now < start + plan.timeout
    requires AddressedTo(sent, ToTarget) == Repeated(plan.targets, |Rounds(plan, start, readings)|)
    requires nextTargets == Due(start, plan.interval, Rounds(plan, start, readings))
    ensures KindsMatch(r)
    ensures AddressedTo(r, ToTarget) == Repeated(plan.targets, |Rounds(plan, start, readings + [now])|)
    ensures AddressedTo(r, ToProbe) == AddressedTo(sent, ToProbe) && AddressedTo(r, Reply) == AddressedTo(sent, Reply)
    ensures ProbeTimes(r) == ProbeTimes(sent)
    ensures next == Due(start, plan.interval, Rounds(plan, start, readings + [now]))
  {
    r, next := sent, nextTargets;
    PacedNext(start, plan.interval, start + plan.timeout, readings, now);
    if now >= nextTargets {
      r := SendHellos(sent, plan.targets, ToTarget, now);
      assert ProbeTimes(sent) + AllAt(0, now) == ProbeTimes(sent);
      next := now + plan.interval;
    }
  }

  method SendProbes(plan: Plan, start: int, ghost readings: seq<int>, now: int, sent: seq<Sent>, index: nat, nextProbe: int)
    returns (r: seq<Sent>, index': nat, next: int, probing: bool)
    requires KindsMatch(sent) && index == ProbesOut(plan, start, readings)
    requires plan.probes == [] || plan.probeBurst > 0
    requires AddressedTo(sent, ToProbe) == plan.probes[..index]
    requires ProbeTimes(sent) == BatchTimes(plan.probeBurst, |plan.probes|, Bursts(plan, start, readings))
    requires index < |plan.probes| ==> nextProbe == Due(start, plan.probeGap, Bursts(plan, start, readings))
    ensures KindsMatch(r) && index' == ProbesOut(plan, start, readings + [now])
    ensures AddressedTo(r, ToProbe) == plan.probes[..index']
    ensures ProbeTimes(r) == BatchTimes(plan.probeBurst, |plan.probes|, Bursts(plan, start, readings + [now]))
    ensures AddressedTo(r, ToTarget) == AddressedTo(sent, ToTarget) && AddressedTo(r, Reply) == AddressedTo(sent, Reply)
    ensures index' < |plan.probes| ==> next == Due(start, plan.probeGap, Bursts(plan, start, readings + [now]))
    ensures probing <==> index' < |plan.probes| && now < start + plan.probeBudget
  {
    r, index', next := sent, index, nextProbe;
    probing := index < |plan.probes| && now < start + plan.probeBudget;
    if probing && now >= nextProbe {
      BurstDue(plan, start, readings, now);
      var end := Capped(index + plan.probeBurst, |plan.probes|);
      r := SendHellos(sent, plan.probes[index..end], ToProbe, now);
      assert plan.probes[..index] + plan.probes[index..end] == plan.probes[..end];
      index' := end;
      probing := index' < |plan.probes|;
      next := now + plan.probeGap;
    } else {
      NoBurstDue(plan, start, readings, now);
    }
  }

  lemma BurstsNext(plan: Plan, start: int, readings: seq<int>, now: int)
    ensures var bursts := Bursts(plan, start, readings);
            Bursts(plan, start, readings + [now])
            == if Due(start, plan.probeGap, bursts) <= now < start + plan.probeBudget then bursts + [now] else bursts
  {
    PacedNext(start, plan.probeGap, start + plan.probeBudget, readings, now);
  }

  lemma BurstDue(plan: Plan, start: int, readings: seq<int>, now: int)
    requires ProbesOut(plan, start, readings) < |plan.probes|
    requires Due(start, plan.probeGap, Bursts(plan, start, readings)) <= now < start + plan.probeBudget
    ensures Bursts(plan, start, readings + [now]) == Bursts(plan, start, readings) + [now]
    ensures ProbesOut(plan, start, readings + [now])
            == Capped(ProbesOut(plan, start, readings) + plan.probeBurst, |plan.probes|)
    ensures var times := BatchTimes(plan.probeBurst, |plan.probes|, Bursts(plan, start, readings));
            && |times| == ProbesOut(plan, start, readings)
            && BatchTimes(plan.probeBurst, |plan.probes|, Bursts(plan, start, readings + [now]))
               == WithBatch(times, plan.probeBurst, |plan.probes|, now)
  {
    BurstsNext(plan, start, readings, now);
    CappedNext(plan.probeBurst, |Bursts(plan, start, readings)|, |plan.probes|);
    BatchTimesNext(plan.probeBurst, |plan.probes|, Bursts(plan, start, readings), now);
    BatchTimesSize(plan.probeBurst, |plan.probes|, Bursts(plan, start, readings));
  }

  lemma NoBurstDue(plan: Plan, start: int, readings: seq<int>, now: int)
    requires var bursts := Bursts(plan, start, readings);
             ProbesOut(plan, start, readings) == |plan.probes| || !(Due(start, plan.probeGap, bursts) <= now < start + plan.probeBudget)
    ensures ProbesOut(plan, start, readings + [now]) == ProbesOut(plan, start, readings)
    ensures BatchTimes(plan.probeBurst, |plan.probes|, Bursts(plan, start, readings + [now]))
            == BatchTimes(plan.probeBurst, |plan.probes|, Bursts(plan, start, readings))
    ensures ProbesOut(plan, start, readings) < |plan.probes| ==>
              Bursts(plan, start, readings + [now]) == Bursts(plan, start, readings)
  {
    var bursts := Bursts(plan, start, readings);
    BurstsNext(plan, start, readings, now);
    if Bursts(plan, start, readings + [now]) != bursts {
      BurstsReach(plan.probeBurst, |bursts|);
      BatchTimesNext(plan.probeBurst, |plan.probes|, bursts, now);
      BatchTimesSize(plan.probeBurst, |plan.probes|, bursts);
      assert AllAt(0, now) == [];
    }
  }

  function NextWake(plan: Plan, ctxDeadline: int, start: int, now: int, nextTargets: int, nextProbe: int, probing: bool): (r: int)
    ensures now < r
    ensures r <= Max(start + plan.timeout, now + MILLISECOND) && r <= Max(nextTargets, now + MILLISECOND)
    ensures r <= Max(ctxDeadline, now + MILLISECOND) && (probing ==> r <= Max(nextProbe, now + MILLISECOND))
    ensures var due := {start + plan.timeout, nextTargets, ctxDeadline} + (if probing then {nextProbe} else {});
            if forall d | d in due :: d > now then r in due && forall d | d in due :: r <= d else r == now + 1_000_000
  {
    var d := if nextTargets < start + plan.timeout then nextTargets else start + plan.timeout;
    var d' := if probing && nextProbe < d then nextProbe else d;
    var d'' := if ctxDeadline < d' then ctxDeadline else d';
    if d'' <= now then now + MILLISECOND else d''
  }

  lemma NoteWait(plan: Plan, ctxDeadline: int, start: int, readings: seq<int>, waits: seq<int>, now: int, wait: int)
    requires WaitsInTime(plan, ctxDeadline, start, readings, waits)
    requires wait == Wake(now, NextDue(plan, ctxDeadline, start, readings + [now]))
    ensures WaitsInTime(plan, ctxDeadline, start, readings + [now], waits + [wait])
  {
    assert (readings + [now])[..|readings|] == readings && (waits + [wait])[..|waits|] == waits;
  }

  method Acknowledge(sent: seq<Sent>, from: AddrPort, at: int) returns (r: seq<Sent>)
    requires KindsMatch(sent)
    ensures KindsMatch(r) && AddressedTo(r, Reply) == AddressedTo(sent, Reply) + [from]
    ensures AddressedTo(r, ToTarget) == AddressedTo(sent, ToTarget) && AddressedTo(r, ToProbe) == AddressedTo(sent, ToProbe)
    ensures ProbeTimes(r) == ProbeTimes(sent)
  {
    var s := Sent(from, Ack, Reply, at);
    AddressedNext(sent, s, ToTarget);
    AddressedNext(sent, s, ToProbe);
    AddressedNext(sent, s, Reply);
    ProbeTimesNext(sent, s);
    r := sent + [s];
  }

  /** The loop's variables. */
  datatype Loop = Loop(nextTargets: int, nextProbe: int, probeIndex: nat, sent: seq<Sent>)

  ghost predicate LoopInv(plan: Plan, start: int, readings: seq<int>, loop: Loop) {
    && SentIsDue(plan, start, readings, loop.sent)
    && AddressedTo(loop.sent, Reply) == []
    && loop.nextTargets == Due(start, plan.interval, Rounds(plan, start, readings))
    && loop.probeIndex == ProbesOut(plan, start, readings)
    && (loop.probeIndex < |plan.probes| ==> loop.nextProbe == Due(start, plan.probeGap, Bursts(plan, start, readings)))
  }

  method SendDue(plan: Plan, start: int, ghost readings: seq<int>, now: int, loop: Loop) returns (r: Loop, probing: bool)
    requires plan.probes == [] || plan.probeBurst > 0
    requires LoopInv(plan, start, readings, loop) && now < start + plan.timeout
    ensures LoopInv(plan, start, readings + [now], r)
    ensures probing <==> r.probeIndex < |plan.probes| && now < start + plan.probeBudget
  {
    var sent, nextTargets := SendTargets(plan, start, readings, now, loop.sent, loop.nextTargets);
    var probeIndex, nextProbe;
    sent, probeIndex, nextProbe, probing := SendProbes(plan, start, readings, now, sent, loop.probeIndex, loop.nextProbe);
    r := Loop(nextTargets, nextProbe, probeIndex, sent);
  }

  lemma WakesWhenDue(plan: Plan, ctxDeadline: int, start: int, readings: seq<int>, loop: Loop, probing: bool)
    requires readings != [] && LoopInv(plan, start, readings, loop)
    requires probing <==> loop.probeIndex < |plan.probes| && readings[|readings| - 1] < start + plan.probeBudget
    ensures var now := readings[|readings| - 1];
            NextWake(plan, ctxDeadline, start, now, loop.nextTargets, loop.nextProbe, probing)
            == Wake(now, NextDue(plan, ctxDeadline, start, readings))
  {
  }

  /** The readings once this pass is over. */
  function After(plan: Plan, start: int, readings: seq<int>, pass: Pass): seq<int> {
    readings + (if Sends(plan, start, pass) then [pass.now] else [])
  }

  method OnePass(plan: Plan, ctxDeadline: int, start: int, ghost readings: seq<int>, pass: Pass, loop: Loop, waits: seq<int>)
    returns (loop': Loop, waits': seq<int>, end: Outcome)
    requires plan.probes == [] || plan.probeBurst > 0
    requires LoopInv(plan, start, readings, loop) && WaitsInTime(plan, ctxDeadline, start, readings, waits)
    ensures end == PassEnd(plan, start, pass)
    ensures LoopInv(plan, start, After(plan, start, readings, pass), loop')
    ensures WaitsInTime(plan, ctxDeadline, start, After(plan, start, readings, pass), waits')
  {
    loop', waits' := loop, waits;
    if pass.ctx.Some? {
      assert After(plan, start, readings, pass) == readings;
      return loop, waits, ContextEnd(plan, pass.ctx.value);
    }
    var now := pass.now;
    if now >= start + plan.timeout {
      assert After(plan, start, readings, pass) == readings;
      return loop, waits, TimedOut(plan.bothEndsSymmetric);
    }
    var probing;
    loop', probing := SendDue(plan, start, readings, now, loop);
    var wait := NextWake(plan, ctxDeadline, start, now, loop'.nextTargets, loop'.nextProbe, probing);
    WakesWhenDue(plan, ctxDeadline, start, readings + [now], loop', probing);
    NoteWait(plan, ctxDeadline, start, readings, waits, now, wait);
    waits' := waits + [wait];
    end := ReceivedEnd(plan, pass.received);
  }

  ghost predicate RunInv(plan: Plan, ctxDeadline: int, start: int, passed: seq<Pass>, loop: Loop, waits: seq<int>) {
    var readings := Readings(plan, start, passed);
    LoopInv(plan, start, readings, loop) && WaitsInTime(plan, ctxDeadline, start, readings, waits)
  }

  method NextPass(plan: Plan, ctxDeadline: int, start: int, script: seq<Pass>, k: nat, loop: Loop, waits: seq<int>)
    returns (loop': Loop, waits': seq<int>, end: Outcome)
    requires k < |script| && (plan.probes == [] || plan.probeBurst > 0)
    requires RunInv(plan, ctxDeadline, start, script[..k], loop, waits)
    ensures end == PassEnd(plan, start, script[k])
    ensures RunInv(plan, ctxDeadline, start, script[..k + 1], loop', waits')
  {
    ghost var readings := Readings(plan, start, script[..k]);
    ReadingsNext(plan, start, script, k);
    loop', waits', end := OnePass(plan, ctxDeadline, start, readings, script[k], loop, waits);
  }

  lemma RunStarts(plan: Plan, ctxDeadline: int, start: int, script: seq<Pass>)
    ensures RunInv(plan, ctxDeadline, start, script[..0], Loop(start, start, 0, []), [])
  {
    assert plan.probeBurst * 0 == 0;
    assert plan.probes[..0] == [];
  }

  method RunPasses(plan: Plan, ctxDeadline: int, start: int, script: seq<Pass>)
    returns (outcome: Outcome, loop: Loop, waits: seq<int>, quiet: nat)
    requires plan.interval > 0 && (plan.probes == [] || plan.probeBurst > 0)
    ensures quiet <= |script|
    ensures forall k | 0 <= k < quiet :: PassEnd(plan, start, script[k]).Running?
    ensures outcome == if quiet < |script| then PassEnd(plan, start, script[quiet]) else Running
    ensures outcome.Running? ==> quiet == |script|
    ensures RunInv(plan, ctxDeadline, start, script[..Capped(quiet + 1, |script|)], loop, waits)
  {
    waits, quiet, outcome := [], 0, Running;
    loop := Loop(start, start, 0, []);
    RunStarts(plan, ctxDeadline, start, script);
    while quiet < |script|
      invariant quiet <= |script| && outcome.Running?
      invariant forall k | 0 <= k < quiet :: PassEnd(plan, start, script[k]).Running?
      invariant RunInv(plan, ctxDeadline, start, script[..quiet], loop, waits)
    {
      loop, waits, outcome := NextPass(plan, ctxDeadline, start, script, quiet, loop, waits);
      if !outcome.Running? {
        return;
      }
      quiet := quiet + 1;
    }
  }

  /** A pass in time, with a live context, that brought nothing or a packet from a source the
      attempt does not believe. */
  predicate GoesOn(plan: Plan, start: int, p: Pass) {
    && p.ctx.None? && p.now < start + plan.timeout
    && (p.received.Nothing? || (p.received.Packet? && !plan.sources.Allows(p.received.from)))
  }

  /** How any other pass ends the attempt: as the context says, at the attempt's own deadline,
      with the error reading met, or with a packet of either kind from a source it believes. */
  predicate Ends(plan: Plan, start: int, p: Pass, outcome: Outcome) {
    if p.ctx == Some(DeadlineExceeded) then outcome == TimedOut(plan.bothEndsSymmetric)
    else if p.ctx == Some(Canceled) then outcome == Cancelled
    else if p.now >= start + plan.timeout then outcome == TimedOut(plan.bothEndsSymmetric)
    else if p.received.ReadError? then outcome == ReadFailed
    else
      && p.received.Packet? && plan.sources.Allows(p.received.from)
      && outcome == Found(p.received.from, p.received.kind)
  }

  lemma PassEndIsExact(plan: Plan, start: int, p: Pass)
    ensures PassEnd(plan, start, p).Running? <==> GoesOn(plan, start, p)
    ensures !PassEnd(plan, start, p).Running? ==> Ends(plan, start, p, PassEnd(plan, start, p))
  {
  }

  /** In an attempt that a configuration asked for, a packet is an answer exactly when the
      policy in force expects its source among those sent to. */
  lemma PlannedAttemptEnds(c: Config, fallback: Policy, p: Peers, text: AddrPort -> int, plan: Plan, start: int, pass: Pass)
    requires IsPlan(c, fallback, p, text, plan)
    requires pass.ctx.None? && pass.now < start + plan.timeout && pass.received.Packet?
    ensures var policy, from := ResolvePolicy(c.policy, fallback).value, pass.received.from;
            var expected := || (policy == Candidates && (from in plan.targets || from in plan.probes))
                            || (policy == CandidateHosts && exists a | a in plan.targets + plan.probes :: a.addr == from.addr)
                            || policy == AnySource;
            PassEnd(plan, start, pass) == if expected then Found(from, pass.received.kind) else Running
  {
    assert plan.sources.Allows(pass.received.from)
      <==> Expected(ResolvePolicy(c.policy, fallback).value, plan.targets + plan.probes, pass.received.from);
  }

  /** runPunch, over the passes a script gives it: quiet of them go by, and the next one, if
      there is one, ends the attempt. */
  method RunPunch(plan: Plan, ctxDeadline: int, start: int, script: seq<Pass>)
    returns (outcome: Outcome, sent: seq<Sent>, waits: seq<int>, quiet: nat)
    requires plan.interval > 0 && (plan.probes == [] || plan.probeBurst > 0)
    ensures quiet <= |script|
    ensures forall k | 0 <= k < quiet :: GoesOn(plan, start, script[k])
    ensures quiet == |script| ==> outcome == Running
    ensures quiet < |script| ==> Ends(plan, start, script[quiet], outcome)
    ensures var readings := Readings(plan, start, script[..Capped(quiet + 1, |script|)]);
            SentIsDue(plan, start, readings, sent) && WaitsInTime(plan, ctxDeadline, start, readings, waits)
    ensures AddressedTo(sent, Reply) == if outcome.Found? && outcome.kind == Hello then [outcome.peer] else []
    ensures plan.timeout >= 0 ==>
              |sent| <= |plan.targets| * (plan.timeout / plan.interval + 1) + |plan.probes| + 1
  {
    var loop;
    outcome, loop, waits, quiet := RunPasses(plan, ctxDeadline, start, script);
    forall k | 0 <= k <= quiet && k < |script|
      ensures k < quiet ==> GoesOn(plan, start, script[k])
      ensures k == quiet ==> Ends(plan, start, script[k], outcome)
    {
      PassEndIsExact(plan, start, script[k]);
    }
    sent := loop.sent;
    if outcome.Found? && outcome.kind == Hello {
      sent := Acknowledge(sent, outcome.peer, script[quiet].now);
    }
    if plan.timeout >= 0 {
      PacketBudget(plan, start, script[..Capped(quiet + 1, |script|)], sent);
    }
  }

  /** A whole attempt under the candidates policy: the peer found is one the attempt sent to. */
  lemma FoundPeerWasAddressed(c: Config, fallback: Policy, p: Peers, text: AddrPort -> int, plan: Plan, start: int, pass: Pass)
    requires IsPlan(c, fallback, p, text, plan) && ResolvePolicy(c.policy, fallback) == Some(Candidates)
    requires PassEnd(plan, start, pass).Found?
    ensures var peer := PassEnd(plan, start, pass).peer;
            peer in plan.targets || peer in plan.probes
  {
    assert plan.sources.Allows(pass.received.from);
  }

  /** The packets a realm can make a client send: sixteen targets and 4096 probes bound them all. */
  lemma RealmBudget(c: Config, fallback: Policy, p: Peers, text: AddrPort -> int, plan: Plan)
    requires IsPlan(c, fallback, p, text, plan)
    ensures plan.interval > 0 && plan.timeout >= 0 && (plan.probes == [] || plan.probeBurst > 0)
    ensures Budget(plan) <= 16 * (plan.timeout / plan.interval + 1) + 4096 + 1
  {
    Times(plan.timeout / plan.interval + 1, |plan.targets|, MAX_PEER_ADDRS);
  }
}
