/** The path selection policy (core/selector/selector.go): readings of one connection go
    in, decisions to stay, switch or give up come out. The Selector class updates its
    fields the way the source does and is proved against Observed and Failed, the policy
    as a function; the properties of whole runs are proved about that function. */
module PathSelector {
  import opened Clock
  import opened Net

  const SILENCE_SLACK: int := 2 * SECOND
  const ACK_DELAY: int := 25 * MILLISECOND
  const GRANULARITY: int := MILLISECOND

  // The zero time.Time, 1 January of year 1.
  const ZERO_TIME: int := -62_135_596_800 * SECOND

  datatype Config = Config(keepAlive: int, idleTimeout: int, candidates: seq<AddrPort>)

  // The three fields of pathstats.Stats the policy reads.
  datatype Stats = Stats(packetsReceived: nat, smoothedRtt: int, rttVariance: int)

  datatype Observation = Observation(at: int, on: AddrPort, live: bool, stats: Stats)

  datatype Action = Stay | Switch | GiveUp

  datatype Reason = Alive | NoKeepAlive | NoConnection | Silent | Exhausted | NoCandidates

  datatype Decision = Decision(action: Action, reason: Reason, to: AddrPort, silence: int, threshold: int)

  datatype Outcome = Refused | ConnectionGone

  // ------------------------------------------------------------ threshold

  /** The probe timeout of section 6.2.1 of RFC 9002. */
  function Pto(s: Stats): int {
    s.smoothedRtt + Max(4 * s.rttVariance, GRANULARITY) + ACK_DELAY
  }

  /** quic-go's keep-alive interval. */
  function Interval(cfg: Config, s: Stats): int {
    var half := Quotient(cfg.idleTimeout, 2);
    var bounded := if 0 < half < cfg.keepAlive then half else cfg.keepAlive;
    Max(bounded, Quotient(3 * Pto(s), 2))
  }

  function Threshold(cfg: Config, s: Stats): int {
    Interval(cfg, s) + s.smoothedRtt + SILENCE_SLACK
  }

  /** The threshold is the least time that leaves room for a round trip and two seconds after
      both the keep-alive period, bounded by half an idle timeout that has one, and one and a
      half times the probe timeout. */
  lemma ThresholdIsLeast(cfg: Config, s: Stats, t: int)
    requires cfg.keepAlive >= 0 && s.smoothedRtt >= 0 && s.rttVariance >= 0
    ensures var spare := t - s.smoothedRtt - 2 * SECOND;
            var pto := s.smoothedRtt + Max(4 * s.rttVariance, 1_000_000) + 25_000_000;
            t >= Threshold(cfg, s) <==>
              && (spare >= cfg.keepAlive || (cfg.idleTimeout >= 2 && spare >= cfg.idleTimeout / 2))
              && 2 * spare + 1 >= 3 * pto
  {
  }

  /** The two thresholds the documentation names: just over four seconds on a bed of 4 s and
      2 s, and just over twelve at the shipped 30 s and 10 s. */
  lemma DocumentedThresholds()
    ensures Threshold(Config(2 * SECOND, 4 * SECOND, []), Stats(0, 50 * MILLISECOND, 0)) == 4050 * MILLISECOND
    ensures Threshold(Config(10 * SECOND, 30 * SECOND, []), Stats(0, 50 * MILLISECOND, 0)) == 12050 * MILLISECOND
  {
  }

  // ------------------------------------------------------------ the policy as a function

  datatype Policy = Policy(
    started: bool,
    on: AddrPort,
    quietSince: int,
    lastRx: nat,
    tried: set<AddrPort>,
    exhausted: bool,
    pendingFrom: AddrPort,
    pendingQuiet: int)

  const NEW_POLICY := Policy(false, ZERO_ADDR_PORT, ZERO_TIME, 0, {}, false, ZERO_ADDR_PORT, ZERO_TIME)

  /** The first candidate neither tried nor current. */
  function Next(candidates: seq<AddrPort>, tried: set<AddrPort>, on: AddrPort): (r: seq<AddrPort>)
    ensures |r| <= 1
    ensures r == [] ==> forall c | c in candidates :: c in tried || c == on
    ensures r != [] ==> r[0] in candidates && r[0] !in tried && r[0] != on
  {
    if candidates == [] then []
    else if candidates[0] !in tried && candidates[0] != on then [candidates[0]]
    else Next(candidates[1..], tried, on)
  }

  /** The policy once the first reading of a connection has been noted. */
  function Started(p: Policy, o: Observation): Policy {
    if p.started then p
    else p.(started := true, on := o.on, lastRx := o.stats.packetsReceived, quietSince := o.at)
  }

  /** When a reading counts as taken: never before the silence it is measured against. */
  function ReadAt(p: Policy, o: Observation): int {
    Max(o.at, Started(p, o).quietSince)
  }

  /** The silence clock after a live reading, before anything is decided. */
  function Tracked(p: Policy, o: Observation): Policy {
    var s := Started(p, o);
    var at := ReadAt(p, o);
    var rx := o.stats.packetsReceived;
    var moved :=
      if rx < s.lastRx then s.(quietSince := at, tried := {}, exhausted := false, on := o.on)
      else if o.on != s.on then s.(quietSince := at, on := o.on)
      else if rx > s.lastRx then s.(quietSince := at)
      else s;
    moved.(lastRx := rx)
  }

  function Observed(cfg: Config, p: Policy, o: Observation): (Policy, Decision) {
    if !o.live then
      (p.(quietSince := o.at, tried := {}, exhausted := false, on := ZERO_ADDR_PORT, started := false),
       Decision(Stay, NoConnection, ZERO_ADDR_PORT, 0, 0))
    else
      var t := Tracked(p, o);
      var threshold := Threshold(cfg, o.stats);
      var quiet := ReadAt(p, o) - t.quietSince;
      if quiet < threshold then
        (t, Decision(Stay, Alive, ZERO_ADDR_PORT, quiet, threshold))
      else if cfg.keepAlive <= 0 then
        (t, Decision(Stay, NoKeepAlive, ZERO_ADDR_PORT, quiet, threshold))
      else if cfg.candidates == [] then
        (t, Decision(GiveUp, NoCandidates, ZERO_ADDR_PORT, quiet, threshold))
      else if t.exhausted then
        (t, Decision(GiveUp, Exhausted, ZERO_ADDR_PORT, quiet, threshold))
      else
        var tried := t.tried + {t.on};
        var next := Next(cfg.candidates, tried, t.on);
        if next == [] then
          (t.(tried := tried, exhausted := true),
           Decision(GiveUp, Exhausted, ZERO_ADDR_PORT, quiet, threshold))
        else
          (t.(tried := tried, pendingFrom := t.on, pendingQuiet := t.quietSince,
              on := next[0], quietSince := ReadAt(p, o)),
           Decision(Switch, Silent, next[0], quiet, threshold))
  }

  function Failed(p: Policy, to: AddrPort, out: Outcome): Policy {
    if p.on != to then p
    else p.(tried := p.tried + {to}, on := p.pendingFrom, quietSince := p.pendingQuiet,
            exhausted := p.exhausted || out.ConnectionGone?)
  }

  // ------------------------------------------------------------ the selector

  class Selector {
    var cfg: Config
    var started: bool
    var on: AddrPort
    var quietSince: int
    var lastRx: nat
    var tried: set<AddrPort>
    var exhausted: bool
    var pendingFrom: AddrPort
    var pendingQuiet: int

    ghost function State(): Policy
      reads this
    {
      Policy(started, on, quietSince, lastRx, tried, exhausted, pendingFrom, pendingQuiet)
    }

    /** New: candidates are put into the form readings come in. */
    constructor (config: Config)
      ensures State() == NEW_POLICY
      ensures cfg.keepAlive == config.keepAlive && cfg.idleTimeout == config.idleTimeout
      ensures |cfg.candidates| == |config.candidates|
      ensures forall i | 0 <= i < |cfg.candidates| :: cfg.candidates[i] == Normalised(config.candidates[i])
    {
      var candidates := config.candidates;
      for i := 0 to |candidates|
        invariant |candidates| == |config.candidates|
        invariant forall k | 0 <= k < i :: candidates[k] == Normalised(config.candidates[k])
        invariant forall k | i <= k < |candidates| :: candidates[k] == config.candidates[k]
      {
        candidates := candidates[i := Normalised(candidates[i])];
      }
      cfg := config.(candidates := candidates);
      started, exhausted := false, false;
      on, pendingFrom := ZERO_ADDR_PORT, ZERO_ADDR_PORT;
      quietSince, pendingQuiet := ZERO_TIME, ZERO_TIME;
      lastRx := 0;
      tried := {};
    }

    method Restart(at: int)
      modifies this`quietSince
      ensures quietSince == at
    {
      quietSince := at;
    }

    method FreshConnection(at: int)
      modifies this`quietSince, this`tried, this`exhausted
      ensures quietSince == at && tried == {} && !exhausted
    {
      Restart(at);
      tried := {};
      exhausted := false;
    }

    method FindNext() returns (next: AddrPort, ok: bool)
      ensures var found := Next(cfg.candidates, tried, on);
              ok == (found != []) && (ok ==> next == found[0])
    {
      for i := 0 to |cfg.candidates|
        invariant Next(cfg.candidates, tried, on) == Next(cfg.candidates[i..], tried, on)
      {
        var c := cfg.candidates[i];
        if c !in tried && c != on {
          return c, true;
        }
        assert cfg.candidates[i..][1..] == cfg.candidates[i + 1..];
      }
      return ZERO_ADDR_PORT, false;
    }

    /** The first half of Observe, for a live reading: the silence clock before anything is
        decided. */
    method Track(o: Observation) returns (at: int)
      modifies this
      ensures State() == Tracked(old(State()), o) && at == ReadAt(old(State()), o)
      ensures cfg == old(cfg)
    {
      var rx := o.stats.packetsReceived;
      if !started {
        started := true;
        on := o.on;
        lastRx := rx;
        Restart(o.at);
      }
      at := o.at;
      if at < quietSince {
        at := quietSince;
      }
      if rx < lastRx {
        FreshConnection(at);
        on := o.on;
      } else if o.on != on {
        Restart(at);
        on := o.on;
      } else if rx > lastRx {
        quietSince := at;
      }
      lastRx := rx;
    }

    method Observe(o: Observation) returns (d: Decision)
      modifies this
      ensures (State(), d) == Observed(cfg, old(State()), o)
      ensures cfg == old(cfg)
    {
      if !o.live {
        FreshConnection(o.at);
        on := ZERO_ADDR_PORT;
        started := false;
        return Decision(Stay, NoConnection, ZERO_ADDR_PORT, 0, 0);
      }
      var at := Track(o);
      var threshold := Threshold(cfg, o.stats);
      var quiet := at - quietSince;
      if quiet < threshold {
        return Decision(Stay, Alive, ZERO_ADDR_PORT, quiet, threshold);
      }
      if cfg.keepAlive <= 0 {
        return Decision(Stay, NoKeepAlive, ZERO_ADDR_PORT, quiet, threshold);
      }
      if |cfg.candidates| == 0 {
        return Decision(GiveUp, NoCandidates, ZERO_ADDR_PORT, quiet, threshold);
      }
      if exhausted {
        return Decision(GiveUp, Exhausted, ZERO_ADDR_PORT, quiet, threshold);
      }
      tried := tried + {on};
      var next, ok := FindNext();
      if !ok {
        exhausted := true;
        return Decision(GiveUp, Exhausted, ZERO_ADDR_PORT, quiet, threshold);
      }
      pendingFrom, pendingQuiet := on, quietSince;
      on := next;
      Restart(at);
      return Decision(Switch, Silent, next, quiet, threshold);
    }

    method SwitchFailed(to: AddrPort, out: Outcome)
      modifies this
      ensures State() == Failed(old(State()), to, out)
      ensures cfg == old(cfg)
    {
      if on != to {
        return;
      }
      tried := tried + {to};
      on := pendingFrom;
      quietSince := pendingQuiet;
      if out == ConnectionGone {
        exhausted := true;
      }
    }
  }

  // ------------------------------------------------------------ runs

  datatype Input = Reading(o: Observation) | Failure(to: AddrPort, out: Outcome)

  function Step(cfg: Config, p: Policy, i: Input): Policy {
    match i
    case Reading(o) => Observed(cfg, p, o).0
    case Failure(to, out) => Failed(p, to, out)
  }

  /** The decision an input draws; reporting a failure draws none. */
  function Answer(cfg: Config, p: Policy, i: Input): Decision {
    match i
    case Reading(o) => Observed(cfg, p, o).1
    case Failure(_, _) => Decision(Stay, Alive, ZERO_ADDR_PORT, 0, 0)
  }

  ghost predicate IsRun(cfg: Config, states: seq<Policy>, inputs: seq<Input>) {
    && |states| == |inputs| + 1
    && forall i | 0 <= i < |inputs| :: states[i + 1] == Step(cfg, states[i], inputs[i])
  }

  /** Every reading is of the connection the run started on. */
  ghost predicate OneConnection(states: seq<Policy>, inputs: seq<Input>)
    requires |states| == |inputs| + 1
  {
    forall i | 0 <= i < |inputs| && inputs[i].Reading? ::
      inputs[i].o.live && (states[i].started ==> states[i].lastRx <= inputs[i].o.stats.packetsReceived)
  }

  // ------------------------------------------------------------ how many switches

  /** The candidates a switch could still move to. */
  function Open(cfg: Config, p: Policy): set<AddrPort> {
    set c | c in cfg.candidates && c !in p.tried && (p.started ==> c != p.on)
  }

  predicate Moved(p: Policy, i: Input) {
    i.Reading? && p.started && i.o.on != p.on
  }

  function Switches(cfg: Config, states: seq<Policy>, inputs: seq<Input>): nat
    requires |states| >= |inputs|
  {
    if inputs == [] then 0
    else
      var n := |inputs| - 1;
      Switches(cfg, states, inputs[..n]) + (if Answer(cfg, states[n], inputs[n]).action.Switch? then 1 else 0)
  }

  function Moves(states: seq<Policy>, inputs: seq<Input>): nat
    requires |states| >= |inputs|
  {
    if inputs == [] then 0
    else
      var n := |inputs| - 1;
      Moves(states, inputs[..n]) + (if Moved(states[n], inputs[n]) then 1 else 0)
  }

  lemma SubsetSize<T>(a: set<T>, b: set<T>)
    requires a <= b
    ensures |a| <= |b|
  {
    var rest := b - a;
    assert b == a + rest;
  }

  /** One input: a switch uses up an open candidate, and only an unordered move reopens one. */
  lemma OpenStep(cfg: Config, p: Policy, i: Input)
    requires i.Reading? ==> i.o.live && (p.started ==> p.lastRx <= i.o.stats.packetsReceived)
    ensures |Open(cfg, Step(cfg, p, i))| + (if Answer(cfg, p, i).action.Switch? then 1 else 0)
            <= |Open(cfg, p)| + (if Moved(p, i) then 1 else 0)
  {
    var q := Step(cfg, p, i);
    if i.Failure? {
      SubsetSize(Open(cfg, q), Open(cfg, p));
    } else {
      var t := Tracked(p, i.o);
      if Moved(p, i) {
        SubsetSize(Open(cfg, t), Open(cfg, p) + {p.on});
      } else {
        SubsetSize(Open(cfg, t), Open(cfg, p));
      }
      if Answer(cfg, p, i).action.Switch? {
        assert q.on in Open(cfg, t);
        SubsetSize(Open(cfg, q) + {q.on}, Open(cfg, t));
      } else {
        SubsetSize(Open(cfg, q), Open(cfg, t));
      }
    }
  }

  /** On one connection the policy orders at most one switch per distinct candidate, plus
      one for each time the connection was found somewhere the policy had not put it. */
  lemma {:induction false} SwitchesBounded(cfg: Config, states: seq<Policy>, inputs: seq<Input>)
    requires IsRun(cfg, states, inputs) && OneConnection(states, inputs)
    requires states[0].tried == {}
    ensures Switches(cfg, states, inputs) + |Open(cfg, states[|inputs|])|
            <= |set c | c in cfg.candidates| + Moves(states, inputs)
  {
    var n := |inputs|;
    if n == 0 {
      SubsetSize(Open(cfg, states[0]), set c | c in cfg.candidates);
    } else {
      SwitchesBounded(cfg, states[..n], inputs[..n - 1]);
      SwitchesPrefix(cfg, states, inputs[..n - 1], n);
      OpenStep(cfg, states[n - 1], inputs[n - 1]);
    }
  }

  lemma {:induction false} SwitchesPrefix(cfg: Config, states: seq<Policy>, inputs: seq<Input>, n: nat)
    requires |inputs| <= n <= |states|
    ensures Switches(cfg, states[..n], inputs) == Switches(cfg, states, inputs)
    ensures Moves(states[..n], inputs) == Moves(states, inputs)
  {
    if inputs != [] {
      SwitchesPrefix(cfg, states, inputs[..|inputs| - 1], n);
    }
  }

  // ------------------------------------------------------------ no candidate twice

  /** From a switch on, its target is current or tried until a reading finds another address. */
  lemma {:induction false} OrderedIsUsed(cfg: Config, states: seq<Policy>, inputs: seq<Input>, i: nat, m: nat)
    requires IsRun(cfg, states, inputs) && OneConnection(states, inputs)
    requires i < m <= |inputs| && Answer(cfg, states[i], inputs[i]).action == Switch
    requires forall k | i < k < m :: !Moved(states[k], inputs[k])
    ensures var c := Answer(cfg, states[i], inputs[i]).to;
            states[m].started && (c in states[m].tried || c == states[m].on)
  {
    assert states[m] == Step(cfg, states[m - 1], inputs[m - 1]);
    if i + 1 < m {
      OrderedIsUsed(cfg, states, inputs, i, m - 1);
    }
  }

  lemma UsedIsNotOrdered(cfg: Config, p: Policy, i: Input, c: AddrPort)
    requires i.Reading? && i.o.live && p.started && p.lastRx <= i.o.stats.packetsReceived && !Moved(p, i)
    requires c in p.tried || c == p.on
    ensures Answer(cfg, p, i).action == Switch ==> Answer(cfg, p, i).to != c
  {
  }

  /** Between two orders of one candidate on one connection lies a reading that found another
      address than the policy believed. Without such readings no candidate is ordered twice. */
  lemma SecondOrderNeedsMove(cfg: Config, states: seq<Policy>, inputs: seq<Input>, i: nat, j: nat)
    requires IsRun(cfg, states, inputs) && OneConnection(states, inputs) && i < j < |inputs|
    requires Answer(cfg, states[i], inputs[i]).action == Switch && Answer(cfg, states[j], inputs[j]).action == Switch
    requires Answer(cfg, states[i], inputs[i]).to == Answer(cfg, states[j], inputs[j]).to
    ensures exists k | i < k <= j :: Moved(states[k], inputs[k])
  {
    if forall k | i < k <= j :: !Moved(states[k], inputs[k]) {
      OrderedIsUsed(cfg, states, inputs, i, j);
      UsedIsNotOrdered(cfg, states[j], inputs[j], Answer(cfg, states[i], inputs[i]).to);
      assert false;
    }
  }

  /** With such a reading it can be: silence on x orders a, the connection is found back on x,
      and a second silence there orders a again. */
  lemma SecondOrderAfterMove(x: AddrPort, a: AddrPort, b: AddrPort) returns (cfg: Config, states: seq<Policy>, inputs: seq<Input>)
    requires x != a && a != b
    ensures cfg.candidates == [a, b]
    ensures IsRun(cfg, states, inputs) && OneConnection(states, inputs) && |inputs| == 4 && states[0] == NEW_POLICY
    ensures Answer(cfg, states[1], inputs[1]).action == Switch && Answer(cfg, states[3], inputs[3]).action == Switch
    ensures Answer(cfg, states[1], inputs[1]).to == a == Answer(cfg, states[3], inputs[3]).to
  {
    cfg := Config(10 * SECOND, 30 * SECOND, [a, b]);
    var stats := Stats(1, 0, 0);
    assert Threshold(cfg, stats) == 12 * SECOND;
    var i0 := Reading(Observation(0, x, true, stats));
    var i1 := Reading(Observation(12 * SECOND, x, true, stats));
    var i2 := Reading(Observation(13 * SECOND, x, true, stats));
    var i3 := Reading(Observation(25 * SECOND, x, true, stats));
    var s1 := Step(cfg, NEW_POLICY, i0);
    var s2 := Step(cfg, s1, i1);
    var s3 := Step(cfg, s2, i2);
    assert s2.on == a && s2.tried == {x} && s3.on == x && s3.quietSince == 13 * SECOND && s3.tried == {x};
    inputs, states := [i0, i1, i2, i3], [NEW_POLICY, s1, s2, s3, Step(cfg, s3, i3)];
  }

  // ------------------------------------------------------------ a healthy idle connection

  /** Readings of one healthy connection from start on: fixed round trips, one address, polled
      at any times in order. received tells how many packets have arrived by each moment. */
  ghost predicate HealthyReadings(inputs: seq<Input>, stats: Stats, on: AddrPort, received: int -> nat, start: int) {
    && (forall i | 0 <= i < |inputs| ::
          && inputs[i].Reading?
          && inputs[i].o.live
          && inputs[i].o.on == on
          && inputs[i].o.at >= start
          && inputs[i].o.stats == stats.(packetsReceived := received(inputs[i].o.at)))
    && (forall i, j | 0 <= i < j < |inputs| :: inputs[i].o.at <= inputs[j].o.at)
  }

  /** From start on, whatever the moment, another packet arrives within gap of it. */
  ghost predicate ArrivesWithin(received: int -> nat, start: int, gap: int) {
    && gap > 0
    && (forall t, u | start <= t <= u :: received(t) <= received(u))
    && (forall t | start <= t :: received(t) < received(t + gap))
  }

  lemma ThresholdIgnoresCounter(cfg: Config, s: Stats, n: nat)
    ensures Threshold(cfg, s.(packetsReceived := n)) == Threshold(cfg, s)
  {
  }

  /** While packets arrive no more than a threshold apart, no polling schedule can make the
      policy answer anything but stay. */
  lemma {:induction false} HealthyConnectionStays(cfg: Config, states: seq<Policy>, inputs: seq<Input>, stats: Stats,
                                                  on: AddrPort, received: int -> nat, start: int, i: nat)
    requires IsRun(cfg, states, inputs) && !states[0].started
    requires HealthyReadings(inputs, stats, on, received, start)
    requires ArrivesWithin(received, start, Threshold(cfg, stats))
    requires i < |inputs|
    ensures var d := Answer(cfg, states[i], inputs[i]); d.action == Stay && d.reason == Alive
    ensures var p := states[i + 1];
            && p.started && p.on == on
            && start <= p.quietSince <= inputs[i].o.at
            && received(p.quietSince) == p.lastRx == received(inputs[i].o.at)
  {
    var at := inputs[i].o.at;
    ThresholdIgnoresCounter(cfg, stats, received(at));
    if i > 0 {
      HealthyConnectionStays(cfg, states, inputs, stats, on, received, start, i - 1);
      var q := states[i].quietSince;
      assert received(q) < received(q + Threshold(cfg, stats));
    }
  }

  lemma LongerGapIsWeaker(received: int -> nat, start: int, gap: int, longer: int)
    requires ArrivesWithin(received, start, gap) && gap <= longer
    ensures ArrivesWithin(received, start, longer)
  {
    forall t | start <= t
      ensures received(t) < received(t + longer)
    {
      assert received(t) < received(t + gap) <= received(t + longer);
    }
  }

  /** However a healthy connection whose packets are at most gap apart is polled, it is left
      where it is. */
  ghost predicate NeverLeft(cfg: Config, stats: Stats, gap: int) {
    forall states: seq<Policy>, inputs: seq<Input>, on: AddrPort, received: int -> nat, start: int ::
      IsRun(cfg, states, inputs) && !states[0].started && HealthyReadings(inputs, stats, on, received, start)
      && ArrivesWithin(received, start, gap) ==>
        forall i | 0 <= i < |inputs| :: Answer(cfg, states[i], inputs[i]).action == Stay
  }

  /** How many packets have arrived by t when the k-th arrives at k gaps. */
  function Arrived(t: int, gap: int): nat
    requires gap > 0
    decreases t
  {
    if t < gap then 0 else 1 + Arrived(t - gap, gap)
  }

  lemma {:induction false} ArrivedGrows(t: int, u: int, gap: int)
    requires t <= u && gap > 0
    ensures Arrived(t, gap) <= Arrived(u, gap)
    decreases t
  {
    if t >= gap {
      ArrivedGrows(t - gap, u - gap, gap);
    }
  }

  lemma OneMoreArrives(t: nat, gap: int)
    requires gap > 0
    ensures Arrived(t + gap, gap) == 1 + Arrived(t, gap)
  {
  }

  lemma SpacedArrivals(gap: int) returns (received: int -> nat)
    requires gap > 0
    ensures ArrivesWithin(received, 0, gap)
    ensures forall t | 0 <= t < gap :: received(t) == 0
  {
    received := (t: int) => Arrived(t, gap);
    forall t: int, u: int | 0 <= t <= u
      ensures received(t) <= received(u)
    {
      ArrivedGrows(t, u, gap);
    }
    forall t: int | 0 <= t
      ensures received(t) < received(t + gap)
    {
      OneMoreArrives(t, gap);
    }
  }

  /** Packets exactly gap apart, polled at the start and when the threshold is reached. */
  lemma SlowConnectionIsLeft(cfg: Config, stats: Stats, on: AddrPort, gap: int)
      returns (states: seq<Policy>, inputs: seq<Input>, received: int -> nat)
    requires cfg.keepAlive > 0 && gap > 0 && Threshold(cfg, stats) < gap
    ensures IsRun(cfg, states, inputs) && !states[0].started && |inputs| == 2
    ensures HealthyReadings(inputs, stats, on, received, 0) && ArrivesWithin(received, 0, gap)
    ensures Answer(cfg, states[1], inputs[1]).action != Stay
  {
    received := SpacedArrivals(gap);
    var late := Max(0, Threshold(cfg, stats));
    var none := stats.(packetsReceived := 0);
    ThresholdIgnoresCounter(cfg, stats, 0);
    var s1 := SilenceIsAnswered(cfg, none, on, 0, late);
    var i0, i1 := Reading(Observation(0, on, true, none)), Reading(Observation(late, on, true, none));
    inputs, states := [i0, i1], [NEW_POLICY, s1, Step(cfg, s1, i1)];
  }

  lemma SilenceIsAnswered(cfg: Config, stats: Stats, on: AddrPort, from: int, late: int) returns (s1: Policy)
    requires cfg.keepAlive > 0 && late == Max(0, Threshold(cfg, stats))
    ensures s1 == Step(cfg, NEW_POLICY, Reading(Observation(from, on, true, stats)))
    ensures Answer(cfg, s1, Reading(Observation(from + late, on, true, stats))).action != Stay
  {
    s1 := Step(cfg, NEW_POLICY, Reading(Observation(from, on, true, stats)));
    assert s1.started && s1.quietSince == from && s1.lastRx == stats.packetsReceived;
  }

  /** With keep-alive on, the threshold is exactly the longest spacing of packets a healthy
      connection may have: one nanosecond more and some schedule of readings leaves it. */
  lemma ThresholdIsExact(cfg: Config, stats: Stats, gap: int)
    requires cfg.keepAlive > 0 && gap > 0
    ensures NeverLeft(cfg, stats, gap) <==> gap <= Threshold(cfg, stats)
  {
    if gap <= Threshold(cfg, stats) {
      forall states: seq<Policy>, inputs: seq<Input>, on: AddrPort, received: int -> nat, start: int |
        IsRun(cfg, states, inputs) && !states[0].started && HealthyReadings(inputs, stats, on, received, start)
        && ArrivesWithin(received, start, gap)
        ensures forall i | 0 <= i < |inputs| :: Answer(cfg, states[i], inputs[i]).action == Stay
      {
        LongerGapIsWeaker(received, start, gap, Threshold(cfg, stats));
        forall i | 0 <= i < |inputs|
          ensures Answer(cfg, states[i], inputs[i]).action == Stay
        {
          HealthyConnectionStays(cfg, states, inputs, stats, on, received, start, i);
        }
      }
    } else {
      var states, inputs, received := SlowConnectionIsLeft(cfg, stats, ZERO_ADDR_PORT, gap);
      assert IsRun(cfg, states, inputs) && HealthyReadings(inputs, stats, ZERO_ADDR_PORT, received, 0);
    }
  }

  // ------------------------------------------------------------ an idle connection that is rerouted

  /** When the k-th packet of an idle connection arrives, the first at 0: each answers a ping
      that quic-go sends one interval after the packet before it (nextKeepAliveTime), and takes
      that ping's round trip. The interval is that of an estimate that has not moved yet. */
  function Arrival(cfg: Config, stats: Stats, rtts: nat -> nat, k: nat): int {
    if k == 0 then 0
    else
      var pinged := Arrival(cfg, stats, rtts, k - 1) + Interval(cfg, stats);
      pinged + rtts(k - 1)
  }

  ghost predicate IdleArrivals(cfg: Config, stats: Stats, rtts: nat -> nat, received: int -> nat) {
    forall k: nat, t: int | Arrival(cfg, stats, rtts, k) <= t < Arrival(cfg, stats, rtts, k + 1) :: received(t) == k
  }

  /** However an idle connection whose pings take these round trips is polled, while the
      estimate stays what it was, it is left where it is. */
  ghost predicate IdleNeverLeft(cfg: Config, stats: Stats, rtts: nat -> nat) {
    forall states: seq<Policy>, inputs: seq<Input>, on: AddrPort, received: int -> nat ::
      IsRun(cfg, states, inputs) && !states[0].started && HealthyReadings(inputs, stats, on, received, 0)
      && IdleArrivals(cfg, stats, rtts, received) ==>
        forall i | 0 <= i < |inputs| :: Answer(cfg, states[i], inputs[i]).action == Stay
  }

  lemma {:induction false} ArrivalsRise(cfg: Config, stats: Stats, rtts: nat -> nat, k: nat, m: nat)
    requires cfg.keepAlive > 0 && k <= m
    ensures Arrival(cfg, stats, rtts, k) + (m - k) <= Arrival(cfg, stats, rtts, m)
  {
    if k < m {
      ArrivalsRise(cfg, stats, rtts, k, m - 1);
    }
  }

  /** How many answers are in by t, counting on from the k-th. */
  function AnsweredBy(cfg: Config, stats: Stats, rtts: nat -> nat, t: int, k: nat): (n: nat)
    requires cfg.keepAlive > 0 && Arrival(cfg, stats, rtts, k) <= t
    ensures Arrival(cfg, stats, rtts, n) <= t < Arrival(cfg, stats, rtts, n + 1)
    decreases t - Arrival(cfg, stats, rtts, k)
  {
    if t < Arrival(cfg, stats, rtts, k + 1) then k else AnsweredBy(cfg, stats, rtts, t, k + 1)
  }

  lemma ArrivalsAreOrdered(cfg: Config, stats: Stats, rtts: nat -> nat, k: nat, m: nat, t: int, u: int)
    requires cfg.keepAlive > 0 && t <= u
    requires Arrival(cfg, stats, rtts, k) <= t && u < Arrival(cfg, stats, rtts, m + 1)
    ensures k <= m
  {
    if m < k {
      ArrivalsRise(cfg, stats, rtts, m + 1, k);
    }
  }

  /** Such arrivals exist, whatever the round trips. */
  lemma PingsAreAnswered(cfg: Config, stats: Stats, rtts: nat -> nat) returns (received: int -> nat)
    requires cfg.keepAlive > 0
    ensures IdleArrivals(cfg, stats, rtts, received)
  {
    received := (t: int) => if t < 0 then 0 else AnsweredBy(cfg, stats, rtts, t, 0);
    forall k: nat, t: int | Arrival(cfg, stats, rtts, k) <= t < Arrival(cfg, stats, rtts, k + 1)
      ensures received(t) == k
    {
      ArrivalsRise(cfg, stats, rtts, 0, k);
      ArrivalsAreOrdered(cfg, stats, rtts, k, received(t), t, t);
      ArrivalsAreOrdered(cfg, stats, rtts, received(t), k, t, t);
    }
  }

  lemma MoreIsReceived(cfg: Config, stats: Stats, rtts: nat -> nat, received: int -> nat, t: int, u: int)
    requires cfg.keepAlive > 0 && IdleArrivals(cfg, stats, rtts, received)
    requires 0 <= t <= u
    ensures received(t) <= received(u)
  {
    var k, m := AnsweredBy(cfg, stats, rtts, t, 0), AnsweredBy(cfg, stats, rtts, u, 0);
    ArrivalsAreOrdered(cfg, stats, rtts, k, m, t, u);
    assert received(t) == k && received(u) == m;
  }

  lemma ReceivedOnArrival(cfg: Config, stats: Stats, rtts: nat -> nat, received: int -> nat, k: nat)
    requires cfg.keepAlive > 0 && IdleArrivals(cfg, stats, rtts, received)
    ensures 0 <= Arrival(cfg, stats, rtts, k) && received(Arrival(cfg, stats, rtts, k)) == k
  {
    ArrivalsRise(cfg, stats, rtts, 0, k);
    ArrivalsRise(cfg, stats, rtts, k, k + 1);
  }

  lemma NextAnswerIsIn(cfg: Config, stats: Stats, rtts: nat -> nat, received: int -> nat, t: int)
    requires cfg.keepAlive > 0 && IdleArrivals(cfg, stats, rtts, received)
    requires 0 <= t
    requires forall k: nat :: rtts(k) <= stats.smoothedRtt + SILENCE_SLACK
    ensures received(t) < received(t + Threshold(cfg, stats))
  {
    var k := AnsweredBy(cfg, stats, rtts, t, 0);
    assert received(t) == k && rtts(k) <= stats.smoothedRtt + SILENCE_SLACK;
    ReceivedOnArrival(cfg, stats, rtts, received, k + 1);
    MoreIsReceived(cfg, stats, rtts, received, Arrival(cfg, stats, rtts, k + 1), t + Threshold(cfg, stats));
  }

  lemma AnswersComeWithin(cfg: Config, stats: Stats, rtts: nat -> nat, received: int -> nat)
    requires cfg.keepAlive > 0 && IdleArrivals(cfg, stats, rtts, received)
    requires forall k: nat :: rtts(k) <= stats.smoothedRtt + SILENCE_SLACK
    ensures ArrivesWithin(received, 0, Threshold(cfg, stats))
  {
    var gap := Threshold(cfg, stats);
    assert rtts(0) <= stats.smoothedRtt + SILENCE_SLACK;
    forall t, u | 0 <= t <= u
      ensures received(t) <= received(u)
    {
      MoreIsReceived(cfg, stats, rtts, received, t, u);
    }
    forall t | 0 <= t
      ensures received(t) < received(t + gap)
    {
      NextAnswerIsIn(cfg, stats, rtts, received, t);
    }
  }

  /** A ping whose answer takes longer: polled when the answer before it arrived and when the
      threshold is reached. */
  lemma LateAnswerIsLeft(cfg: Config, stats: Stats, rtts: nat -> nat, on: AddrPort, k: nat)
      returns (states: seq<Policy>, inputs: seq<Input>, received: int -> nat)
    requires cfg.keepAlive > 0 && rtts(k) > stats.smoothedRtt + SILENCE_SLACK
    ensures IsRun(cfg, states, inputs) && !states[0].started && |inputs| == 2
    ensures HealthyReadings(inputs, stats, on, received, 0) && IdleArrivals(cfg, stats, rtts, received)
    ensures Answer(cfg, states[1], inputs[1]).action != Stay
  {
    received := PingsAreAnswered(cfg, stats, rtts);
    var from, late, heard := Arrival(cfg, stats, rtts, k), Max(0, Threshold(cfg, stats)), stats.(packetsReceived := k);
    ArrivalsRise(cfg, stats, rtts, 0, k);
    ArrivalsRise(cfg, stats, rtts, k, k + 1);
    assert from + late < Arrival(cfg, stats, rtts, k + 1);
    ThresholdIgnoresCounter(cfg, stats, k);
    var s1 := SilenceIsAnswered(cfg, heard, on, from, late);
    var i0, i1 := Reading(Observation(from, on, true, heard)), Reading(Observation(from + late, on, true, heard));
    inputs, states := [i0, i1], [NEW_POLICY, s1, Step(cfg, s1, i1)];
  }

  /** The case the slack is sized for: an idle connection is kept, whatever polls it, exactly
      when no answer takes more than the slack longer than the estimate. */
  lemma IdleConnectionIsKept(cfg: Config, stats: Stats, rtts: nat -> nat)
    requires cfg.keepAlive > 0
    ensures IdleNeverLeft(cfg, stats, rtts) <==> forall k: nat :: rtts(k) <= stats.smoothedRtt + SILENCE_SLACK
  {
    if forall k: nat :: rtts(k) <= stats.smoothedRtt + SILENCE_SLACK {
      forall states: seq<Policy>, inputs: seq<Input>, on: AddrPort, received: int -> nat |
        IsRun(cfg, states, inputs) && !states[0].started && HealthyReadings(inputs, stats, on, received, 0)
        && IdleArrivals(cfg, stats, rtts, received)
        ensures forall i | 0 <= i < |inputs| :: Answer(cfg, states[i], inputs[i]).action == Stay
      {
        AnswersComeWithin(cfg, stats, rtts, received);
        forall i | 0 <= i < |inputs|
          ensures Answer(cfg, states[i], inputs[i]).action == Stay
        {
          HealthyConnectionStays(cfg, states, inputs, stats, on, received, 0, i);
        }
      }
    } else {
      var k: nat :| rtts(k) > stats.smoothedRtt + SILENCE_SLACK;
      var states, inputs, received := LateAnswerIsLeft(cfg, stats, rtts, ZERO_ADDR_PORT, k);
      assert IsRun(cfg, states, inputs) && HealthyReadings(inputs, stats, ZERO_ADDR_PORT, received, 0);
    }
  }

  /** Round trips as estimated, until the path is rerouted after some of them. */
  function Rerouted(rtt: nat, after: nat, newRtt: nat): nat -> nat {
    (k: nat) => if k < after then rtt else newRtt
  }

  /** Whenever an idle path is rerouted, the connection survives it exactly when the new round
      trip is at most the slack longer than the estimate. */
  lemma IdleRerouteTolerated(cfg: Config, stats: Stats, after: nat, newRtt: nat)
    requires cfg.keepAlive > 0 && stats.smoothedRtt >= 0
    ensures IdleNeverLeft(cfg, stats, Rerouted(stats.smoothedRtt, after, newRtt)) <==> newRtt <= stats.smoothedRtt + SILENCE_SLACK
  {
    var rtts := Rerouted(stats.smoothedRtt, after, newRtt);
    IdleConnectionIsKept(cfg, stats, rtts);
    assert rtts(after) == newRtt;
  }

  // ------------------------------------------------------------ what stands behind a switch

  /** SwitchFailed is called only for a switch just ordered and not yet followed by a reading. */
  ghost predicate FailuresArePending(cfg: Config, states: seq<Policy>, inputs: seq<Input>)
    requires |states| == |inputs| + 1
  {
    forall i | 0 <= i < |inputs| && inputs[i].Failure? ::
      i > 0 && inputs[i - 1].Reading? && Answer(cfg, states[i - 1], inputs[i - 1]).action == Switch
      && inputs[i].to == Answer(cfg, states[i - 1], inputs[i - 1]).to
  }

  /** Reading j was taken no later than since, and every reading after it and before i found
      the same counter, on address on. */
  ghost predicate SilentFrom(inputs: seq<Input>, j: int, i: int, on: AddrPort, since: int, rx: nat)
    requires 0 <= i <= |inputs|
  {
    && 0 <= j < i
    && inputs[j].Reading? && inputs[j].o.live && inputs[j].o.at <= since && inputs[j].o.stats.packetsReceived == rx
    && forall k | j < k < i && inputs[k].Reading? ::
         inputs[k].o.live && inputs[k].o.on == on && inputs[k].o.stats.packetsReceived == rx
  }

  /** Both the silence being measured and the one a failed switch would put back are backed
      by readings. */
  ghost predicate Backed(cfg: Config, states: seq<Policy>, inputs: seq<Input>, i: nat)
    requires |states| == |inputs| + 1 && i <= |inputs|
  {
    var p := states[i];
    && (p.started ==> exists j :: SilentFrom(inputs, j, i, p.on, p.quietSince, p.lastRx))
    && (i > 0 && Answer(cfg, states[i - 1], inputs[i - 1]).action == Switch ==>
          p.started && exists j :: SilentFrom(inputs, j, i, p.pendingFrom, p.pendingQuiet, p.lastRx))
  }

  lemma TrackedIsBacked(cfg: Config, states: seq<Policy>, inputs: seq<Input>, i: nat) returns (j: int)
    requires IsRun(cfg, states, inputs) && i < |inputs|
    requires Backed(cfg, states, inputs, i)
    requires inputs[i].Reading? && inputs[i].o.live
    ensures var t := Tracked(states[i], inputs[i].o);
            SilentFrom(inputs, j, i + 1, t.on, t.quietSince, t.lastRx)
            && (j == i ==> t.quietSince == ReadAt(states[i], inputs[i].o))
  {
    var p, o := states[i], inputs[i].o;
    var t := Tracked(p, o);
    if p.started && o.stats.packetsReceived == p.lastRx && o.on == p.on {
      j :| SilentFrom(inputs, j, i, p.on, p.quietSince, p.lastRx);
    } else {
      j := i;
    }
  }

  lemma ReadingIsBacked(cfg: Config, states: seq<Policy>, inputs: seq<Input>, i: nat)
    requires IsRun(cfg, states, inputs) && i < |inputs| && inputs[i].Reading?
    requires Backed(cfg, states, inputs, i)
    ensures Backed(cfg, states, inputs, i + 1)
  {
    var p, q, o := states[i], states[i + 1], inputs[i].o;
    assert q == Step(cfg, p, inputs[i]);
    if o.live {
      var j := TrackedIsBacked(cfg, states, inputs, i);
      if Answer(cfg, p, inputs[i]).action == Switch {
        assert SilentFrom(inputs, i, i + 1, q.on, q.quietSince, q.lastRx);
      }
    }
  }

  lemma SilenceLasts(inputs: seq<Input>, j: int, i: nat, on: AddrPort, since: int, rx: nat)
    requires i < |inputs| && inputs[i].Failure? && SilentFrom(inputs, j, i, on, since, rx)
    ensures SilentFrom(inputs, j, i + 1, on, since, rx)
  {
  }

  lemma FailureIsBacked(cfg: Config, states: seq<Policy>, inputs: seq<Input>, i: nat)
    requires IsRun(cfg, states, inputs) && i < |inputs| && inputs[i].Failure?
    requires FailuresArePending(cfg, states, inputs) && Backed(cfg, states, inputs, i)
    ensures Backed(cfg, states, inputs, i + 1)
  {
    var p, q := states[i], states[i + 1];
    assert q == Step(cfg, p, inputs[i]) == Failed(p, inputs[i].to, inputs[i].out);
    assert Answer(cfg, states[i - 1], inputs[i - 1]).action == Switch;
    assert p.started && p.on == inputs[i].to by {
      assert p == Step(cfg, states[i - 1], inputs[i - 1]);
    }
    var j :| SilentFrom(inputs, j, i, p.pendingFrom, p.pendingQuiet, p.lastRx);
    SilenceLasts(inputs, j, i, p.pendingFrom, p.pendingQuiet, p.lastRx);
  }

  lemma {:induction false} BackedHolds(cfg: Config, states: seq<Policy>, inputs: seq<Input>, i: nat)
    requires IsRun(cfg, states, inputs) && !states[0].started
    requires FailuresArePending(cfg, states, inputs)
    requires i <= |inputs|
    ensures Backed(cfg, states, inputs, i)
  {
    if i > 0 {
      BackedHolds(cfg, states, inputs, i - 1);
      if inputs[i - 1].Reading? {
        ReadingIsBacked(cfg, states, inputs, i - 1);
      } else {
        FailureIsBacked(cfg, states, inputs, i - 1);
      }
    }
  }

  /** No switch without evidence: behind every one is a span of at least the threshold in
      which every reading found the counter and the address unchanged. */
  lemma SwitchHasSilenceBehindIt(cfg: Config, states: seq<Policy>, inputs: seq<Input>, i: nat) returns (j: int)
    requires IsRun(cfg, states, inputs) && !states[0].started
    requires FailuresArePending(cfg, states, inputs)
    requires i < |inputs| && inputs[i].Reading? && inputs[i].o.stats.smoothedRtt >= 0
    requires Answer(cfg, states[i], inputs[i]).action == Switch
    ensures cfg.keepAlive > 0 && Answer(cfg, states[i], inputs[i]).to in cfg.candidates
    ensures 0 <= j < i && inputs[j].Reading? && inputs[j].o.live
    ensures inputs[i].o.at - inputs[j].o.at >= Threshold(cfg, inputs[i].o.stats)
    ensures inputs[j].o.stats.packetsReceived == inputs[i].o.stats.packetsReceived
    ensures forall k | j < k < i && inputs[k].Reading? ::
              && inputs[k].o.live && inputs[k].o.on == inputs[i].o.on
              && inputs[k].o.stats.packetsReceived == inputs[i].o.stats.packetsReceived
  {
    BackedHolds(cfg, states, inputs, i);
    j := TrackedIsBacked(cfg, states, inputs, i);
  }

  // ------------------------------------------------------------ a dead network

  /** The candidates outside tried, each once, in configured order. */
  function Walk(candidates: seq<AddrPort>, tried: set<AddrPort>): seq<AddrPort> {
    if candidates == [] then []
    else if candidates[0] in tried then Walk(candidates[1..], tried)
    else [candidates[0]] + Walk(candidates[1..], tried + {candidates[0]})
  }

  /** The walk names every untried candidate and nothing else, none twice, and in the order
      of first appearance: before any of its entries the list holds only tried or already
      named ones. */
  lemma {:induction false} WalkIsTheList(candidates: seq<AddrPort>, tried: set<AddrPort>)
    ensures forall c :: c in Walk(candidates, tried) <==> c in candidates && c !in tried
    ensures forall i, j | 0 <= i < j < |Walk(candidates, tried)| ::
              Walk(candidates, tried)[i] != Walk(candidates, tried)[j]
    ensures forall i, j | 0 <= i < j < |Walk(candidates, tried)| ::
              FirstIndex(candidates, Walk(candidates, tried)[i]) < FirstIndex(candidates, Walk(candidates, tried)[j])
  {
    if candidates != [] {
      var c, rest := candidates[0], candidates[1..];
      assert candidates == [c] + rest;
      var more := if c in tried then tried else tried + {c};
      WalkIsTheList(rest, more);
      var w := Walk(rest, more);
      assert forall x | x in w :: x != c && FirstIndex(candidates, x) == 1 + FirstIndex(rest, x);
      assert FirstIndex(candidates, c) == 0;
    }
  }

  function FirstIndex(candidates: seq<AddrPort>, c: AddrPort): nat {
    if candidates == [] || candidates[0] == c then 0 else 1 + FirstIndex(candidates[1..], c)
  }

  /** Taking the next candidate is taking the head of the walk. */
  lemma {:induction false} NextIsWalkHead(candidates: seq<AddrPort>, tried: set<AddrPort>, on: AddrPort)
    requires on in tried
    ensures Next(candidates, tried, on) == if Walk(candidates, tried) == [] then [] else [Walk(candidates, tried)[0]]
    ensures Walk(candidates, tried) != [] ==>
              Walk(candidates, tried + {Walk(candidates, tried)[0]}) == Walk(candidates, tried)[1..]
  {
    if candidates != [] {
      NextIsWalkHead(candidates[1..], tried, on);
      if candidates[0] !in tried {
        assert candidates[0] in tried + {candidates[0]};
      }
    }
  }

  /** A run on a network that delivers nothing: one counter value, frozen round trips,
      readings in time order, and every ordered switch carried out. */
  ghost predicate DeadReadings(states: seq<Policy>, inputs: seq<Input>, stats: Stats, start: AddrPort)
    requires |states| == |inputs| + 1
  {
    && (forall i | 0 <= i < |inputs| ::
          && inputs[i].Reading?
          && inputs[i].o.live
          && inputs[i].o.stats == stats
          && inputs[i].o.on == if i == 0 then start else states[i].on)
    && (forall i, j | 0 <= i < j < |inputs| :: inputs[i].o.at <= inputs[j].o.at)
  }

  /** Where the switches of a run went, in order. */
  function Targets(cfg: Config, states: seq<Policy>, inputs: seq<Input>, n: nat): seq<AddrPort>
    requires n <= |inputs| <= |states|
  {
    if n == 0 then []
    else
      var d := Answer(cfg, states[n - 1], inputs[n - 1]);
      Targets(cfg, states, inputs, n - 1) + (if d.action == Switch then [d.to] else [])
  }

  ghost predicate DeadInv(cfg: Config, p: Policy, start: AddrPort, targets: seq<AddrPort>, last: int, stats: Stats) {
    && p.started && p.lastRx == stats.packetsReceived
    && p.quietSince <= last
    && p.on == (if targets == [] then start else targets[|targets| - 1])
    && p.tried + {p.on} == {start} + (set t | t in targets)
    && targets + Walk(cfg.candidates, p.tried + {p.on}) == Walk(cfg.candidates, {start})
    && (p.exhausted ==> targets == Walk(cfg.candidates, {start}) && last - p.quietSince >= Threshold(cfg, stats))
  }

  /** One reading of a dead network: the first, or one after reading the same at last. */
  ghost predicate DeadReading(cfg: Config, p: Policy, o: Observation, start: AddrPort, done: seq<AddrPort>, last: int) {
    && o.live
    && (if p == NEW_POLICY then done == [] && o.on == start
        else DeadInv(cfg, p, start, done, last, o.stats) && o.on == p.on && last <= o.at)
  }

  lemma DeadTracked(cfg: Config, p: Policy, o: Observation, start: AddrPort, done: seq<AddrPort>, last: int)
    requires DeadReading(cfg, p, o, start, done, last)
    ensures DeadInv(cfg, Tracked(p, o), start, done, o.at, o.stats)
    ensures ReadAt(p, o) == o.at
  {
    if p == NEW_POLICY {
      assert Tracked(p, o).tried + {o.on} == {start};
    } else {
      assert Tracked(p, o) == p;
    }
  }

  lemma DeadStep(cfg: Config, p: Policy, o: Observation, start: AddrPort, done: seq<AddrPort>, last: int)
    requires DeadReading(cfg, p, o, start, done, last)
    requires cfg.keepAlive > 0 && cfg.candidates != [] && o.stats.smoothedRtt >= 0
    ensures var (q, d) := Observed(cfg, p, o);
            var walk := Walk(cfg.candidates, {start});
            && DeadInv(cfg, q, start, if d.action == Switch then done + [d.to] else done, o.at, o.stats)
            && done <= walk
            && (d.silence < d.threshold ==> d.action == Stay)
            && (d.silence >= d.threshold && |done| < |walk| ==> d.action == Switch && d.to == walk[|done|])
            && (d.silence >= d.threshold && |done| == |walk| ==> d.action == GiveUp)
            && (p.exhausted ==> d.action == GiveUp)
            && (d.action == GiveUp ==> q.exhausted)
  {
    DeadTracked(cfg, p, o, start, done, last);
    var t := Tracked(p, o);
    var tried := t.tried + {t.on};
    var walk := Walk(cfg.candidates, {start});
    assert done <= walk && |walk| == |done| + |Walk(cfg.candidates, tried)|;
    NextIsWalkHead(cfg.candidates, tried, t.on);
    var (q, d) := Observed(cfg, p, o);
    if d.action == Switch {
      assert d.to == walk[|done|];
      assert q.tried + {q.on} == tried + {d.to} == {start} + (set x | x in done + [d.to]);
    } else {
      assert q.tried + {q.on} == tried;
    }
  }

  /** What a reading of a dead network draws: stay until a threshold of silence, then the
      next candidate of the walk, and once the walk is used up, give up for good. */
  lemma {:induction false} DeadNetworkWalk(
      cfg: Config, states: seq<Policy>, inputs: seq<Input>, stats: Stats, start: AddrPort, i: nat)
    requires IsRun(cfg, states, inputs) && states[0] == NEW_POLICY
    requires DeadReadings(states, inputs, stats, start)
    requires cfg.keepAlive > 0 && cfg.candidates != [] && stats.smoothedRtt >= 0
    requires i < |inputs|
    ensures DeadInv(cfg, states[i + 1], start, Targets(cfg, states, inputs, i + 1), inputs[i].o.at, stats)
    ensures var walk := Walk(cfg.candidates, {start});
            var done := Targets(cfg, states, inputs, i);
            var d := Answer(cfg, states[i], inputs[i]);
            && done <= walk
            && (d.silence < d.threshold ==> d.action == Stay)
            && (d.silence >= d.threshold && |done| < |walk| ==> d.action == Switch && d.to == walk[|done|])
            && (d.silence >= d.threshold && |done| == |walk| ==> d.action == GiveUp)
    ensures states[i].exhausted ==> Answer(cfg, states[i], inputs[i]).action == GiveUp
    ensures Answer(cfg, states[i], inputs[i]).action == GiveUp ==> states[i + 1].exhausted
  {
    var done := Targets(cfg, states, inputs, i);
    if i > 0 {
      DeadNetworkWalk(cfg, states, inputs, stats, start, i - 1);
    }
    var last := if i > 0 then inputs[i - 1].o.at else inputs[i].o.at;
    DeadStep(cfg, states[i], inputs[i].o, start, done, last);
    assert Targets(cfg, states, inputs, i + 1)
        == if Answer(cfg, states[i], inputs[i]).action == Switch then done + [Answer(cfg, states[i], inputs[i]).to] else done;
  }

  /** The answer of the whole run. The switches go to the candidate list without duplicates
      and without the starting address, in configured order; the policy gives up exactly
      when that list is used up, and every later reading gives up too. */
  lemma {:induction false} DeadNetworkGivesUp(
      cfg: Config, states: seq<Policy>, inputs: seq<Input>, stats: Stats, start: AddrPort, i: nat, j: nat)
    requires IsRun(cfg, states, inputs) && states[0] == NEW_POLICY
    requires DeadReadings(states, inputs, stats, start)
    requires cfg.keepAlive > 0 && cfg.candidates != [] && stats.smoothedRtt >= 0
    requires i <= j < |inputs|
    requires Answer(cfg, states[i], inputs[i]).action == GiveUp
    ensures Answer(cfg, states[j], inputs[j]).action == GiveUp
    ensures states[j + 1].exhausted
    ensures Targets(cfg, states, inputs, j + 1) == Walk(cfg.candidates, {start})
  {
    DeadNetworkWalk(cfg, states, inputs, stats, start, j);
    if i < j {
      DeadNetworkGivesUp(cfg, states, inputs, stats, start, i, j - 1);
    }
  }
}
