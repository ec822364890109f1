/** The path selector's decisions as a function of what it was told. The policy keeps a handful
    of fields from reading to reading (core/selector/selector.go); here each decision is read
    off the whole history of readings, failures reported and decisions given. */
module SelectorHistory {
  import opened Clock
  import opened Net
  import opened PathSelector

  /** What a selector was told and what it decided, from the start. */
  datatype History = History(inputs: seq<Input>, answers: seq<Decision>) {
    predicate Complete() {
      |answers| == |inputs|
    }

    /** The last reading of the first i inputs was of a live connection. */
    predicate Watching(i: nat)
      requires i <= |inputs|
    {
      i > 0 && match inputs[i - 1]
               case Reading(o) => o.live
               case Failure(_, _) => Watching(i - 1)
    }

    /** The counter last read of a live connection. */
    function Counter(i: nat): nat
      requires i <= |inputs|
    {
      if i == 0 then 0
      else match inputs[i - 1]
           case Reading(o) => if o.live then o.stats.packetsReceived else Counter(i - 1)
           case Failure(_, _) => Counter(i - 1)
    }

    predicate Ordered(j: nat)
      requires Complete() && j < |inputs|
    {
      inputs[j].Reading? && inputs[j].o.live && answers[j].action.Switch?
    }

    /** The reading that drew the last switch of the first i inputs, if there was one. */
    function LastOrder(i: nat): (j: int)
      requires Complete() && i <= |inputs|
      ensures -1 <= j < i && (j >= 0 ==> Ordered(j))
    {
      if i == 0 then -1 else if Ordered(i - 1) then i - 1 else LastOrder(i - 1)
    }

    /** Where the connection is thought to be: where it was last seen, or where the last order
        sent it, or after a failed order where it was before. */
    function Believed(i: nat): AddrPort
      requires Complete() && i <= |inputs|
    {
      if i == 0 then ZERO_ADDR_PORT
      else match inputs[i - 1]
           case Reading(o) =>
             if !o.live then ZERO_ADDR_PORT else if Ordered(i - 1) then answers[i - 1].to else o.on
           case Failure(to, _) => if Believed(i - 1) == to then LeftBy(i - 1) else Believed(i - 1)
    }

    /** The address the last order left. */
    function LeftBy(i: nat): AddrPort
      requires Complete() && i <= |inputs|
    {
      if LastOrder(i) < 0 then ZERO_ADDR_PORT else inputs[LastOrder(i)].o.on
    }

    /** The reported failure is of an order still thought to stand. */
    predicate Voided(j: nat)
      requires Complete() && j < |inputs|
    {
      inputs[j].Failure? && inputs[j].to == Believed(j)
    }

    /** A live reading that shows life or a change: the first, one with another counter than the
        one before, or one at another address than believed. */
    predicate Renews(j: nat)
      requires Complete() && j < |inputs|
    {
      inputs[j].Reading? && inputs[j].o.live
      && (!Watching(j) || inputs[j].o.stats.packetsReceived != Counter(j) || inputs[j].o.on != Believed(j))
    }

    /** When the silence that reading j is judged by began. */
    function QuietFrom(j: nat): int
      requires Complete() && j < |inputs| && inputs[j].Reading?
      decreases j, 1
    {
      if !Watching(j) then inputs[j].o.at
      else if Renews(j) then Max(inputs[j].o.at, QuietAfter(j))
      else QuietAfter(j)
    }

    /** When the silence under way after i inputs began: an order starts it afresh, and its
        failure puts the silence back that provoked it. */
    function QuietAfter(i: nat): int
      requires Complete() && i <= |inputs|
      decreases i, 0
    {
      if i == 0 then ZERO_TIME
      else match inputs[i - 1]
           case Reading(o) =>
             if !o.live then o.at
             else if Ordered(i - 1) then Max(o.at, if Watching(i - 1) then QuietAfter(i - 1) else o.at)
             else QuietFrom(i - 1)
           case Failure(_, _) =>
             if !Voided(i - 1) then QuietAfter(i - 1)
             else if LastOrder(i - 1) < 0 then ZERO_TIME
             else QuietFrom(LastOrder(i - 1))
    }

    /** The connection of reading j is another than the one before: there was none, or its
        counter is lower. */
    predicate Replaced(j: nat)
      requires j < |inputs| && inputs[j].Reading?
    {
      !inputs[j].o.live || (Watching(j) && inputs[j].o.stats.packetsReceived < Counter(j))
    }

    /** The addresses found silent, or refused, on the connection since it came up. */
    function Struck(i: nat): set<AddrPort>
      requires Complete() && i <= |inputs|
    {
      if i == 0 then {}
      else match inputs[i - 1]
           case Reading(o) =>
             (if Replaced(i - 1) then {} else Struck(i - 1))
             + (if o.live && (answers[i - 1].action.Switch? || answers[i - 1].reason.Exhausted?) then {o.on} else {})
           case Failure(to, _) => Struck(i - 1) + (if Voided(i - 1) then {to} else {})
    }

    /** The connection was reported gone since it came up. */
    predicate Gone(i: nat)
      requires Complete() && i <= |inputs|
    {
      i > 0 && match inputs[i - 1]
               case Reading(_) => !Replaced(i - 1) && Gone(i - 1)
               case Failure(_, out) => Gone(i - 1) || (Voided(i - 1) && out.ConnectionGone?)
    }

    /** What reading j may not be answered with. */
    function Spent(j: nat): set<AddrPort>
      requires Complete() && j < |inputs| && inputs[j].Reading?
    {
      (if Replaced(j) then {} else Struck(j)) + {inputs[j].o.on}
    }

    ghost predicate UsedUp(candidates: seq<AddrPort>, j: nat)
      requires Complete() && j < |inputs| && inputs[j].Reading?
    {
      (!Replaced(j) && Gone(j)) || forall c | c in candidates :: c in Spent(j)
    }
  }

  /** The history of a run of a new selector. */
  ghost predicate IsHistory(cfg: Config, states: seq<Policy>, h: History) {
    && IsRun(cfg, states, h.inputs) && states[0] == NEW_POLICY && h.Complete()
    && forall i | 0 <= i < |h.inputs| :: h.answers[i] == Answer(cfg, states[i], h.inputs[i])
  }

  /** The first of the candidates outside spent. */
  ghost predicate FirstLeft(candidates: seq<AddrPort>, spent: set<AddrPort>, c: AddrPort) {
    exists m | 0 <= m < |candidates| ::
      candidates[m] == c && c !in spent && forall k | 0 <= k < m :: candidates[k] in spent
  }

  lemma {:induction false} NextIsFirstLeft(candidates: seq<AddrPort>, spent: set<AddrPort>, on: AddrPort)
    requires on in spent
    ensures Next(candidates, spent, on) == [] <==> forall c | c in candidates :: c in spent
    ensures Next(candidates, spent, on) != [] ==> FirstLeft(candidates, spent, Next(candidates, spent, on)[0])
  {
    if candidates != [] {
      assert candidates == [candidates[0]] + candidates[1..];
      if candidates[0] in spent {
        NextIsFirstLeft(candidates[1..], spent, on);
        var next := Next(candidates, spent, on);
        if next != [] {
          var m :| 0 <= m < |candidates[1..]| && candidates[1..][m] == next[0] && next[0] !in spent
                   && forall k | 0 <= k < m :: candidates[1..][k] in spent;
          assert candidates[m + 1] == next[0];
          assert forall k | 0 <= k < m + 1 :: k == 0 || candidates[k] == candidates[1..][k - 1];
        }
      } else {
        assert candidates[0] == Next(candidates, spent, on)[0];
      }
    }
  }

  // ------------------------------------------------------------ the fields stand for the history

  ghost predicate TracksPlace(p: Policy, h: History, i: nat)
    requires h.Complete() && i <= |h.inputs|
  {
    && p.started == h.Watching(i)
    && p.on == h.Believed(i)
    && p.lastRx == h.Counter(i)
    && p.quietSince == h.QuietAfter(i)
    && p.pendingFrom == h.LeftBy(i)
    && p.pendingQuiet == (if h.LastOrder(i) < 0 then ZERO_TIME else h.QuietFrom(h.LastOrder(i)))
  }

  ghost predicate TracksWalk(cfg: Config, p: Policy, h: History, i: nat)
    requires h.Complete() && i <= |h.inputs|
  {
    && p.tried <= h.Struck(i)
    && (!p.exhausted ==> p.tried == h.Struck(i))
    && (h.Gone(i) ==> p.exhausted)
    && (p.exhausted ==> h.Gone(i) || forall c | c in cfg.candidates :: c in h.Struck(i))
  }

  lemma ReadingIsTracked(p: Policy, h: History, i: nat)
    requires h.Complete() && i < |h.inputs| && h.inputs[i].Reading? && h.inputs[i].o.live
    requires TracksPlace(p, h, i)
    ensures var o, t := h.inputs[i].o, Tracked(p, h.inputs[i].o);
            && t.quietSince == h.QuietFrom(i) && t.on == o.on && t.lastRx == o.stats.packetsReceived && t.started
            && ReadAt(p, o) == Max(o.at, if h.Watching(i) then h.QuietAfter(i) else o.at)
            && t.pendingFrom == p.pendingFrom && t.pendingQuiet == p.pendingQuiet
  {
  }

  lemma ReadingKeepsPlace(cfg: Config, p: Policy, h: History, i: nat)
    requires h.Complete() && i < |h.inputs| && h.inputs[i].Reading?
    requires TracksPlace(p, h, i) && h.answers[i] == Observed(cfg, p, h.inputs[i].o).1
    ensures TracksPlace(Observed(cfg, p, h.inputs[i].o).0, h, i + 1)
    ensures h.inputs[i].o.live ==> Tracked(p, h.inputs[i].o).quietSince == h.QuietFrom(i)
  {
    if h.inputs[i].o.live {
      ReadingIsTracked(p, h, i);
    }
    assert h.Ordered(i) <==> h.inputs[i].o.live && h.answers[i].action.Switch?;
  }

  lemma FailureKeepsPlace(p: Policy, h: History, i: nat)
    requires h.Complete() && i < |h.inputs| && h.inputs[i].Failure?
    requires TracksPlace(p, h, i)
    ensures TracksPlace(Failed(p, h.inputs[i].to, h.inputs[i].out), h, i + 1)
  {
    assert !h.Ordered(i);
  }

  lemma FailureKeepsWalk(cfg: Config, p: Policy, h: History, i: nat)
    requires h.Complete() && i < |h.inputs| && h.inputs[i].Failure?
    requires TracksPlace(p, h, i) && TracksWalk(cfg, p, h, i)
    ensures TracksWalk(cfg, Failed(p, h.inputs[i].to, h.inputs[i].out), h, i + 1)
  {
    assert h.Voided(i) <==> p.on == h.inputs[i].to;
  }

  lemma SpentIsTried(cfg: Config, p: Policy, h: History, i: nat)
    requires h.Complete() && i < |h.inputs| && h.inputs[i].Reading? && h.inputs[i].o.live
    requires TracksPlace(p, h, i) && TracksWalk(cfg, p, h, i)
    ensures var t := Tracked(p, h.inputs[i].o);
            && t.on == h.inputs[i].o.on
            && t.tried == (if h.Replaced(i) then {} else p.tried)
            && t.exhausted == (!h.Replaced(i) && p.exhausted)
            && t.tried + {t.on} <= h.Spent(i)
            && (!t.exhausted ==> t.tried + {t.on} == h.Spent(i))
            && (t.exhausted ==> h.UsedUp(cfg.candidates, i))
            && (!h.Replaced(i) && h.Gone(i) ==> t.exhausted)
  {
    var t := Tracked(p, h.inputs[i].o);
    assert t.exhausted ==> p.exhausted && !h.Replaced(i);
  }

  /** What a live reading draws, given the fields. */
  lemma DecisionFromFields(cfg: Config, p: Policy, h: History, i: nat)
    requires h.Complete() && i < |h.inputs| && h.inputs[i].Reading? && h.inputs[i].o.live
    requires TracksPlace(p, h, i) && TracksWalk(cfg, p, h, i)
    requires h.answers[i] == Observed(cfg, p, h.inputs[i].o).1
    ensures Decided(cfg, h, i)
  {
    var t := Tracked(p, h.inputs[i].o);
    ReadingKeepsPlace(cfg, p, h, i);
    SpentIsTried(cfg, p, h, i);
    NextIsFirstLeft(cfg.candidates, t.tried + {t.on}, t.on);
  }

  lemma ReadingKeepsWalk(cfg: Config, p: Policy, h: History, i: nat)
    requires h.Complete() && i < |h.inputs| && h.inputs[i].Reading?
    requires TracksPlace(p, h, i) && TracksWalk(cfg, p, h, i)
    requires h.answers[i] == Observed(cfg, p, h.inputs[i].o).1
    ensures TracksWalk(cfg, Observed(cfg, p, h.inputs[i].o).0, h, i + 1)
  {
    if h.inputs[i].o.live {
      var t := Tracked(p, h.inputs[i].o);
      SpentIsTried(cfg, p, h, i);
      NextIsFirstLeft(cfg.candidates, t.tried + {t.on}, t.on);
    }
  }

  /** The decision on a live reading, from the history alone. */
  ghost predicate Decided(cfg: Config, h: History, j: nat)
    requires h.Complete() && j < |h.inputs| && h.inputs[j].Reading?
  {
    var o, d := h.inputs[j].o, h.answers[j];
    var threshold := Threshold(cfg, o.stats);
    var silence := Max(0, o.at - h.QuietFrom(j));
    && d.silence == silence && d.threshold == threshold
    && (d.action == Stay <==> silence < threshold || cfg.keepAlive <= 0)
    && (d.action == Stay ==> d.reason == if silence < threshold then Alive else NoKeepAlive)
    && (d.action == GiveUp <==> silence >= threshold && cfg.keepAlive > 0 && h.UsedUp(cfg.candidates, j))
    && (d.action == GiveUp ==> d.reason == if cfg.candidates == [] then NoCandidates else Exhausted)
    && (d.action == Switch <==> silence >= threshold && cfg.keepAlive > 0 && !h.UsedUp(cfg.candidates, j))
    && (d.action == Switch ==> d.reason == Silent && FirstLeft(cfg.candidates, h.Spent(j), d.to))
  }

  lemma {:induction false} FieldsTrackHistory(cfg: Config, states: seq<Policy>, h: History, i: nat)
    requires IsHistory(cfg, states, h) && i <= |h.inputs|
    ensures TracksPlace(states[i], h, i) && TracksWalk(cfg, states[i], h, i)
  {
    if i > 0 {
      var p, e := states[i - 1], h.inputs[i - 1];
      FieldsTrackHistory(cfg, states, h, i - 1);
      assert states[i] == Step(cfg, p, e);
      if e.Failure? {
        FailureKeepsPlace(p, h, i - 1);
        FailureKeepsWalk(cfg, p, h, i - 1);
      } else {
        ReadingKeepsPlace(cfg, p, h, i - 1);
        ReadingKeepsWalk(cfg, p, h, i - 1);
      }
    }
  }

  /** Every decision of every run is the one its history calls for: without a connection to
      stay; otherwise to stay while the silence is shorter than the threshold or keep-alives
      are off, and past it to give up when the candidates are used up and to switch to the
      first one left when they are not. */
  lemma DecisionIsExact(cfg: Config, states: seq<Policy>, h: History, j: nat)
    requires IsHistory(cfg, states, h) && j < |h.inputs| && h.inputs[j].Reading?
    ensures !h.inputs[j].o.live ==> h.answers[j].action == Stay && h.answers[j].reason == NoConnection
    ensures h.inputs[j].o.live ==> Decided(cfg, h, j)
  {
    if h.inputs[j].o.live {
      FieldsTrackHistory(cfg, states, h, j);
      DecisionFromFields(cfg, states[j], h, j);
    }
  }

  /** With keep-alives off nothing is concluded from any silence, in any run. */
  lemma NoKeepAliveStays(cfg: Config, states: seq<Policy>, inputs: seq<Input>, i: nat)
    requires IsRun(cfg, states, inputs) && cfg.keepAlive <= 0 && i < |inputs|
    ensures Answer(cfg, states[i], inputs[i]).action == Stay
  {
  }

  /** When readings come in order, the silence of a live reading goes back to the last reading
      that showed life or a change, or drew an order that was not reported failed. */
  lemma {:induction false} SilenceGoesBackTo(h: History, j: nat) returns (k: nat)
    requires h.Complete() && j < |h.inputs| && h.inputs[j].Reading? && h.inputs[j].o.live
    requires forall i | 0 <= i < |h.inputs| :: h.inputs[i].Reading? && h.inputs[i].o.live
    requires forall a, b | 0 <= a < b < |h.inputs| :: h.inputs[a].o.at <= h.inputs[b].o.at
    ensures k <= j && h.QuietFrom(j) == h.inputs[k].o.at
    ensures h.Renews(k) || (k < j && h.Ordered(k))
    ensures forall m | k < m <= j :: !h.Renews(m)
    ensures forall m | k < m < j :: !h.Ordered(m)
  {
    if h.Renews(j) {
      k := j;
      if h.Watching(j) {
        var l := SilenceGoesBackTo(h, j - 1);
      }
    } else if h.Ordered(j - 1) {
      k := j - 1;
      var l := SilenceGoesBackTo(h, j - 1);
    } else {
      k := SilenceGoesBackTo(h, j - 1);
    }
  }
}
