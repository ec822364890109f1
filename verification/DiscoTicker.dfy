/** The epoch ticker of the disco demultiplexer (extras/realm/disco_conn.go).

    Every admission, removal and Close changes the session table under the session lock and
    then, as later steps, synchronises the ticker with the table under tickerMu, taking the
    session lock once more to read the table. The model interleaves those steps for any number
    of concurrent calls, together with the ticker goroutine a sync starts, stops and waits for,
    which takes the session lock as well. */
module DiscoTicker {

  /** What an API call does to the session table. */
  datatype Change = Admission(id: string) | Removal(id: string) | Closing

  /** Where one API call stands once its change to the session table is made. */
  datatype Call =
    | Waiting             // inside syncEpochTicker, without tickerMu
    | Reading             // holds tickerMu, has not got the session lock
    | Counting            // holds tickerMu and the session lock
    | Acting(live: bool)  // holds tickerMu, has read the table
    | Stopping            // holds tickerMu, has closed the stop channel, waits for the goroutine
    | Done

  /** Who holds the session lock. A reader's section keeps others out as well, which serialises
      sections that change nothing. */
  datatype Mutex = Free | ByChange(op: Change) | BySync(call: nat) | ByTicker

  /** The ticker goroutine: none, or one that may have been told to stop, with the sections
      under the session lock that its call of refreshTags has still to do. */
  datatype Ticker = NoGoroutine | Goroutine(stopped: bool, todo: nat)

  // refreshTags looks at the epoch in one section and rebuilds the table in another.
  const SECTIONS: nat := 2

  /** handle says whether tickerStop is non-nil. */
  datatype State = State(closed: bool, sessions: set<string>, mu: Mutex, calls: seq<Call>, handle: bool, ticker: Ticker)

  const FRESH := State(false, {}, Free, [], false, NoGoroutine)

  predicate Live(s: State) {
    !s.closed && s.sessions != {}
  }

  /** A ticker goroutine that goes on rebuilding the tag table. */
  predicate Runs(s: State) {
    s.ticker.Goroutine? && !s.ticker.stopped
  }

  predicate Holds(c: Call) {
    c.Reading? || c.Counting? || c.Acting? || c.Stopping?
  }

  predicate Quiescent(s: State) {
    forall i | 0 <= i < |s.calls| :: s.calls[i] == Done
  }

  // ------------------------------------------------------------ steps

  datatype Event =
    // An API call gets the session lock; the table change with which it lets go of it, leaving
    // the call waiting to sync; or its refusal of an admission, which syncs nothing.
    | Begin(op: Change)
    | Admit(id: string)
    | Remove(id: string)
    | Close
    | Refuse
    // The steps of syncEpochTicker, for the call at position call.
    | Lock(call: nat)
    | Count(call: nat)
    | Read(call: nat)
    | Act(call: nat)
    | Join(call: nat)
    // The ticker goroutine: a tick, getting the session lock, letting go of it, and its end.
    | Tick
    | Enter
    | Leave(done: bool)
    | Exit

  predicate Internal(e: Event) {
    !e.Begin? && !e.Tick?
  }

  predicate Syncs(e: Event) {
    e.Lock? || e.Count? || e.Read? || e.Act? || e.Join?
  }

  predicate Enabled(s: State, e: Event) {
    match e
    case Begin(_) => s.mu == Free
    case Admit(id) => s.mu == ByChange(Admission(id)) && !s.closed && id !in s.sessions
    case Refuse => s.mu.ByChange? && s.mu.op.Admission? && (s.closed || s.mu.op.id in s.sessions)
    case Remove(id) => s.mu == ByChange(Removal(id))
    case Close => s.mu == ByChange(Closing)
    case Lock(i) => i < |s.calls| && s.calls[i] == Waiting && forall j | 0 <= j < |s.calls| :: !Holds(s.calls[j])
    case Count(i) => i < |s.calls| && s.calls[i] == Reading && s.mu == Free
    case Read(i) => i < |s.calls| && s.calls[i] == Counting && s.mu == BySync(i)
    case Act(i) => i < |s.calls| && s.calls[i].Acting?
    case Join(i) => i < |s.calls| && s.calls[i] == Stopping && s.ticker == NoGoroutine
    case Tick => s.ticker.Goroutine? && s.ticker.todo == 0
    case Enter => s.ticker.Goroutine? && s.ticker.todo > 0 && s.mu == Free
    case Leave(_) => s.ticker.Goroutine? && s.ticker.todo > 0 && s.mu == ByTicker
    case Exit => s.ticker.Goroutine? && s.ticker.todo == 0 && s.ticker.stopped
  }

  function With(s: State, i: nat, c: Call): State
    requires i < |s.calls|
  {
    s.(calls := s.calls[i := c])
  }

  function Changed(s: State): State {
    s.(mu := Free, calls := s.calls + [Waiting])
  }

  function After(s: State, e: Event): State
    requires Enabled(s, e)
  {
    match e
    case Begin(op) => s.(mu := ByChange(op))
    case Admit(id) => Changed(s).(sessions := s.sessions + {id})
    case Remove(id) => Changed(s).(sessions := s.sessions - {id})
    case Close => Changed(s).(closed := true, sessions := {})
    case Refuse => s.(mu := Free)
    case Lock(i) => With(s, i, Reading)
    case Count(i) => With(s, i, Counting).(mu := BySync(i))
    case Read(i) => With(s, i, Acting(Live(s))).(mu := Free)
    case Act(i) =>
      if s.calls[i].live && !s.handle then
        With(s, i, Done).(handle := true, ticker := Goroutine(false, 0))
      else if !s.calls[i].live && s.handle then
        With(s, i, Stopping).(ticker := if s.ticker.Goroutine? then s.ticker.(stopped := true) else s.ticker)
      else
        With(s, i, Done)
    case Join(i) => With(s, i, Done).(handle := false)
    case Tick => s.(ticker := s.ticker.(todo := SECTIONS))
    case Enter => s.(mu := ByTicker)
    case Leave(done) => s.(mu := Free, ticker := s.ticker.(todo := if done then 0 else s.ticker.todo - 1))
    case Exit => s.(ticker := NoGoroutine)
  }

  ghost predicate IsRun(states: seq<State>, events: seq<Event>) {
    && |states| == |events| + 1
    && forall i | 0 <= i < |events| :: Enabled(states[i], events[i]) && states[i + 1] == After(states[i], events[i])
  }

  // ------------------------------------------------------------ safety

  predicate MutualExclusion(s: State) {
    forall i, j | 0 <= i < j < |s.calls| :: !(Holds(s.calls[i]) && Holds(s.calls[j]))
  }

  predicate Unread(s: State) {
    exists i | 0 <= i < |s.calls| :: IsUnread(s.calls[i])
  }

  predicate IsUnread(c: Call) {
    c.Waiting? || c.Reading? || c.Counting?
  }

  /** The session lock is held by whoever is inside a section of it. */
  predicate LockAgrees(s: State) {
    && (forall i | 0 <= i < |s.calls| :: s.calls[i] == Counting <==> s.mu == BySync(i))
    && (s.mu.BySync? ==> s.mu.call < |s.calls|)
    && (s.mu.ByTicker? ==> s.ticker.Goroutine? && s.ticker.todo > 0)
  }

  /** What the holder of tickerMu is about to make of the ticker matches the table. */
  predicate HolderAgrees(s: State) {
    && (forall i | 0 <= i < |s.calls| && s.calls[i].Acting? :: s.calls[i].live == Live(s))
    && (forall i | 0 <= i < |s.calls| && s.calls[i] == Stopping :: !Live(s))
    && ((forall i | 0 <= i < |s.calls| :: !Holds(s.calls[i])) ==> s.handle == Live(s))
  }

  ghost predicate Locks(s: State) {
    MutualExclusion(s) && LockAgrees(s)
  }

  /** A goroutine exists only under a handle, and is told to stop only by a call that waits for it. */
  predicate TickerAgrees(s: State) {
    && (s.ticker.Goroutine? ==> s.handle)
    && (forall i | 0 <= i < |s.calls| && s.calls[i] == Stopping ::
          s.handle && (s.ticker.Goroutine? ==> s.ticker.stopped))
    && ((forall i | 0 <= i < |s.calls| :: s.calls[i] != Stopping) ==> s.handle == Runs(s) && s.handle == s.ticker.Goroutine?)
  }

  /** The last call to read the table saw it as it is. */
  predicate LastSawTable(s: State) {
    !Unread(s) ==> HolderAgrees(s)
  }

  ghost predicate Inv(s: State) {
    Locks(s) && TickerAgrees(s) && LastSawTable(s) && (s.closed ==> s.sessions == {})
  }

  lemma InvInit()
    ensures Inv(FRESH)
  {
  }

  lemma TableChangeKeepsInv(s: State, e: Event)
    requires Inv(s) && Enabled(s, e) && (e.Admit? || e.Remove? || e.Close?)
    ensures Inv(After(s, e))
  {
    var t := After(s, e);
    assert t.calls[|s.calls|] == Waiting;
    assert forall i | 0 <= i < |s.calls| :: t.calls[i] == s.calls[i];
  }

  lemma MutexKeepsInv(s: State, e: Event)
    requires Inv(s) && Enabled(s, e) && (e.Begin? || e.Refuse?)
    ensures Inv(After(s, e))
  {
    assert After(s, e).calls == s.calls;
  }

  lemma OthersUnchanged(s: State, e: Event)
    requires Enabled(s, e) && Syncs(e)
    ensures var t := After(s, e);
            && |t.calls| == |s.calls| && t.calls[e.call] != s.calls[e.call]
            && (forall j | 0 <= j < |s.calls| && j != e.call :: t.calls[j] == s.calls[j])
            && (Unread(s) && !e.Read? ==> Unread(t))
  {
    var t := After(s, e);
    if Unread(s) && !e.Read? {
      var i :| 0 <= i < |s.calls| && IsUnread(s.calls[i]);
      assert IsUnread(t.calls[i]);
    }
  }

  lemma SyncKeepsExclusion(s: State, e: Event)
    requires Locks(s) && Enabled(s, e) && Syncs(e)
    ensures MutualExclusion(After(s, e))
  {
    OthersUnchanged(s, e);
  }

  lemma SyncKeepsLocks(s: State, e: Event)
    requires Locks(s) && TickerAgrees(s) && Enabled(s, e) && Syncs(e)
    ensures Locks(After(s, e))
  {
    SyncKeepsExclusion(s, e);
    OthersUnchanged(s, e);
  }

  lemma SyncKeepsTicker(s: State, e: Event)
    requires Locks(s) && TickerAgrees(s) && Enabled(s, e) && Syncs(e)
    ensures TickerAgrees(After(s, e))
  {
    OthersUnchanged(s, e);
    var t := After(s, e);
    assert s.calls[e.call] == Stopping <==> e.Join?;
  }

  lemma ReadingSawTable(s: State, e: Event)
    requires Locks(s) && LastSawTable(s) && Enabled(s, e) && (e.Lock? || e.Count? || e.Read?)
    ensures LastSawTable(After(s, e))
  {
    OthersUnchanged(s, e);
    if !e.Read? {
      assert IsUnread(After(s, e).calls[e.call]);
    }
  }

  lemma ActingSawTable(s: State, e: Event)
    requires Locks(s) && TickerAgrees(s) && LastSawTable(s) && Enabled(s, e) && (e.Act? || e.Join?)
    ensures LastSawTable(After(s, e))
  {
    OthersUnchanged(s, e);
  }

  lemma SyncKeepsInv(s: State, e: Event)
    requires Inv(s) && Enabled(s, e) && Syncs(e)
    ensures Inv(After(s, e))
  {
    SyncKeepsLocks(s, e);
    SyncKeepsTicker(s, e);
    if e.Act? || e.Join? {
      ActingSawTable(s, e);
    } else {
      ReadingSawTable(s, e);
    }
  }

  lemma GoroutineKeepsInv(s: State, e: Event)
    requires Inv(s) && Enabled(s, e) && (e.Tick? || e.Enter? || e.Leave? || e.Exit?)
    ensures Inv(After(s, e))
  {
    var t := After(s, e);
    assert t.calls == s.calls;
  }

  lemma StepKeepsInv(s: State, e: Event)
    requires Inv(s) && Enabled(s, e)
    ensures Inv(After(s, e))
  {
    if e.Admit? || e.Remove? || e.Close? {
      TableChangeKeepsInv(s, e);
    } else if e.Begin? || e.Refuse? {
      MutexKeepsInv(s, e);
    } else if Syncs(e) {
      SyncKeepsInv(s, e);
    } else {
      GoroutineKeepsInv(s, e);
    }
  }

  lemma {:induction false} InvHolds(states: seq<State>, events: seq<Event>, i: nat)
    requires IsRun(states, events) && Inv(states[0]) && i < |states|
    ensures Inv(states[i])
  {
    if i > 0 {
      InvHolds(states, events, i - 1);
      StepKeepsInv(states[i - 1], events[i - 1]);
    }
  }

  /** Once no sync is pending, the ticker runs exactly when the conn is open and has a
      session, whatever order the calls' steps interleaved in. */
  lemma QuiescentTickerMatchesTable(states: seq<State>, events: seq<Event>, i: nat)
    requires IsRun(states, events) && states[0] == FRESH && i < |states|
    requires Quiescent(states[i])
    ensures Runs(states[i]) <==> !states[i].closed && states[i].sessions != {}
    ensures states[i].ticker.Goroutine? <==> Runs(states[i])
  {
    InvInit();
    InvHolds(states, events, i);
    assert !Unread(states[i]);
  }

  /** A ticker is only ever started where no earlier goroutine is left, so at no moment of
      any run are there two. */
  lemma StartFindsNoGoroutine(states: seq<State>, events: seq<Event>, i: nat)
    requires IsRun(states, events) && states[0] == FRESH && i < |events|
    requires events[i].Act? && states[i + 1].handle && !states[i].handle
    ensures states[i].ticker == NoGoroutine && Runs(states[i + 1])
  {
    InvInit();
    InvHolds(states, events, i);
  }

  lemma StaysClosed(s: State, e: Event)
    requires Enabled(s, e) && s.closed && s.sessions == {}
    ensures After(s, e).closed && After(s, e).sessions == {} && !e.Admit?
  {
  }

  lemma {:induction false} ClosedForGood(states: seq<State>, events: seq<Event>, c: nat, i: nat)
    requires IsRun(states, events) && c < i < |states| && events[c] == Close
    ensures states[i].closed && states[i].sessions == {}
  {
    if i > c + 1 {
      ClosedForGood(states, events, c, i - 1);
      StaysClosed(states[i - 1], events[i - 1]);
    }
    assert states[i] == After(states[i - 1], events[i - 1]);
  }

  /** Close is final: from then on no session is admitted, and whenever the pending syncs
      have finished there is no goroutine. */
  lemma CloseIsFinal(states: seq<State>, events: seq<Event>, c: nat, i: nat)
    requires IsRun(states, events) && states[0] == FRESH
    requires c < i < |states| && events[c] == Close
    ensures states[i].closed && states[i].sessions == {}
    ensures i < |events| ==> !events[i].Admit?
    ensures Quiescent(states[i]) ==> states[i].ticker == NoGoroutine
  {
    ClosedForGood(states, events, c, i);
    if i < |events| {
      StaysClosed(states[i], events[i]);
    }
    if Quiescent(states[i]) {
      QuiescentTickerMatchesTable(states, events, i);
    }
  }

  // ------------------------------------------------------------ the table by its events

  /** What admissions, removals and Close make of the table. */
  function Table(events: seq<Event>): set<string> {
    if events == [] then {}
    else
      var before := Table(events[..|events| - 1]);
      match events[|events| - 1]
      case Admit(id) => before + {id}
      case Remove(id) => before - {id}
      case Close => {}
      case _ => before
  }

  lemma {:induction false} SessionsAreTheTable(states: seq<State>, events: seq<Event>, i: nat)
    requires IsRun(states, events) && states[0] == FRESH && i < |states|
    ensures states[i].sessions == Table(events[..i])
    ensures states[i].closed <==> Close in events[..i]
  {
    if i > 0 {
      SessionsAreTheTable(states, events, i - 1);
      assert events[..i] == events[..i - 1] + [events[i - 1]];
      assert states[i] == After(states[i - 1], events[i - 1]);
    }
  }

  /** An admission goes through exactly when the conn was never closed and the id is not in the
      table. */
  lemma AdmissionIsExact(states: seq<State>, events: seq<Event>, i: nat, id: string)
    requires IsRun(states, events) && states[0] == FRESH && i < |events|
    requires states[i].mu == ByChange(Admission(id)) && (events[i].Admit? || events[i].Refuse?)
    ensures events[i] == if Close !in events[..i] && id !in Table(events[..i]) then Admit(id) else Refuse
  {
    SessionsAreTheTable(states, events, i);
  }

  /** The table changes only under the lock of a call that asked for the change. */
  lemma ChangesWereAsked(states: seq<State>, events: seq<Event>, i: nat)
    requires IsRun(states, events) && i < |events|
    ensures match events[i]
            case Admit(id) => states[i].mu == ByChange(Admission(id))
            case Remove(id) => states[i].mu == ByChange(Removal(id))
            case Close => states[i].mu == ByChange(Closing)
            case _ => states[i + 1].sessions == states[i].sessions && states[i + 1].closed == states[i].closed
  {
  }

  /** So the ticker is accounted for by the events alone. */
  lemma QuiescentTickerMatchesEvents(states: seq<State>, events: seq<Event>, i: nat)
    requires IsRun(states, events) && states[0] == FRESH && i < |states|
    requires Quiescent(states[i])
    ensures Runs(states[i]) <==> Close !in events[..i] && Table(events[..i]) != {}
    ensures Runs(states[i]) <==> states[i].ticker.Goroutine?
  {
    QuiescentTickerMatchesTable(states, events, i);
    SessionsAreTheTable(states, events, i);
  }

  // ------------------------------------------------------------ progress

  function Weight(c: Call): nat {
    match c
    case Waiting => 5
    case Reading => 4
    case Counting => 3
    case Acting(_) => 2
    case Stopping => 1
    case Done => 0
  }

  function CallsWeight(calls: seq<Call>): nat {
    if calls == [] then 0 else CallsWeight(calls[..|calls| - 1]) + Weight(calls[|calls| - 1])
  }

  function TickerWeight(s: State): nat {
    if s.ticker.Goroutine? then 2 * s.ticker.todo + (if s.mu.ByTicker? then 0 else 1) else 0
  }

  /** What is left to do before every pending change and sync has finished. */
  function Remaining(s: State): nat {
    CallsWeight(s.calls) + (if s.mu.ByChange? then 6 else 0) + TickerWeight(s)
  }

  lemma {:induction false} CallsWeightUpdate(calls: seq<Call>, i: nat, c: Call)
    requires i < |calls|
    ensures CallsWeight(calls[i := c]) == CallsWeight(calls) - Weight(calls[i]) + Weight(c)
  {
    var n := |calls| - 1;
    if i < n {
      CallsWeightUpdate(calls[..n], i, c);
      assert calls[i := c][..n] == calls[..n][i := c];
    } else {
      assert calls[i := c][..n] == calls[..n];
    }
  }

  /** Every internal step uses up some of what remains. A goroutine told to stop may still take
      a tick that is due, as Go's select may; that is no internal step. */
  lemma InternalStepsRunOut(s: State, e: Event)
    requires Inv(s) && Enabled(s, e) && Internal(e)
    ensures Remaining(After(s, e)) < Remaining(s)
  {
    if Syncs(e) {
      SyncsRunOut(s, e);
    }
  }

  lemma SyncIsLighter(s: State, e: Event)
    requires Locks(s) && TickerAgrees(s) && Enabled(s, e) && Syncs(e)
    ensures var t := After(s, e);
            && t.calls == s.calls[e.call := t.calls[e.call]]
            && t.mu.ByChange? == s.mu.ByChange?
            && Weight(t.calls[e.call]) + TickerWeight(t) < Weight(s.calls[e.call]) + TickerWeight(s)
  {
    assert s.mu.ByTicker? ==> s.ticker.Goroutine?;
  }

  lemma SyncsRunOut(s: State, e: Event)
    requires Locks(s) && TickerAgrees(s) && Enabled(s, e) && Syncs(e)
    ensures Remaining(After(s, e)) < Remaining(s)
  {
    SyncIsLighter(s, e);
    CallsWeightUpdate(s.calls, e.call, After(s, e).calls[e.call]);
  }

  /** What the beginning of a call and a tick add to what remains. */
  function Allowance(e: Event): nat {
    if e.Begin? then 6 else if e.Tick? then 2 * SECTIONS else 0
  }

  function Allowances(events: seq<Event>): nat {
    if events == [] then 0 else Allowances(events[..|events| - 1]) + Allowance(events[|events| - 1])
  }

  function InternalSteps(events: seq<Event>): nat {
    if events == [] then 0
    else InternalSteps(events[..|events| - 1]) + (if Internal(events[|events| - 1]) then 1 else 0)
  }

  lemma StepIsPaidFor(s: State, e: Event)
    requires Inv(s) && Enabled(s, e)
    ensures Remaining(After(s, e)) + (if Internal(e) then 1 else 0) <= Remaining(s) + Allowance(e)
  {
    if Internal(e) {
      InternalStepsRunOut(s, e);
    }
  }

  /** No schedule is endless: in every run the internal steps number at most what remained at
      its start, six more for each call begun and four more for each tick, those after a stop
      included. */
  lemma {:induction false} WorkIsBounded(states: seq<State>, events: seq<Event>, i: nat)
    requires IsRun(states, events) && Inv(states[0]) && i <= |events|
    ensures InternalSteps(events[..i]) + Remaining(states[i]) <= Remaining(states[0]) + Allowances(events[..i])
  {
    if i > 0 {
      WorkIsBounded(states, events, i - 1);
      InvHolds(states, events, i - 1);
      StepIsPaidFor(states[i - 1], events[i - 1]);
      assert events[..i][..i - 1] == events[..i - 1];
    }
  }

  /** Whoever holds the session lock waits for nothing and can let go of it. */
  lemma SessionLockIsReleased(s: State) returns (e: Event)
    requires Inv(s) && s.mu != Free
    ensures Internal(e) && Enabled(s, e) && After(s, e).mu == Free
  {
    match s.mu {
      case ByChange(op) =>
        match op {
          case Admission(id) => e := if s.closed || id in s.sessions then Refuse else Admit(id);
          case Removal(id) => e := Remove(id);
          case Closing => e := Close;
        }
      case BySync(i) => e := Read(i);
      case ByTicker => e := Leave(true);
    }
  }

  /** While a change or a sync is pending some internal step can be taken. The session lock is
      never held across a wait for tickerMu or for the goroutine, so the two locks, the stop
      channel and the wait never deadlock. */
  lemma SomeInternalStep(s: State) returns (e: Event)
    requires Inv(s) && (!Quiescent(s) || s.mu != Free)
    ensures Internal(e) && Enabled(s, e)
  {
    if s.mu != Free {
      e := SessionLockIsReleased(s);
    } else if h: int :| 0 <= h < |s.calls| && Holds(s.calls[h]) {
      assert s.calls[h] != Counting;
      match s.calls[h] {
        case Reading => e := Count(h);
        case Acting(_) => e := Act(h);
        case Stopping =>
          if s.ticker == NoGoroutine {
            e := Join(h);
          } else if s.ticker.todo > 0 {
            e := Enter;
          } else {
            e := Exit;
          }
      }
    } else {
      var w :| 0 <= w < |s.calls| && s.calls[w] != Done;
      e := Lock(w);
    }
  }

  /** From every reachable state some schedule runs the pending changes and syncs to the end,
      and the ticker then matches the table. */
  lemma {:induction false} PendingSyncsFinish(s: State) returns (states: seq<State>, events: seq<Event>)
    requires Inv(s)
    ensures IsRun(states, events) && states[0] == s
    ensures forall e | e in events :: Internal(e)
    ensures |events| <= Remaining(s)
    ensures Quiescent(states[|events|]) && states[|events|].mu == Free
    ensures Runs(states[|events|]) == Live(states[|events|])
    ensures !s.mu.ByChange? ==> Live(states[|events|]) == Live(s)
    decreases Remaining(s)
  {
    if Quiescent(s) && s.mu == Free {
      assert !Unread(s);
      states, events := [s], [];
    } else {
      var e := SomeInternalStep(s);
      InternalKeepsLive(s, e);
      InternalStepsRunOut(s, e);
      var states', events' := PendingSyncsFinish(After(s, e));
      states, events := [s] + states', [e] + events';
      RunPrepends(s, e, states', events');
    }
  }

  lemma {:induction false} AllInternal(events: seq<Event>)
    requires forall e | e in events :: Internal(e)
    ensures InternalSteps(events) == |events| && Allowances(events) == 0
  {
    if events != [] {
      AllInternal(events[..|events| - 1]);
    }
  }

  /** However they are scheduled: with no new call and no tick a schedule ends within what
      remains, and one that cannot go on has finished every change and sync. */
  lemma EveryScheduleFinishes(states: seq<State>, events: seq<Event>)
    requires IsRun(states, events) && Inv(states[0])
    requires forall e | e in events :: Internal(e)
    ensures |events| <= Remaining(states[0])
    ensures var s := states[|events|];
            (forall e | Internal(e) :: !Enabled(s, e)) ==> Quiescent(s) && s.mu == Free && Runs(s) == Live(s)
  {
    AllInternal(events);
    WorkIsBounded(states, events, |events|);
    assert events[..|events|] == events;
    InvHolds(states, events, |events|);
    var s := states[|events|];
    if Quiescent(s) && s.mu == Free {
      assert !Unread(s);
    } else {
      var e := SomeInternalStep(s);
    }
  }

  lemma InternalKeepsLive(s: State, e: Event)
    requires Inv(s) && Enabled(s, e) && Internal(e)
    ensures Inv(After(s, e))
    ensures !s.mu.ByChange? ==> !After(s, e).mu.ByChange? && Live(After(s, e)) == Live(s)
  {
    StepKeepsInv(s, e);
  }

  lemma RunPrepends(s: State, e: Event, states: seq<State>, events: seq<Event>)
    requires Enabled(s, e) && IsRun(states, events) && states[0] == After(s, e)
    ensures IsRun([s] + states, [e] + events)
  {
    var states', events' := [s] + states, [e] + events;
    forall i | 0 <= i < |events'|
      ensures Enabled(states'[i], events'[i]) && states'[i + 1] == After(states'[i], events'[i])
    {
      if i > 0 {
        assert states'[i] == states[i - 1] && events'[i] == events[i - 1] && states'[i + 1] == states[i];
      }
    }
  }
}
