/** The padding target of disco packets (extras/realm/disco_conn.go): the most common length
    among the datagrams a connection sent lately. The ring buffer, the freshness cut, the
    sort and the run count are proved to compute the mode of the last 64 samples. */
module WireLens {
  import opened Clock
  import opened DiscoCodec
  import opened Sorting

  const WINDOW: nat := 64
  const MAX_AGE: int := 10 * SECOND

  datatype Sample = Sample(len: int, at: int)

  // ------------------------------------------------------------ the mode of a multiset

  /** The most frequent length, and among equally frequent ones the longest. */
  ghost predicate IsMode(lens: multiset<int>, m: int) {
    && m in lens
    && forall v | v in lens :: lens[v] < lens[m] || (lens[v] == lens[m] && v <= m)
  }

  lemma ModeUnique(lens: multiset<int>, a: int, b: int)
    requires IsMode(lens, a) && IsMode(lens, b)
    ensures a == b
  {
  }

  const BY_VALUE: int -> int := (n: int) => n

  // ------------------------------------------------------------ counting runs

  /** What the loop over the sorted lengths knows after the first i of them. */
  ghost predicate Counted(s: seq<int>, i: nat, run: nat, best: int, bestRun: nat)
    requires 0 < i <= |s|
  {
    var seen := multiset(s[..i]);
    && run == seen[s[i - 1]]
    && IsMode(seen, best)
    && bestRun == seen[best]
  }

  lemma CountStep(s: seq<int>, i: nat, run: nat, best: int, bestRun: nat)
    requires Sorted(BY_VALUE, s) && 0 < i < |s| && Counted(s, i, run, best, bestRun)
    ensures var run' := if s[i] == s[i - 1] then run + 1 else 1;
            Counted(s, i + 1, run',
                    if run' >= bestRun then s[i] else best,
                    if run' >= bestRun then run' else bestRun)
  {
    var seen, next := multiset(s[..i]), multiset(s[..i + 1]);
    assert s[..i + 1] == s[..i] + [s[i]];
    assert next == seen + multiset{s[i]};
    if s[i] != s[i - 1] {
      assert forall k | 0 <= k < i :: s[k] <= s[i - 1] < s[i];
      assert s[i] !in seen;
    }
    assert forall v | v in s[..i] :: v <= s[i];
  }

  /** The most common of a sorted list, ties to the longer. */
  method CountRuns(s: seq<int>) returns (best: int)
    requires Sorted(BY_VALUE, s) && s != []
    ensures IsMode(multiset(s), best)
  {
    best := s[0];
    var bestRun, run := 1, 1;
    assert s[..1] == [s[0]];
    for i := 1 to |s|
      invariant Counted(s, i, run, best, bestRun)
    {
      CountStep(s, i, run, best, bestRun);
      if s[i] == s[i - 1] {
        run := run + 1;
      } else {
        run := 1;
      }
      if run >= bestRun {
        best, bestRun := s[i], run;
      }
    }
    assert s[..|s|] == s;
  }

  method SortedMode(s: seq<int>) returns (best: int)
    requires s != []
    ensures IsMode(multiset(s), best)
  {
    SortSorts(BY_VALUE, s);
    assert s[0] in multiset(s);
    best := CountRuns(Sort(BY_VALUE, s));
  }

  // ------------------------------------------------------------ freshness

  function Newest(samples: seq<Sample>): int
    requires samples != []
  {
    if |samples| == 1 then samples[0].at
    else Max(Newest(samples[..|samples| - 1]), samples[|samples| - 1].at)
  }

  /** The lengths of the samples no older than since. */
  function FreshLens(samples: seq<Sample>, since: int): seq<int> {
    if samples == [] then []
    else
      var n := |samples| - 1;
      FreshLens(samples[..n], since) + (if samples[n].at < since then [] else [samples[n].len])
  }

  lemma {:induction false} FreshLensOfSum(a: seq<Sample>, b: seq<Sample>, since: int)
    ensures FreshLens(a + b, since) == FreshLens(a, since) + FreshLens(b, since)
  {
    if b == [] {
      assert a + b == a;
    } else {
      var n := |b| - 1;
      assert (a + b)[..|a| + n] == a + b[..n];
      FreshLensOfSum(a, b[..n], since);
    }
  }

  lemma {:induction false} NewestHolds(samples: seq<Sample>) returns (s: Sample)
    requires samples != []
    ensures s in samples && s.at == Newest(samples)
    ensures forall r | r in samples :: r.at <= Newest(samples)
  {
    var n := |samples| - 1;
    assert samples == samples[..n] + [samples[n]];
    s := samples[n];
    if n > 0 {
      var before := NewestHolds(samples[..n]);
      s := if s.at <= before.at then before else s;
    }
  }

  lemma NewestIs(samples: seq<Sample>, t: int)
    requires samples != []
    ensures Newest(samples) == t <==> (exists s | s in samples :: s.at == t) && forall s | s in samples :: s.at <= t
  {
    var s := NewestHolds(samples);
  }

  /** The lengths of the samples no more than ten seconds older than the newest. */
  ghost function FreshOf(samples: seq<Sample>): multiset<int>
    requires samples != []
  {
    multiset(FreshLens(samples, Newest(samples) - MAX_AGE))
  }

  /** The lengths the target is taken from: the fresh ones of the last 64 accepted samples. */
  ghost function Considered(history: seq<Sample>): multiset<int>
    requires history != []
  {
    FreshOf(Recent(history))
  }

  function Recent(history: seq<Sample>): seq<Sample> {
    if |history| <= WINDOW then history else history[|history| - WINDOW..]
  }

  /** Which of the samples have this length and are no older than since. */
  function With(samples: seq<Sample>, len: int, since: int): set<int> {
    set j | 0 <= j < |samples| && samples[j].len == len && samples[j].at >= since
  }

  lemma WithNext(samples: seq<Sample>, last: Sample, len: int, since: int)
    ensures |With(samples + [last], len, since)|
            == |With(samples, len, since)| + (if last.len == len && last.at >= since then 1 else 0)
  {
    var before := With(samples, len, since);
    assert With(samples + [last], len, since)
        == before + (if last.len == len && last.at >= since then {|samples|} else {});
    assert |samples| !in before;
  }

  lemma {:induction false} FreshLensCount(samples: seq<Sample>, since: int, len: int)
    ensures multiset(FreshLens(samples, since))[len] == |With(samples, len, since)|
  {
    if samples == [] {
      assert With(samples, len, since) == {};
    } else {
      var n := |samples| - 1;
      assert samples == samples[..n] + [samples[n]];
      FreshLensCount(samples[..n], since, len);
      WithNext(samples[..n], samples[n], len, since);
    }
  }

  lemma NewestOfLast(last: seq<Sample>, newest: Sample)
    requires newest in last && forall s | s in last :: s.at <= newest.at
    ensures Newest(last) == newest.at
  {
    NewestIs(last, newest.at);
  }

  lemma FreshCounts(last: seq<Sample>, since: int, len: int)
    requires last != [] && since == Newest(last) - MAX_AGE
    ensures FreshOf(last)[len] == |With(last, len, since)|
  {
    var lens := multiset(FreshLens(last, since));
    FreshLensCount(last, since, len);
    assert FreshOf(last) == lens;
  }

  /** How often a length counts: once for each of the last 64 accepted samples that has it and
      is no more than ten seconds older than the newest of them. */
  lemma ConsideredCounts(history: seq<Sample>, len: int, newest: Sample)
    requires history != []
    requires newest in LastSamples(history) && forall s | s in LastSamples(history) :: s.at <= newest.at
    ensures Considered(history)[len] == |With(LastSamples(history), len, newest.at - 10 * SECOND)|
  {
    NewestOfLast(LastSamples(history), newest);
    FreshCounts(LastSamples(history), newest.at - 10 * SECOND, len);
  }

  function LastSamples(history: seq<Sample>): seq<Sample> {
    if |history| <= 64 then history else history[|history| - 64..]
  }

  lemma {:induction false} FreshLensNonEmpty(samples: seq<Sample>, since: int, s: Sample)
    requires s in samples && s.at >= since
    ensures s.len in FreshLens(samples, since)
  {
    var n := |samples| - 1;
    assert samples == samples[..n] + [samples[n]];
    if s in samples[..n] {
      FreshLensNonEmpty(samples[..n], since, s);
    }
  }

  // ------------------------------------------------------------ the ring

  /** The slots in the order they were written, when p is the next to be overwritten. */
  function Turned(slots: seq<Sample>, p: nat): seq<Sample>
    requires p <= |slots|
  {
    slots[p..] + slots[..p]
  }

  /** The slots hold the last 64 samples, the next slot to be written being the oldest. */
  ghost predicate Ring(slots: seq<Sample>, history: seq<Sample>) {
    && |slots| == WINDOW
    && if |history| < WINDOW then slots[..|history|] == history
       else Turned(slots, |history| % WINDOW) == Recent(history)
  }

  function NextPosition(p: nat): nat {
    if p + 1 == WINDOW then 0 else p + 1
  }

  lemma NextSlot(n: nat)
    ensures (n + 1) % WINDOW == NextPosition(n % WINDOW)
  {
  }

  /** Overwriting the oldest slot turns the ring by one. */
  lemma RingTurns(slots: seq<Sample>, p: nat, s: Sample)
    requires p < |slots| == WINDOW
    ensures Turned(slots[p := s], NextPosition(p)) == Turned(slots, p)[1..] + [s]
  {
    assert Turned(slots[p := s], p + 1) == Turned(slots, p)[1..] + [s];
    if p + 1 == WINDOW {
      assert Turned(slots[p := s], 0) == Turned(slots[p := s], p + 1);
    }
  }

  lemma RecentMoves(history: seq<Sample>, s: Sample)
    requires |history| >= WINDOW
    ensures Recent(history + [s]) == Recent(history)[1..] + [s]
  {
  }

  lemma FillAdvances(slots: seq<Sample>, history: seq<Sample>, s: Sample)
    requires Ring(slots, history) && |history| < WINDOW
    ensures Ring(slots[|history| := s], history + [s])
  {
    var after := slots[|history| := s];
    assert after[..|history| + 1] == slots[..|history|] + [s];
    if |history| + 1 == WINDOW {
      assert Turned(after, 0) == after[..WINDOW];
    }
  }

  lemma WrapAdvances(slots: seq<Sample>, history: seq<Sample>, s: Sample)
    requires Ring(slots, history) && |history| >= WINDOW
    ensures Ring(slots[|history| % WINDOW := s], history + [s])
  {
    RingTurns(slots, |history| % WINDOW, s);
    NextSlot(|history|);
    RecentMoves(history, s);
  }

  lemma RingAdvances(slots: seq<Sample>, history: seq<Sample>, s: Sample, p: nat)
    requires Ring(slots, history) && p == |history| % WINDOW
    ensures Ring(slots[p := s], history + [s])
  {
    if |history| < WINDOW {
      FillAdvances(slots, history, s);
    } else {
      WrapAdvances(slots, history, s);
    }
  }

  /** Turning a list changes neither its newest entry nor which lengths are fresh. */
  lemma TurnedIsSame(a: seq<Sample>, b: seq<Sample>, since: int)
    requires a + b != []
    ensures Newest(a + b) == Newest(b + a)
    ensures multiset(FreshLens(a + b, since)) == multiset(FreshLens(b + a, since))
  {
    FreshLensOfSum(a, b, since);
    FreshLensOfSum(b, a, since);
    NewestIs(a + b, Newest(a + b));
    NewestIs(b + a, Newest(a + b));
    var s :| s in a + b && s.at == Newest(a + b);
    assert s in b + a;
  }

  /** In slot order or in time order, the samples held are the same. */
  lemma HeldIsRecent(slots: seq<Sample>, filled: nat, history: seq<Sample>, since: int)
    requires Ring(slots, history) && history != []
    requires filled == if |history| < WINDOW then |history| else WINDOW
    ensures Newest(slots[..filled]) == Newest(Recent(history))
    ensures multiset(FreshLens(slots[..filled], since)) == multiset(FreshLens(Recent(history), since))
  {
    if |history| >= WINDOW {
      var p := |history| % WINDOW;
      assert slots[..WINDOW] == slots[..p] + slots[p..];
      TurnedIsSame(slots[..p], slots[p..], since);
    }
  }

  lemma SameFresh(held: seq<Sample>, last: seq<Sample>, since: int)
    requires held != [] && last != []
    requires Newest(held) - MAX_AGE == since && Newest(last) - MAX_AGE == since
    requires multiset(FreshLens(held, since)) == multiset(FreshLens(last, since))
    ensures FreshOf(held) == FreshOf(last)
  {
  }

  class Lens {
    const slots: array<Sample>
    var count: nat
    // Every accepted sample, oldest first.
    ghost var history: seq<Sample>

    ghost predicate Valid()
      reads this, slots
    {
      && count == |history|
      && slots.Length == WINDOW
      && Ring(slots[..], history)
      && forall s | s in history :: MIN_WIRE <= s.len <= MAX_WIRE
    }

    constructor ()
      ensures Valid() && history == [] && fresh(slots)
    {
      slots := new Sample[WINDOW](_ => Sample(0, 0));
      count, history := 0, [];
    }

    method Observe(n: int, now: int)
      requires Valid()
      modifies this, slots
      ensures Valid()
      ensures history == if 48 <= n <= 1452 then old(history) + [Sample(n, now)] else old(history)
    {
      if n < MIN_WIRE || n > MAX_WIRE {
        return;
      }
      RingAdvances(slots[..], history, Sample(n, now), count % WINDOW);
      slots[count % WINDOW] := Sample(n, now);
      count := count + 1;
      history := history + [Sample(n, now)];
      assert slots[..] == old(slots[..])[old(count) % WINDOW := Sample(n, now)];
    }

    /** mode: zero when nothing was accepted, and otherwise the mode of what is considered. */
    method Mode() returns (target: int)
      requires Valid()
      ensures target == 0 <==> history == []
      ensures history != [] ==> IsMode(Considered(history), target)
    {
      var filled := if count < WINDOW then count else WINDOW;
      if filled == 0 {
        return 0;
      }
      target := ModeOfSlots(filled);
      ModeOfHeld(slots[..], filled, history, target);
    }

    method ModeOfSlots(filled: nat) returns (target: int)
      requires 0 < filled <= slots.Length
      ensures IsMode(FreshOf(slots[..filled]), target)
    {
      ghost var held := slots[..filled];
      var newest := NewestOf(filled);
      var window := Collect(filled, newest - MAX_AGE);
      SomeFresh(held);
      target := SortedMode(window);
    }

    method NewestOf(filled: nat) returns (newest: int)
      requires 0 < filled <= slots.Length
      ensures newest == Newest(slots[..filled])
    {
      newest := slots[0].at;
      for i := 1 to filled
        invariant newest == Newest(slots[..i])
      {
        assert slots[..i + 1][..i] == slots[..i];
        if slots[i].at > newest {
          newest := slots[i].at;
        }
      }
    }

    method Collect(filled: nat, since: int) returns (window: seq<int>)
      requires filled <= slots.Length
      ensures window == FreshLens(slots[..filled], since)
    {
      window := [];
      for i := 0 to filled
        invariant window == FreshLens(slots[..i], since)
      {
        assert slots[..i + 1][..i] == slots[..i];
        if slots[i].at >= since {
          window := window + [slots[i].len];
        }
      }
    }
  }

  lemma ModeOfHeld(slots: seq<Sample>, filled: nat, history: seq<Sample>, target: int)
    requires Ring(slots, history) && history != []
    requires filled == if |history| < WINDOW then |history| else WINDOW
    requires IsMode(FreshOf(slots[..filled]), target)
    requires forall s | s in history :: MIN_WIRE <= s.len <= MAX_WIRE
    ensures IsMode(Considered(history), target) && target != 0
  {
    var since := Newest(Recent(history)) - MAX_AGE;
    HeldIsRecent(slots, filled, history, since);
    SameFresh(slots[..filled], Recent(history), since);
    ConsideredInRange(history, target);
  }

  lemma SomeFresh(samples: seq<Sample>)
    requires samples != []
    ensures FreshLens(samples, Newest(samples) - MAX_AGE) != []
  {
    NewestIs(samples, Newest(samples));
    var s :| s in samples && s.at == Newest(samples);
    FreshLensNonEmpty(samples, Newest(samples) - MAX_AGE, s);
  }

  lemma {:induction false} FreshLensFrom(samples: seq<Sample>, since: int, len: int)
    requires len in FreshLens(samples, since)
    ensures exists s | s in samples :: s.len == len && s.at >= since
  {
    var n := |samples| - 1;
    assert samples == samples[..n] + [samples[n]];
    if len in FreshLens(samples[..n], since) {
      FreshLensFrom(samples[..n], since, len);
      var s :| s in samples[..n] && s.len == len && s.at >= since;
      assert s in samples;
    } else {
      assert samples[n] in samples;
    }
  }

  /** The target is always a length this connection sent lately, and one disco can be built at. */
  lemma ConsideredInRange(history: seq<Sample>, target: int)
    requires forall s | s in history :: MIN_WIRE <= s.len <= MAX_WIRE
    requires history != []
    requires target in Considered(history)
    ensures MIN_WIRE <= target <= MAX_WIRE
    ensures exists s | s in Recent(history) :: s.len == target && s.at >= Newest(Recent(history)) - MAX_AGE
  {
    var last := Recent(history);
    FreshLensFrom(last, Newest(last) - MAX_AGE, target);
  }

  // ------------------------------------------------------------ majorities

  lemma TwoCounts(m: multiset<int>, v: int, w: int)
    requires v != w
    ensures m[v] + m[w] <= |m|
  {
    var rest := m[v := 0];
    assert |m| == |rest| + m[v];
    var none := rest[w := 0];
    assert |rest| == |none| + m[w];
  }

  /** A bare majority of what is considered always moves the target, whatever the rest is. */
  lemma MajorityDecides(history: seq<Sample>, v: int, target: int)
    requires history != []
    requires IsMode(Considered(history), target)
    requires 2 * Considered(history)[v] > |Considered(history)|
    ensures target == v
  {
    if target != v {
      TwoCounts(Considered(history), v, target);
    }
  }
}
