/** The SNTP client (extras/timesource/sntp.go; RFC 4330): timestamps, the checks on a reply,
    the error of one measurement and the choice among several. */
module Sntp {
  import opened Aead
  import opened Clock
  import opened Net
  import opened Results
  import opened Sorting

  const PACKET_SIZE: nat := 48
  const EPOCH_OFFSET: int := 2_208_988_800
  const MAX_ROUND_TRIP: int := 5 * SECOND
  const ERA: int := 0x1_0000_0000
  const HALF_ERA: int := 0x8000_0000

  // ------------------------------------------------------------ timestamps

  /** ntpTime: 32 bits of seconds since 1900 and 32 of fraction. A cleared top bit means the
      era that starts in 2036 (section 3 of RFC 4330). */
  function NtpTime(b: seq<byte>): int
    requires |b| == 8
  {
    var sec, frac := U32(b[..4]), U32(b[4..]);
    ((if sec < HALF_ERA then sec + ERA else sec) - EPOCH_OFFSET) * SECOND + frac * SECOND / ERA
  }

  /** The timestamp a server writes for an instant: its seconds, in either era, and the
      fraction rounded down. */
  function Stamp(t: int): (b: seq<byte>)
    ensures |b| == 8
  {
    PutU32((t / SECOND + EPOCH_OFFSET) % ERA) + PutU32(t % SECOND * ERA / SECOND)
  }

  /** The 136 years around 2036 that the era rule covers. */
  predicate InEras(t: int) {
    HALF_ERA <= t / SECOND + EPOCH_OFFSET < HALF_ERA + ERA
  }

  lemma FractionRoundTrip(n: nat)
    requires n < SECOND
    ensures var frac := n * ERA / SECOND;
            0 <= frac < ERA && n - 1 <= frac * SECOND / ERA <= n
  {
    var frac := n * ERA / SECOND;
    assert frac * SECOND <= n * ERA < (frac + 1) * SECOND;
    assert (n - 1) * ERA <= frac * SECOND <= n * ERA;
  }

  lemma StampParts(t: int)
    ensures U32(Stamp(t)[..4]) == (t / SECOND + EPOCH_OFFSET) % ERA
    ensures U32(Stamp(t)[4..]) == t % SECOND * ERA / SECOND
  {
    FractionRoundTrip(t % SECOND);
    var sec, frac := (t / SECOND + EPOCH_OFFSET) % ERA, t % SECOND * ERA / SECOND;
    assert Stamp(t)[..4] == PutU32(sec) && Stamp(t)[4..] == PutU32(frac);
    U32RoundTrip(sec);
    U32RoundTrip(frac);
  }

  /** Instant a timestamp gives the instant it was written for, less at most a nanosecond,
      exactly when the instant is in the years the era rule covers. */
  lemma StampRoundTrip(t: int)
    ensures t - 1 <= NtpTime(Stamp(t)) <= t <==> InEras(t)
  {
    StampParts(t);
    FractionRoundTrip(t % SECOND);
    EraRule(t / SECOND + EPOCH_OFFSET);
  }

  function Resolved(sec: int): int {
    if sec < HALF_ERA then sec + ERA else sec
  }

  lemma EraRule(sec: int)
    ensures Resolved(sec % ERA) == sec <==> HALF_ERA <= sec < HALF_ERA + ERA
    ensures HALF_ERA <= Resolved(sec % ERA) < HALF_ERA + ERA
  {
    var q := sec / ERA;
    assert sec == q * ERA + sec % ERA;
  }

  // ------------------------------------------------------------ one measurement

  datatype Fault = ShortPacket | Unsynchronized | NotServerMode | BadStratum | NonceMismatch | ZeroTimestamp | BadRoundTrip

  datatype Measurement = Measurement(time: int, offset: int, rtt: int)

  /** What queryOne makes of a reply that arrived between two local readings: the round trip is
      elapsed time, and the offset is against the wall clock. */
  function Measure(nonce: seq<byte>, resp: seq<byte>, t1: Instant, t4: Instant): Result<Measurement, Fault> {
    if |resp| < PACKET_SIZE then Err(ShortPacket)
    else if resp[0] / 64 == 3 then Err(Unsynchronized)
    else if resp[0] % 8 != 4 then Err(NotServerMode)
    else if resp[1] == 0 || resp[1] > 15 then Err(BadStratum)
    else if resp[24..32] != nonce then Err(NonceMismatch)
    else if U64(resp[40..48]) == 0 then Err(ZeroTimestamp)
    else
      var t2, t3 := NtpTime(resp[32..40]), NtpTime(resp[40..48]);
      var rtt := (t4.elapsed - t1.elapsed) - (t3 - t2);
      if rtt < 0 || rtt > MAX_ROUND_TRIP then Err(BadRoundTrip)
      else
        var offset := t3 - t4.wall + Quotient(rtt, 2);
        Ok(Measurement(t4.wall + offset, offset, rtt))
  }

  /** A reply is used exactly when it is a whole packet from a synchronised server of stratum 1
      to 15 that returns the nonce and a transmit time, and the path it implies took from
      nothing to five seconds; the offset is then from the middle of that path. */
  lemma ReplyIsUsed(nonce: seq<byte>, resp: seq<byte>, t1: Instant, t4: Instant)
    ensures Measure(nonce, resp, t1, t4).Ok? <==>
              && |resp| >= 48
              && resp[0] / 64 != 3 && resp[0] % 8 == 4
              && 1 <= resp[1] <= 15
              && resp[24..32] == nonce
              && resp[40..48] != [0, 0, 0, 0, 0, 0, 0, 0]
              && 0 <= PathTime(resp, t1, t4) <= 5 * SECOND
    ensures Measure(nonce, resp, t1, t4).Ok? ==>
              var m := Measure(nonce, resp, t1, t4).value;
              && m.rtt == PathTime(resp, t1, t4)
              && m.offset == NtpTime(resp[40..48]) - t4.wall + m.rtt / 2
              && m.time == t4.wall + m.offset
  {
    if |resp| >= 48 {
      ZeroBytes(resp[40..48]);
    }
  }

  lemma ZeroBytes(b: seq<byte>)
    requires |b| == 8
    ensures U64(b) == 0 <==> b == [0, 0, 0, 0, 0, 0, 0, 0]
  {
    assert PutU32(0) == [0, 0, 0, 0];
    PutU64Inverse(b);
    U64RoundTrip(0);
  }

  /** The time that passed here less the time the server says it took. */
  function PathTime(resp: seq<byte>, t1: Instant, t4: Instant): int
    requires |resp| >= 48
  {
    (t4.elapsed - t1.elapsed) - (NtpTime(resp[40..48]) - NtpTime(resp[32..40]))
  }

  /** Why any other is refused, the first reason that applies. */
  lemma RefusedReply(nonce: seq<byte>, resp: seq<byte>, t1: Instant, t4: Instant)
    requires Measure(nonce, resp, t1, t4).Err?
    ensures match Measure(nonce, resp, t1, t4).error
            case ShortPacket => |resp| < 48
            case Unsynchronized => |resp| >= 48 && resp[0] / 64 == 3
            case NotServerMode => |resp| >= 48 && resp[0] % 8 != 4
            case BadStratum => |resp| >= 48 && (resp[1] == 0 || resp[1] > 15)
            case NonceMismatch => |resp| >= 48 && resp[24..32] != nonce
            case ZeroTimestamp => |resp| >= 48 && U64(resp[40..48]) == 0
            case BadRoundTrip => |resp| >= 48 && !(0 <= PathTime(resp, t1, t4) <= 5 * SECOND)
  {
  }

  /** A query over the network: true times at which the request left, reached the server, the
      reply left it and came back. */
  datatype Exchange = Exchange(sent: int, received: int, answered: int, returned: int) {
    predicate Causal() {
      sent <= received <= answered <= returned
    }
  }

  /** A reply from a server with a good clock: what it holds, whatever else is in it. */
  ghost predicate IsReply(resp: seq<byte>, nonce: seq<byte>, x: Exchange) {
    && |resp| >= PACKET_SIZE
    && resp[0] / 64 != 3 && resp[0] % 8 == 4
    && 1 <= resp[1] <= 15
    && resp[24..32] == nonce
    && resp[32..40] == Stamp(x.received)
    && resp[40..48] == Stamp(x.answered)
  }

  /** The monotonic clock counted the time the exchange took. The wall clock may be wrong by
      any amount, and may be stepped while the reply is awaited. */
  ghost predicate Timed(x: Exchange, t1: Instant, t4: Instant) {
    t4.elapsed - t1.elapsed == x.returned - x.sent
  }

  /** For any one-way delays and any error of the wall clock, the measured offset is within
      half the round trip of the true one, to the nanosecond that rounding costs. */
  lemma OffsetWithinHalfRtt(nonce: seq<byte>, resp: seq<byte>, x: Exchange, t1: Instant, t4: Instant)
    requires x.Causal() && IsReply(resp, nonce, x) && InEras(x.received) && InEras(x.answered)
    requires Timed(x, t1, t4)
    ensures var m, clockError := Measure(nonce, resp, t1, t4), x.returned - t4.wall;
            m.Ok? ==>
              && -((m.value.rtt + 1) / 2) - 1 <= m.value.offset - clockError <= m.value.rtt / 2
              && m.value.time - x.returned == m.value.offset - clockError
  {
    StampRoundTrip(x.received);
    StampRoundTrip(x.answered);
  }

  /** The one instant of the covered years whose timestamp is all zeros: the start of the era. */
  lemma ZeroStampIsEraStart(t: int)
    requires InEras(t)
    ensures U64(Stamp(t)) == 0 <==> t == (ERA - EPOCH_OFFSET) * SECOND
  {
    StampParts(t);
    var sec, n := t / SECOND + EPOCH_OFFSET, t % SECOND;
    EraRule(sec);
    if n > 0 {
      assert n * ERA >= SECOND;
    }
  }

  /** Such a reply is accepted when the path took from a nanosecond to just under five seconds,
      unless it was answered at the very start of the era. */
  lemma GoodReplyAccepted(nonce: seq<byte>, resp: seq<byte>, x: Exchange, t1: Instant, t4: Instant)
    requires x.Causal() && IsReply(resp, nonce, x) && InEras(x.received) && InEras(x.answered)
    requires Timed(x, t1, t4)
    requires 1 <= (x.received - x.sent) + (x.returned - x.answered) < MAX_ROUND_TRIP
    ensures Measure(nonce, resp, t1, t4).Ok?
            <==> x.answered != (ERA - EPOCH_OFFSET) * SECOND
  {
    StampRoundTrip(x.received);
    StampRoundTrip(x.answered);
    ZeroStampIsEraStart(x.answered);
  }

  // ------------------------------------------------------------ the median

  function Count<T>(p: T -> bool, s: seq<T>): (n: nat)
    ensures n <= |s|
  {
    if s == [] then 0 else (if p(s[0]) then 1 else 0) + Count(p, s[1..])
  }

  lemma {:induction false} CountInsert<T>(p: T -> bool, key: T -> int, x: T, s: seq<T>)
    ensures Count(p, Insert(key, x, s)) == Count(p, s) + (if p(x) then 1 else 0)
  {
    if s == [] || key(x) <= key(s[0]) {
      assert ([x] + s)[1..] == s;
    } else {
      CountInsert(p, key, x, s[1..]);
      assert ([s[0]] + Insert(key, x, s[1..]))[1..] == Insert(key, x, s[1..]);
    }
  }

  lemma {:induction false} CountSort<T>(p: T -> bool, key: T -> int, s: seq<T>)
    ensures Count(p, Sort(key, s)) == Count(p, s)
  {
    if s != [] {
      CountSort(p, key, s[1..]);
      CountInsert(p, key, s[0], Sort(key, s[1..]));
    }
  }

  lemma {:induction false} CountNone<T>(p: T -> bool, s: seq<T>)
    requires forall i | 0 <= i < |s| :: !p(s[i])
    ensures Count(p, s) == 0
  {
    if s != [] {
      CountNone(p, s[1..]);
    }
  }

  lemma {:induction false} CountAll<T>(p: T -> bool, s: seq<T>)
    requires forall i | 0 <= i < |s| :: p(s[i])
    ensures Count(p, s) == |s|
  {
    if s != [] {
      CountAll(p, s[1..]);
    }
  }

  lemma {:induction false} CountSplit<T>(p: T -> bool, a: seq<T>, b: seq<T>)
    ensures Count(p, a + b) == Count(p, a) + Count(p, b)
  {
    if a == [] {
      assert a + b == b;
    } else {
      assert (a + b)[1..] == a[1..] + b;
      CountSplit(p, a[1..], b);
    }
  }

  lemma {:induction false} CountBoth<T>(p: T -> bool, q: T -> bool, s: seq<T>)
    requires forall x | x in s :: !(p(x) && q(x))
    ensures Count(p, s) + Count(q, s) <= |s|
  {
    if s != [] {
      CountBoth(p, q, s[1..]);
    }
  }

  const BY_OFFSET: Measurement -> int := (m: Measurement) => m.offset

  function Below(x: int): Measurement -> bool {
    (m: Measurement) => m.offset < x
  }

  function AtMost(x: int): Measurement -> bool {
    (m: Measurement) => m.offset <= x
  }

  function Within(lo: int, hi: int): Measurement -> bool {
    (m: Measurement) => lo <= m.offset <= hi
  }

  /** No more than half lie below it, and more than half lie no higher. */
  ghost predicate IsMedian(results: seq<Measurement>, m: Measurement) {
    && m in results
    && Count(Below(m.offset), results) <= |results| / 2 < Count(AtMost(m.offset), results)
  }

  lemma OffsetsRise(s: seq<Measurement>, i: nat, k: nat)
    requires Sorted(BY_OFFSET, s) && i <= k < |s|
    ensures s[i].offset <= s[k].offset
  {
    assert i < k ==> BY_OFFSET(s[i]) <= BY_OFFSET(s[k]);
  }

  lemma FewBelow(s: seq<Measurement>, k: nat)
    requires Sorted(BY_OFFSET, s) && k < |s|
    ensures Count(Below(s[k].offset), s) <= k
  {
    var x, head, tail := s[k].offset, s[..k], s[k..];
    assert s == head + tail;
    CountSplit(Below(x), head, tail);
    forall i | 0 <= i < |tail| ensures !Below(x)(tail[i]) {
      OffsetsRise(s, k, k + i);
    }
    CountNone(Below(x), tail);
  }

  lemma ManyAtMost(s: seq<Measurement>, k: nat)
    requires Sorted(BY_OFFSET, s) && k < |s|
    ensures k < Count(AtMost(s[k].offset), s)
  {
    var x, head, tail := s[k].offset, s[..k + 1], s[k + 1..];
    assert s == head + tail;
    CountSplit(AtMost(x), head, tail);
    forall i | 0 <= i < |head| ensures AtMost(x)(head[i]) {
      OffsetsRise(s, i, k);
    }
    CountAll(AtMost(x), head);
  }

  /** What a server's turn comes to: the context was done before it, or it was asked. */
  datatype Turn = Done | Asked(answer: Result<Measurement, Fault>)

  function Answers(turns: seq<Turn>): seq<Measurement> {
    if turns == [] then []
    else
      var before, last := Answers(turns[..|turns| - 1]), turns[|turns| - 1];
      if last.Asked? && last.answer.Ok? then before + [last.answer.value] else before
  }

  function Answered(m: Measurement): Turn -> bool {
    (t: Turn) => t == Asked(Ok(m))
  }

  /** Every measurement counts as often as a server gave it. */
  lemma {:induction false} AnswersAre(turns: seq<Turn>, m: Measurement)
    ensures multiset(Answers(turns))[m] == Count(Answered(m), turns)
  {
    if turns != [] {
      var front, last := turns[..|turns| - 1], turns[|turns| - 1];
      assert turns == front + [last];
      AnswersAre(front, m);
      CountSplit(Answered(m), front, [last]);
      assert [last][1..] == [];
    }
  }

  datatype QueryFault = NoServers | NoAnswers

  /** Query: every server is asked until the context is done, and any answer at all is enough. */
  method Query(turns: seq<Turn>) returns (r: Result<Measurement, QueryFault>, asked: nat)
    ensures asked <= |turns| && (forall i | 0 <= i < asked :: turns[i].Asked?)
    ensures asked < |turns| ==> turns[asked].Done?
    ensures r.Err? <==> forall i | 0 <= i < asked :: turns[i].answer.Err?
    ensures r.Err? ==> r.error == if turns == [] then NoServers else NoAnswers
    ensures r.Ok? ==> IsMedian(Answers(turns[..asked]), r.value)
  {
    asked := 0;
    if turns == [] {
      return Err(NoServers), 0;
    }
    var results: seq<Measurement> := [];
    while asked < |turns|
      invariant asked <= |turns| && forall i | 0 <= i < asked :: turns[i].Asked?
      invariant results == Answers(turns[..asked])
      invariant results == [] <==> forall i | 0 <= i < asked :: turns[i].answer.Err?
    {
      if turns[asked].Done? {
        break;
      }
      assert turns[..asked + 1][..asked] == turns[..asked];
      if turns[asked].answer.Ok? {
        results := results + [turns[asked].answer.value];
      }
      asked := asked + 1;
    }
    if results == [] {
      return Err(NoAnswers), asked;
    }
    var sorted := Sort(BY_OFFSET, results);
    SortSorts(BY_OFFSET, results);
    var m := sorted[|sorted| / 2];
    FewBelow(sorted, |sorted| / 2);
    ManyAtMost(sorted, |sorted| / 2);
    CountSort(Below(m.offset), BY_OFFSET, results);
    CountSort(AtMost(m.offset), BY_OFFSET, results);
    return Ok(m), asked;
  }

  /** When more than half of the answers are within a range, so is the chosen one, whatever the
      others say. */
  lemma MajorityBoundsMedian(results: seq<Measurement>, m: Measurement, lo: int, hi: int)
    requires IsMedian(results, m) && 2 * Count(Within(lo, hi), results) > |results|
    ensures lo <= m.offset <= hi
  {
    if m.offset < lo {
      CountBoth(Within(lo, hi), AtMost(m.offset), results);
    }
    if m.offset > hi {
      CountAtMost(results, lo, hi, m.offset);
    }
  }

  lemma {:induction false} CountAtMost(results: seq<Measurement>, lo: int, hi: int, x: int)
    requires hi < x
    ensures Count(Within(lo, hi), results) <= Count(Below(x), results)
  {
    if results != [] {
      CountAtMost(results[1..], lo, hi, x);
    }
  }
}
