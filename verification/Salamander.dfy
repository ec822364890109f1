/** Salamander v2's receive side (extras/obfs/salamander_v2.go): a sealed packet is accepted
    when its timestamp lies in the clock window and its salt is in none of four rotating
    buckets. The window goes by the wall clock and the rotation by the monotonic one, so the
    two are only sound together while the wall clock keeps up with elapsed time; by how much
    it may lag before they are not is found exactly. */
module Salamander {
  import opened Clock
  import opened Net
  import opened Results
  import opened Aead

  const SALT_LEN: nat := 12
  const TS_LEN: nat := 4
  const OVERHEAD: nat := SALT_LEN + TS_LEN + TAG_LEN
  const MIN_LEN: nat := OVERHEAD + 1

  const MAX_SKEW: int := 30 * SECOND
  const SKEW_SECONDS: int := 30
  const PERIOD: int := MAX_SKEW
  const BUCKETS: nat := 4

  type Salt = s: seq<byte> | |s| == 12 witness [0, 0, 0, 0, 0, 0, 0, 0, 0, 0, 0, 0]

  datatype Packet =
    | Runt(bytes: seq<byte>)
    | Packet(salt: Salt, box: Box)

  function Size(p: Packet): nat {
    match p
    case Runt(bytes) => |bytes|
    case Packet(_, box) => SALT_LEN + Length(box)
  }

  datatype Role = Client | Server

  datatype Keys = Keys(send: Key, recv: Key)

  // The key-derivation contexts of the two directions.
  const CTX_C2S := "chameleon/obfs/salamander-v2/c2s"
  const CTX_S2C := "chameleon/obfs/salamander-v2/s2c"

  function KeysFor(root: seq<byte>, role: Role): Keys {
    var c2s, s2c := Key(root, CTX_C2S), Key(root, CTX_S2C);
    if role.Client? then Keys(c2s, s2c) else Keys(s2c, c2s)
  }

  // ------------------------------------------------------------ sending

  /** salt ‖ seal(payload ‖ timestamp), with the clock truncated to 32 bits; nothing when
      there is no payload or the buffer is too small. */
  function Obfuscate(payload: seq<byte>, salt: Salt, key: Key, now: Instant, outLen: nat): Option<Packet> {
    if |payload| == 0 || outLen < |payload| + OVERHEAD then None
    else Some(Packet(salt, Sealed(key, salt, [], payload + PutU32(Unix(now.wall) % 0x1_0000_0000))))
  }

  // ------------------------------------------------------------ the replay set

  // The set rotates by elapsed time alone.
  datatype ReplaySet = ReplaySet(buckets: seq<set<Salt>>, idx: nat, lastRotate: Option<int>)

  predicate Shaped(r: ReplaySet) {
    |r.buckets| == BUCKETS && r.idx < BUCKETS
  }

  const EMPTY_SET := ReplaySet([{}, {}, {}, {}], 0, None)

  function RotateOnce(r: ReplaySet): (q: ReplaySet)
    requires Shaped(r) && r.lastRotate.Some?
    ensures Shaped(q)
  {
    var next := (r.idx + 1) % BUCKETS;
    ReplaySet(r.buckets[next := {}], next, Some(r.lastRotate.value + PERIOD))
  }

  function Rotated(r: ReplaySet, now: int): (q: ReplaySet)
    requires Shaped(r) && r.lastRotate.Some?
    ensures Shaped(q) && q.lastRotate.Some?
    decreases now - r.lastRotate.value
  {
    if now - r.lastRotate.value >= PERIOD then Rotated(RotateOnce(r), now) else r
  }

  function CaughtUp(r: ReplaySet, now: int): (q: ReplaySet)
    requires Shaped(r)
    ensures Shaped(q) && q.lastRotate.Some?
  {
    Rotated(if r.lastRotate.None? then r.(lastRotate := Some(now)) else r, now)
  }

  predicate Holds(r: ReplaySet, salt: Salt) {
    exists i | 0 <= i < |r.buckets| :: salt in r.buckets[i]
  }

  function Added(r: ReplaySet, salt: Salt): ReplaySet
    requires Shaped(r)
  {
    r.(buckets := r.buckets[r.idx := r.buckets[r.idx] + {salt}])
  }

  /** seenOrAdd: whether the salt was there, and the set afterwards. */
  function SeenOrAdd(r: ReplaySet, salt: Salt, now: int): (res: (bool, ReplaySet))
    requires Shaped(r)
    ensures Shaped(res.1) && res.1.lastRotate.Some?
  {
    var q := CaughtUp(r, now);
    if Holds(q, salt) then (true, q)
    else (false, Added(q, salt))
  }

  // ------------------------------------------------------------ receiving

  datatype Verdict =
    | Accepted(payload: seq<byte>)
    | AeadFailed
    | Malformed
    | Skewed
    | Replayed

  /** timestampInWindow: seconds are the wall clock's, and the time since the start is elapsed time. */
  predicate TimestampInWindow(ts: int, now: Instant, boot: Instant) {
    var lower := Unix(now.wall) - SKEW_SECONDS;
    && ts <= Unix(now.wall) + SKEW_SECONDS
    && (if now.elapsed - boot.elapsed < MAX_SKEW && Unix(boot.wall) > lower then ts >= Unix(boot.wall) else ts >= lower)
  }

  function Stamp(plain: seq<byte>): u32
    requires |plain| >= TS_LEN
  {
    U32(plain[|plain| - TS_LEN..])
  }

  function Payload(plain: seq<byte>): seq<byte>
    requires |plain| >= TS_LEN
  {
    plain[..|plain| - TS_LEN]
  }

  datatype Receiver = Receiver(key: Key, boot: Instant)

  function Deobfuscate(c: Receiver, r: ReplaySet, p: Packet, now: Instant, outLen: nat): (res: (Verdict, ReplaySet))
    requires Shaped(r)
    ensures Shaped(res.1)
  {
    if Size(p) < MIN_LEN || p.Runt? then (Malformed, r)
    else
      match Open(c.key, p.salt, [], p.box)
      case None => (AeadFailed, r)
      case Some(plain) =>
        if |plain| < TS_LEN + 1 then (Malformed, r)
        else if !TimestampInWindow(Stamp(plain), now, c.boot) then (Skewed, r)
        else
          var (seen, q) := SeenOrAdd(r, p.salt, now.elapsed);
          if seen then (Replayed, q)
          else if outLen < |plain| - TS_LEN then (Malformed, q)
          else (Accepted(Payload(plain)), q)
  }

  // ------------------------------------------------------------ the obfuscator

  /** One end's obfuscator, with its counters kept apart by cause. */
  class SalamanderV2 {
    const keys: Keys
    const boot: Instant
    var buckets: seq<set<Salt>>
    var idx: nat
    var lastRotate: Option<int>
    var malformed: nat
    var aeadFailed: nat
    var skewed: nat
    var replayed: nat

    ghost function Seen(): ReplaySet
      reads this
    {
      ReplaySet(buckets, idx, lastRotate)
    }

    ghost predicate Valid()
      reads this
    {
      Shaped(Seen())
    }

    constructor (root: seq<byte>, role: Role, now: Instant)
      ensures Valid() && Seen() == EMPTY_SET
      ensures keys == KeysFor(root, role) && boot == now
    {
      keys := KeysFor(root, role);
      boot := now;
      buckets, idx, lastRotate := [{}, {}, {}, {}], 0, None;
      malformed, aeadFailed, skewed, replayed := 0, 0, 0, 0;
    }

    method SeenOrAddSalt(salt: Salt, now: int) returns (seen: bool)
      requires Valid()
      modifies this`buckets, this`idx, this`lastRotate
      ensures Valid()
      ensures (seen, Seen()) == SeenOrAdd(old(Seen()), salt, now)
    {
      if lastRotate.None? {
        lastRotate := Some(now);
      }
      while now - lastRotate.value >= PERIOD
        invariant Valid() && lastRotate.Some?
        invariant CaughtUp(old(Seen()), now) == Rotated(Seen(), now)
        decreases now - lastRotate.value
      {
        idx := (idx + 1) % |buckets|;
        buckets := buckets[idx := {}];
        lastRotate := Some(lastRotate.value + PERIOD);
      }
      for i := 0 to |buckets|
        invariant forall k | 0 <= k < i :: salt !in buckets[k]
      {
        if salt in buckets[i] {
          return true;
        }
      }
      buckets := buckets[idx := buckets[idx] + {salt}];
      return false;
    }

    method Receive(p: Packet, now: Instant, outLen: nat) returns (v: Verdict)
      requires Valid()
      modifies this
      ensures Valid()
      ensures (v, Seen()) == Deobfuscate(Receiver(keys.recv, boot), old(Seen()), p, now, outLen)
      ensures malformed == old(malformed) + (if v.Malformed? then 1 else 0)
      ensures aeadFailed == old(aeadFailed) + (if v.AeadFailed? then 1 else 0)
      ensures skewed == old(skewed) + (if v.Skewed? then 1 else 0)
      ensures replayed == old(replayed) + (if v.Replayed? then 1 else 0)
    {
      if Size(p) < MIN_LEN || p.Runt? {
        malformed := malformed + 1;
        return Malformed;
      }
      var unsealed := Open(keys.recv, p.salt, [], p.box);
      if unsealed.None? {
        aeadFailed := aeadFailed + 1;
        return AeadFailed;
      }
      var plain := unsealed.value;
      if |plain| < TS_LEN + 1 {
        malformed := malformed + 1;
        return Malformed;
      }
      if !TimestampInWindow(Stamp(plain), now, boot) {
        skewed := skewed + 1;
        return Skewed;
      }
      var seen := SeenOrAddSalt(p.salt, now.elapsed);
      if seen {
        replayed := replayed + 1;
        return Replayed;
      }
      if outLen < |plain| - TS_LEN {
        malformed := malformed + 1;
        return Malformed;
      }
      return Accepted(Payload(plain));
    }
  }

  lemma DirectionsDiffer(root: seq<byte>)
    ensures KeysFor(root, Client).send == KeysFor(root, Server).recv
    ensures KeysFor(root, Server).send == KeysFor(root, Client).recv
    ensures KeysFor(root, Client).send != KeysFor(root, Server).send
  {
    assert CTX_C2S[29] != CTX_S2C[29];
  }

  function Opposite(role: Role): Role {
    if role.Client? then Server else Client
  }

  lemma StampedPlaintext(payload: seq<byte>, ts: u32)
    ensures var plain := payload + PutU32(ts);
            |plain| == |payload| + TS_LEN && Stamp(plain) == ts && Payload(plain) == payload
  {
    var plain := payload + PutU32(ts);
    U32RoundTrip(ts);
    assert plain[|payload|..] == PutU32(ts) && plain[..|payload|] == payload;
  }

  lemma OpensTo(c: Receiver, r: ReplaySet, salt: Salt, plain: seq<byte>, now: Instant, outLen: nat)
    requires Shaped(r) && |plain| > TS_LEN && outLen >= |plain| - TS_LEN
    ensures Deobfuscate(c, r, Packet(salt, Sealed(c.key, salt, [], plain)), now, outLen).0 == Accepted(Payload(plain))
            <==> TimestampInWindow(Stamp(plain), now, c.boot) && !Holds(CaughtUp(r, now.elapsed), salt)
  {
  }

  lemma SentPacket(root: seq<byte>, role: Role, payload: seq<byte>, salt: Salt, sent: Instant, room: nat)
    requires 0 <= Unix(sent.wall) < 0x1_0000_0000
    ensures var p := Obfuscate(payload, salt, KeysFor(root, role).send, sent, room);
            && (p.Some? <==> |payload| > 0 && room >= |payload| + 32)
            && (p.Some? ==>
                  && Size(p.value) == |payload| + 32
                  && p.value == Packet(salt, Sealed(KeysFor(root, Opposite(role)).recv, salt, [], payload + PutU32(Unix(sent.wall)))))
  {
    DirectionsDiffer(root);
    assert Unix(sent.wall) % 0x1_0000_0000 == Unix(sent.wall);
  }

  /** A packet bounced back at its own role never opens, so it records nothing. */
  lemma ReflectionFails(root: seq<byte>, role: Role, payload: seq<byte>, salt: Salt, sent: Instant,
                        boot: Instant, r: ReplaySet, now: Instant, outLen: nat)
    requires Shaped(r) && |payload| > 0
    ensures var p := Obfuscate(payload, salt, KeysFor(root, role).send, sent, |payload| + OVERHEAD).value;
            Deobfuscate(Receiver(KeysFor(root, role).recv, boot), r, p, now, outLen) == (AeadFailed, r)
  {
    DirectionsDiffer(root);
  }

  // ------------------------------------------------------------ runs

  datatype Call = Call(packet: Packet, now: Instant, outLen: nat)

  ghost predicate IsRun(c: Receiver, states: seq<ReplaySet>, calls: seq<Call>) {
    && |states| == |calls| + 1
    && states[0] == EMPTY_SET
    && (forall i | 0 <= i < |states| :: Shaped(states[i]))
    && forall i | 0 <= i < |calls| ::
         states[i + 1] == Deobfuscate(c, states[i], calls[i].packet, calls[i].now, calls[i].outLen).1
  }

  ghost function VerdictAt(c: Receiver, states: seq<ReplaySet>, calls: seq<Call>, i: nat): Verdict
    requires IsRun(c, states, calls) && i < |calls|
  {
    Deobfuscate(c, states[i], calls[i].packet, calls[i].now, calls[i].outLen).0
  }

  /** From any reading i, the time passed by a reading k is never more than lag ahead of what
      the wall clock has advanced by a reading j no earlier than k. */
  ghost predicate LagsAtMost(calls: seq<Call>, lag: int) {
    forall i, k, j | 0 <= i <= k <= j < |calls| ::
      (calls[k].now.elapsed - calls[i].now.elapsed) - (calls[j].now.wall - calls[i].now.wall) <= lag
  }

  /** A salt recorded while the current bucket began at since is in the bucket that many
      rotations back, until four rotations have passed. */
  ghost predicate Kept(r: ReplaySet, salt: Salt, since: int, age: nat)
    requires Shaped(r)
  {
    && r.lastRotate == Some(since + age * PERIOD)
    && (age < BUCKETS ==> salt in r.buckets[(r.idx + BUCKETS - age) % BUCKETS])
  }

  lemma {:induction false} RotationKeeps(r: ReplaySet, now: int, salt: Salt, since: int, age: nat) returns (age': nat)
    requires Shaped(r) && Kept(r, salt, since, age)
    ensures Kept(Rotated(r, now), salt, since, age')
    decreases now - r.lastRotate.value
  {
    if now - r.lastRotate.value >= PERIOD {
      age' := RotationKeeps(RotateOnce(r), now, salt, since, age + 1);
    } else {
      age' := age;
    }
  }

  lemma CallKeeps(c: Receiver, r: ReplaySet, call: Call, salt: Salt, since: int, age: nat) returns (age': nat)
    requires Shaped(r) && Kept(r, salt, since, age)
    ensures Kept(Deobfuscate(c, r, call.packet, call.now, call.outLen).1, salt, since, age')
  {
    if Deobfuscate(c, r, call.packet, call.now, call.outLen).1 == r {
      age' := age;
    } else {
      age' := RotationKeeps(r, call.now.elapsed, salt, since, age);
    }
  }

  lemma {:induction false} RotationStops(r: ReplaySet, now: int)
    requires Shaped(r) && r.lastRotate.Some?
    ensures now - Rotated(r, now).lastRotate.value < PERIOD
    ensures Rotated(r, now).lastRotate.value <= Max(r.lastRotate.value, now)
    decreases now - r.lastRotate.value
  {
    if now - r.lastRotate.value >= PERIOD {
      RotationStops(RotateOnce(r), now);
    }
  }

  lemma CallRotates(c: Receiver, r: ReplaySet, call: Call)
    requires Shaped(r) && r.lastRotate.Some?
    ensures var q := Deobfuscate(c, r, call.packet, call.now, call.outLen).1;
            q.lastRotate.Some? && q.lastRotate.value <= Max(r.lastRotate.value, call.now.elapsed)
  {
    RotationStops(r, call.now.elapsed);
  }

  /** Between two points of a run the rotation clock goes no further than the largest time read. */
  lemma {:induction false} RotationFollowsClock(c: Receiver, states: seq<ReplaySet>, calls: seq<Call>, m: nat, i: nat)
      returns (k: nat)
    requires IsRun(c, states, calls) && m <= i < |states|
    requires states[m].lastRotate.Some?
    ensures states[i].lastRotate.Some?
    ensures states[i].lastRotate.value > states[m].lastRotate.value
            ==> m <= k < i && states[i].lastRotate.value <= calls[k].now.elapsed
  {
    k := m;
    if m < i {
      var j := i - 1;
      var before, now := states[j], calls[j].now.elapsed;
      k := RotationFollowsClock(c, states, calls, m, j);
      CallRotates(c, before, calls[j]);
      assert states[i].lastRotate.value <= Max(before.lastRotate.value, now);
      k := if before.lastRotate.value > now then k else j;
    }
  }

  /** From the moment a salt is recorded to any later point of the run. */
  lemma {:induction false} RecordedStays(c: Receiver, states: seq<ReplaySet>, calls: seq<Call>, i: nat, j: nat)
      returns (since: int, age: nat)
    requires IsRun(c, states, calls) && i < j < |states|
    requires VerdictAt(c, states, calls, i).Accepted?
    ensures calls[i].now.elapsed - since < PERIOD
    ensures states[i + 1].lastRotate == Some(since)
    ensures Kept(states[j], calls[i].packet.salt, since, age)
  {
    var salt := calls[i].packet.salt;
    if j == i + 1 {
      var r, now := states[i], calls[i].now.elapsed;
      RotationStops(if r.lastRotate.None? then r.(lastRotate := Some(now)) else r, now);
      since, age := CaughtUp(r, now).lastRotate.value, 0;
    } else {
      since, age := RecordedStays(c, states, calls, i, j - 1);
      age := CallKeeps(c, states[j - 1], calls[j - 1], salt, since, age);
    }
  }

  // The largest lag of the wall clock the two mechanisms together tolerate.
  const TOLERANCE: int := 29 * SECOND + 1

  /** A salt recorded by one call and gone by another: more than ninety seconds passed in between. */
  lemma ForgottenNeedsTime(c: Receiver, states: seq<ReplaySet>, calls: seq<Call>, i: nat, j: nat) returns (k: nat)
    requires IsRun(c, states, calls) && i < j < |calls|
    requires VerdictAt(c, states, calls, i).Accepted?
    requires states[j + 1].lastRotate == CaughtUp(states[j], calls[j].now.elapsed).lastRotate
    requires !Holds(CaughtUp(states[j], calls[j].now.elapsed), calls[i].packet.salt)
    ensures i < k <= j && calls[k].now.elapsed - calls[i].now.elapsed > 90 * SECOND
  {
    var salt := calls[i].packet.salt;
    var since, age := RecordedStays(c, states, calls, i, j);
    age := RotationKeeps(states[j], calls[j].now.elapsed, salt, since, age);
    ForgottenAfterFour(CaughtUp(states[j], calls[j].now.elapsed), salt, since, age);
    k := RotationFollowsClock(c, states, calls, i + 1, j + 1);
  }

  /** Between any two acceptances of one packet the wall clock fell behind by more than the
      tolerance: the window allows a second look only while it has advanced less than 61
      seconds, and a salt is forgotten only when over 90 seconds have passed. */
  lemma SecondAcceptanceNeedsLag(c: Receiver, states: seq<ReplaySet>, calls: seq<Call>, i: nat, j: nat) returns (k: nat)
    requires IsRun(c, states, calls)
    requires i < j < |calls| && calls[i].packet == calls[j].packet
    requires VerdictAt(c, states, calls, i).Accepted?
    requires VerdictAt(c, states, calls, j).Accepted?
    ensures i < k <= j
    ensures (calls[k].now.elapsed - calls[i].now.elapsed) - (calls[j].now.wall - calls[i].now.wall) > 29 * SECOND + 1
  {
    k := ForgottenNeedsTime(c, states, calls, i, j);
    assert Unix(calls[j].now.wall) <= Unix(calls[i].now.wall) + 2 * SKEW_SECONDS;
  }

  lemma ForgottenAfterFour(r: ReplaySet, salt: Salt, since: int, age: nat)
    requires Shaped(r) && Kept(r, salt, since, age) && !Holds(r, salt)
    ensures r.lastRotate.value >= since + BUCKETS * PERIOD
  {
    assert age >= BUCKETS;
  }

  ghost predicate AcceptsTwice(c: Receiver, states: seq<ReplaySet>, calls: seq<Call>)
    requires IsRun(c, states, calls)
  {
    exists i, j | 0 <= i < j < |calls| ::
      && calls[i].packet == calls[j].packet
      && VerdictAt(c, states, calls, i).Accepted?
      && VerdictAt(c, states, calls, j).Accepted?
  }

  lemma NeverAcceptedTwice(c: Receiver, states: seq<ReplaySet>, calls: seq<Call>)
    requires IsRun(c, states, calls) && LagsAtMost(calls, TOLERANCE)
    ensures !AcceptsTwice(c, states, calls)
  {
    if AcceptsTwice(c, states, calls) {
      var i: nat, j: nat :| i < j < |calls| && calls[i].packet == calls[j].packet
                            && VerdictAt(c, states, calls, i).Accepted? && VerdictAt(c, states, calls, j).Accepted?;
      var k := SecondAcceptanceNeedsLag(c, states, calls, i, j);
      assert false;
    }
  }

  // ------------------------------------------------------------ the clocks a process may run on

  /** time.Now, whose monotonic part never falls; and timesource.Clock, whose readings have none. */
  datatype ClockKind = SystemClock | StrippedClock

  ghost predicate Reads(kind: ClockKind, calls: seq<Call>) {
    match kind
    case SystemClock => forall i, j | 0 <= i < j < |calls| :: calls[i].now.elapsed <= calls[j].now.elapsed
    case StrippedClock => forall i | 0 <= i < |calls| :: calls[i].now == Stripped(calls[i].now.wall)
  }

  /** What a lag amounts to on each: the system's wall clock lags from one reading to a later
      one, and a stripped clock falls below an earlier reading. */
  ghost predicate PairsLagAtMost(kind: ClockKind, calls: seq<Call>, lag: int) {
    match kind
    case SystemClock => forall i, j | 0 <= i <= j < |calls| :: Lag(calls[i].now, calls[j].now) <= lag
    case StrippedClock => forall i, j | 0 <= i <= j < |calls| :: calls[i].now.wall - calls[j].now.wall <= lag
  }

  lemma LagIsPairwise(kind: ClockKind, calls: seq<Call>, lag: int)
    requires Reads(kind, calls)
    ensures LagsAtMost(calls, lag) <==> PairsLagAtMost(kind, calls, lag)
  {
    if LagsAtMost(calls, lag) {
      forall i, j | 0 <= i <= j < |calls|
        ensures Lag(calls[i].now, calls[j].now) <= lag
        ensures (calls[i].now.elapsed - calls[i].now.elapsed) - (calls[j].now.wall - calls[i].now.wall) <= lag
      {
      }
    }
    if PairsLagAtMost(kind, calls, lag) {
      forall i, k, j | 0 <= i <= k <= j < |calls|
        ensures (calls[k].now.elapsed - calls[i].now.elapsed) - (calls[j].now.wall - calls[i].now.wall) <= lag
      {
        assert kind.SystemClock? ==> k == j || calls[k].now.elapsed <= calls[j].now.elapsed;
        assert kind.SystemClock? ==> Lag(calls[i].now, calls[j].now) <= lag;
        assert kind.StrippedClock? ==> calls[k].now.wall - calls[j].now.wall <= lag;
      }
    }
  }

  /** No receiver, whatever its key and start, accepts a packet twice in a run on such a clock
      whose wall part lags by at most this much. */
  ghost predicate SafeUnderLag(kind: ClockKind, lag: int) {
    forall c: Receiver, states: seq<ReplaySet>, calls: seq<Call> ::
      IsRun(c, states, calls) && Reads(kind, calls) && PairsLagAtMost(kind, calls, lag)
      ==> !AcceptsTwice(c, states, calls)
  }

  // Runs that accept one packet twice, with the clock one nanosecond past the tolerance.
  const BOOT := Instant(0, 0)
  const RECV_KEY := Key([], CTX_C2S)
  const WITNESS := Receiver(RECV_KEY, BOOT)
  const SALT_A: Salt := [0, 0, 0, 0, 0, 0, 0, 0, 0, 0, 0, 0]
  const SALT_B: Salt := [1, 0, 0, 0, 0, 0, 0, 0, 0, 0, 0, 0]
  const SALT_C: Salt := [2, 0, 0, 0, 0, 0, 0, 0, 0, 0, 0, 0]

  function Stamped(salt: Salt, ts: u32): Packet {
    Packet(salt, Sealed(RECV_KEY, salt, [], [0] + PutU32(ts)))
  }

  function FirstBucket(b: set<Salt>, at: int): ReplaySet {
    ReplaySet([b, {}, {}, {}], 0, Some(at))
  }

  lemma WitnessStep(r: ReplaySet, p: Packet, ts: u32, now: Instant, held: set<Salt>, at: int)
    requires Shaped(r) && TimestampInWindow(ts, now, BOOT)
    requires p.Packet? && p == Stamped(p.salt, ts) && p.salt !in held
    requires CaughtUp(r, now.elapsed) == FirstBucket(held, at)
    ensures Deobfuscate(WITNESS, r, p, now, 1) == (Accepted([0]), FirstBucket(held + {p.salt}, at))
  {
    StampedPlaintext([0], ts);
    var q := CaughtUp(r, now.elapsed);
    assert q.buckets[0 := q.buckets[0] + {p.salt}] == FirstBucket(held + {p.salt}, at).buckets;
    assert !Holds(q, p.salt);
  }

  /** One more call of the witness run, its packet accepted into the first bucket. */
  lemma RunExtends(states: seq<ReplaySet>, calls: seq<Call>, salt: Salt, ts: u32, now: Instant, held: set<Salt>, at: int)
      returns (states': seq<ReplaySet>, calls': seq<Call>)
    requires IsRun(WITNESS, states, calls) && salt !in held
    requires TimestampInWindow(ts, now, BOOT) && CaughtUp(states[|calls|], now.elapsed) == FirstBucket(held, at)
    ensures states' == states + [FirstBucket(held + {salt}, at)]
    ensures calls' == calls + [Call(Stamped(salt, ts), now, 1)]
    ensures IsRun(WITNESS, states', calls') && VerdictAt(WITNESS, states', calls', |calls|).Accepted?
    ensures forall i: nat | i < |calls| ::
              VerdictAt(WITNESS, states', calls', i) == VerdictAt(WITNESS, states, calls, i)
  {
    WitnessStep(states[|calls|], Stamped(salt, ts), ts, now, held, at);
    states' := states + [FirstBucket(held + {salt}, at)];
    calls' := calls + [Call(Stamped(salt, ts), now, 1)];
  }

  /** Four rotations in one call empty the table. */
  lemma FourTurns(b: set<Salt>) returns (r: ReplaySet)
    ensures r == CaughtUp(ReplaySet([b, {}, {}, {}], 0, Some(1)), 120 * SECOND + 1)
    ensures r == ReplaySet([{}, {}, {}, {}], 0, Some(120 * SECOND + 1))
  {
    var now := 120 * SECOND + 1;
    var r0 := ReplaySet([b, {}, {}, {}], 0, Some(1));
    var r1 := RotateOnce(r0);
    var r2 := RotateOnce(r1);
    var r3 := RotateOnce(r2);
    var r4 := RotateOnce(r3);
    assert r1 == ReplaySet([b, {}, {}, {}], 1, Some(1 + PERIOD));
    assert r2 == ReplaySet([b, {}, {}, {}], 2, Some(1 + 2 * PERIOD));
    assert r3 == ReplaySet([b, {}, {}, {}], 3, Some(1 + 3 * PERIOD));
    assert r4 == ReplaySet([{}, {}, {}, {}], 0, Some(1 + 4 * PERIOD));
    assert Rotated(r0, now) == Rotated(r1, now) == Rotated(r2, now) == Rotated(r3, now) == Rotated(r4, now) == r4;
    r := r4;
  }

  /** Two packets in the first bucket: the start of both witness runs, on either clock. */
  lemma TwoAccepted() returns (states: seq<ReplaySet>, calls: seq<Call>)
    ensures IsRun(WITNESS, states, calls)
    ensures calls == [Call(Stamped(SALT_A, 0), Stripped(1), 1), Call(Stamped(SALT_B, 60), Stripped(30 * SECOND), 1)]
    ensures states[2] == FirstBucket({} + {SALT_A} + {SALT_B}, 1)
    ensures VerdictAt(WITNESS, states, calls, 1).Accepted?
  {
    assert SALT_A[0] != SALT_B[0];
    assert CaughtUp(EMPTY_SET, 1) == FirstBucket({}, 1);
    states, calls := RunExtends([EMPTY_SET], [], SALT_A, 0, Stripped(1), {}, 1);
    states, calls := RunExtends(states, calls, SALT_B, 60, Stripped(30 * SECOND), {} + {SALT_A}, 1);
  }

  /** Both parts of the reading only ever rise here; the wall clock was set back in between. */
  lemma TwiceOnSystemClock() returns (states: seq<ReplaySet>, calls: seq<Call>)
    ensures IsRun(WITNESS, states, calls) && Reads(SystemClock, calls)
    ensures PairsLagAtMost(SystemClock, calls, TOLERANCE + 1)
    ensures forall i, j | 0 <= i < j < |calls| :: calls[i].now.wall <= calls[j].now.wall
    ensures AcceptsTwice(WITNESS, states, calls)
  {
    states, calls := TwoAccepted();
    var turned := FourTurns({} + {SALT_A} + {SALT_B});
    states, calls := RunExtends(states, calls, SALT_B, 60, Instant(91 * SECOND - 1, 120 * SECOND + 1), {}, 120 * SECOND + 1);
    assert VerdictAt(WITNESS, states, calls, 1).Accepted? && calls[1].packet == calls[2].packet;
  }

  /** A third packet turns the buckets. */
  lemma ThreeAccepted() returns (states: seq<ReplaySet>, calls: seq<Call>)
    ensures IsRun(WITNESS, states, calls) && |calls| == 3
    ensures calls[0].now == Stripped(1) && calls[1].now == Stripped(30 * SECOND) && calls[2].now == Stripped(120 * SECOND + 1)
    ensures calls[1].packet == Stamped(SALT_B, 60) && VerdictAt(WITNESS, states, calls, 1).Accepted?
    ensures states[3] == FirstBucket({} + {SALT_C}, 120 * SECOND + 1)
  {
    states, calls := TwoAccepted();
    var turned := FourTurns({} + {SALT_A} + {SALT_B});
    states, calls := RunExtends(states, calls, SALT_C, 120, Stripped(120 * SECOND + 1), {}, 120 * SECOND + 1);
  }

  /** After it the clock steps back and the second packet comes again. */
  lemma TwiceOnStrippedClock() returns (states: seq<ReplaySet>, calls: seq<Call>)
    ensures IsRun(WITNESS, states, calls) && Reads(StrippedClock, calls)
    ensures PairsLagAtMost(StrippedClock, calls, TOLERANCE + 1)
    ensures |calls| == 4 && calls[0].now == Stripped(1) && calls[1].now == Stripped(30 * SECOND)
    ensures calls[2].now == Stripped(120 * SECOND + 1) && calls[3].now == Stripped(91 * SECOND - 1)
    ensures AcceptsTwice(WITNESS, states, calls)
  {
    states, calls := ThreeAccepted();
    assert SALT_B[0] != SALT_C[0];
    states, calls := RunExtends(states, calls, SALT_B, 60, Stripped(91 * SECOND - 1), {} + {SALT_C}, 120 * SECOND + 1);
    assert VerdictAt(WITNESS, states, calls, 1).Accepted? && calls[1].packet == calls[3].packet;
  }

  /** Exactly how far the wall clock may lag, on either clock: 29 seconds and one nanosecond,
      and no more. */
  lemma ToleranceIsExact(kind: ClockKind, lag: int)
    ensures SafeUnderLag(kind, lag) <==> lag <= 29 * SECOND + 1
  {
    if lag <= TOLERANCE {
      forall c: Receiver, states: seq<ReplaySet>, calls: seq<Call> |
        IsRun(c, states, calls) && Reads(kind, calls) && PairsLagAtMost(kind, calls, lag)
        ensures !AcceptsTwice(c, states, calls)
      {
        LagIsPairwise(kind, calls, lag);
        NeverAcceptedTwice(c, states, calls);
      }
    } else if kind.SystemClock? {
      var states, calls := TwiceOnSystemClock();
      assert PairsLagAtMost(kind, calls, lag);
    } else {
      var states, calls := TwiceOnStrippedClock();
      assert PairsLagAtMost(kind, calls, lag);
    }
  }

  // ------------------------------------------------------------ exactness and the boot barrier

  /** The set is exact: a packet is called a replay only if the same salt was recorded by an
      earlier call, so no genuine packet with a new salt is ever dropped as one. */
  lemma {:induction false} HeldWasRecorded(c: Receiver, states: seq<ReplaySet>, calls: seq<Call>, i: nat, salt: Salt)
      returns (k: nat)
    requires IsRun(c, states, calls) && i < |states|
    requires Holds(states[i], salt)
    ensures k < i && calls[k].packet.Packet? && calls[k].packet.salt == salt
    ensures !VerdictAt(c, states, calls, k).Replayed?
  {
    var j := i - 1;
    var call := calls[j];
    if call.packet.Packet? && call.packet.salt == salt && !VerdictAt(c, states, calls, j).Replayed? {
      k := j;
    } else {
      HeldOrRecorded(c, states[j], call.packet, call.now, call.outLen, salt);
      k := HeldWasRecorded(c, states, calls, j, salt);
    }
  }

  lemma CatchingUpForgets(r: ReplaySet, now: int, salt: Salt)
    requires Shaped(r) && Holds(CaughtUp(r, now), salt)
    ensures Holds(r, salt)
  {
    RotationForgets(if r.lastRotate.None? then r.(lastRotate := Some(now)) else r, now, salt);
  }

  /** A call adds no salt but its own packet's, and that only when it is new. */
  lemma HeldOrRecorded(c: Receiver, r: ReplaySet, p: Packet, now: Instant, outLen: nat, salt: Salt)
    requires Shaped(r) && Holds(Deobfuscate(c, r, p, now, outLen).1, salt)
    ensures Holds(r, salt) || (p.Packet? && p.salt == salt && !Deobfuscate(c, r, p, now, outLen).0.Replayed?)
  {
    var q := Deobfuscate(c, r, p, now, outLen).1;
    if q != r && p.salt != salt {
      if !Holds(CaughtUp(r, now.elapsed), salt) {
        AddsOnlyItsOwn(CaughtUp(r, now.elapsed), p.salt, salt);
      }
      CatchingUpForgets(r, now.elapsed, salt);
    } else if q != r && Deobfuscate(c, r, p, now, outLen).0.Replayed? {
      CatchingUpForgets(r, now.elapsed, salt);
    }
  }

  lemma AddsOnlyItsOwn(r: ReplaySet, own: Salt, salt: Salt)
    requires Shaped(r) && own != salt && Holds(Added(r, own), salt)
    ensures Holds(r, salt)
  {
    var i :| 0 <= i < |Added(r, own).buckets| && salt in Added(r, own).buckets[i];
    assert salt in r.buckets[i];
  }

  lemma {:induction false} RotationForgets(r: ReplaySet, now: int, salt: Salt)
    requires Shaped(r) && r.lastRotate.Some?
    requires Holds(Rotated(r, now), salt)
    ensures Holds(r, salt)
    decreases now - r.lastRotate.value
  {
    if now - r.lastRotate.value >= PERIOD {
      RotationForgets(RotateOnce(r), now, salt);
      var q := RotateOnce(r);
      var i :| 0 <= i < |q.buckets| && salt in q.buckets[i];
      assert salt in r.buckets[i];
    }
  }

  lemma ReplayVerdictIsExact(c: Receiver, states: seq<ReplaySet>, calls: seq<Call>, i: nat) returns (k: nat)
    requires IsRun(c, states, calls) && i < |calls|
    requires VerdictAt(c, states, calls, i).Replayed?
    ensures k < i && calls[k].packet.Packet? && calls[k].packet.salt == calls[i].packet.salt
    ensures !VerdictAt(c, states, calls, k).Replayed?
  {
    var r, call := states[i], calls[i];
    CatchingUpForgets(r, call.now.elapsed, call.packet.salt);
    k := HeldWasRecorded(c, states, calls, i, call.packet.salt);
  }

  // ------------------------------------------------------------ what is accepted

  /** The stamp is within thirty seconds of the wall clock, and the process has either been up
      for thirty seconds or started no later than the second of the stamp. */
  predicate Timely(stamp: int, now: Instant, boot: Instant) {
    && Unix(now.wall) - 30 <= stamp <= Unix(now.wall) + 30
    && (now.elapsed - boot.elapsed >= 30 * SECOND || stamp >= Unix(boot.wall))
  }

  lemma WindowIsExact(stamp: int, now: Instant, boot: Instant)
    ensures TimestampInWindow(stamp, now, boot) <==> Timely(stamp, now, boot)
  {
  }

  /** A packet sent by one role comes through at the other, at any call of any run: its payload
      intact exactly when it is timely, if no earlier call carried its salt and there is room. */
  lemma RoundTrip(root: seq<byte>, role: Role, payload: seq<byte>, salt: Salt, sent: Instant, boot: Instant,
                  states: seq<ReplaySet>, calls: seq<Call>, i: nat)
    requires |payload| > 0 && 0 <= Unix(sent.wall) < 0x1_0000_0000
    requires var c := Receiver(KeysFor(root, Opposite(role)).recv, boot);
             IsRun(c, states, calls) && i < |calls|
    requires Obfuscate(payload, salt, KeysFor(root, role).send, sent, |payload| + 32) == Some(calls[i].packet)
    requires forall k | 0 <= k < i && calls[k].packet.Packet? :: calls[k].packet.salt != salt
    ensures var stamp, now := Unix(sent.wall), calls[i].now;
            VerdictAt(Receiver(KeysFor(root, Opposite(role)).recv, boot), states, calls, i)
            == if !(&& Unix(now.wall) - 30 <= stamp <= Unix(now.wall) + 30
                    && (now.elapsed - boot.elapsed >= 30 * SECOND || stamp >= Unix(boot.wall))) then Skewed
               else if calls[i].outLen < |payload| then Malformed
               else Accepted(payload)
  {
    var c := Receiver(KeysFor(root, Opposite(role)).recv, boot);
    SentPacket(root, role, payload, salt, sent, |payload| + 32);
    StampedPlaintext(payload, Unix(sent.wall));
    WindowIsExact(Unix(sent.wall), calls[i].now, boot);
    NewSaltIsNotHeld(c, states, calls, i, salt);
  }

  lemma NewSaltIsNotHeld(c: Receiver, states: seq<ReplaySet>, calls: seq<Call>, i: nat, salt: Salt)
    requires IsRun(c, states, calls) && i < |calls|
    requires forall k | 0 <= k < i && calls[k].packet.Packet? :: calls[k].packet.salt != salt
    ensures !Holds(CaughtUp(states[i], calls[i].now.elapsed), salt)
  {
    if Holds(CaughtUp(states[i], calls[i].now.elapsed), salt) {
      CatchingUpForgets(states[i], calls[i].now.elapsed, salt);
      var k := HeldWasRecorded(c, states, calls, i, salt);
      assert false;
    }
  }

  /** Whatever is accepted was sealed by the receiver's key with nothing else bound to it, at
      least a byte and a timely stamp, and comes out as it was sealed. */
  lemma AcceptedWasSealed(c: Receiver, r: ReplaySet, p: Packet, now: Instant, outLen: nat)
    requires Shaped(r) && Deobfuscate(c, r, p, now, outLen).0.Accepted?
    ensures p.Packet? && p.box.Sealed? && p.box.key == c.key && p.box.nonce == p.salt && p.box.aad == []
    ensures var payload := Deobfuscate(c, r, p, now, outLen).0.payload;
            && 1 <= |payload| <= outLen
            && exists ts: u32 :: p.box.plain == payload + PutU32(ts) && Timely(ts, now, c.boot)
  {
    var plain := p.box.plain;
    var tail := plain[|plain| - TS_LEN..];
    PutU32Inverse(tail);
    assert plain == Payload(plain) + tail;
    WindowIsExact(Stamp(plain), now, c.boot);
  }

  /** While the wall clock keeps up, a copy of an accepted packet that is still timely is called
      a replay. */
  lemma CopyIsReplayed(c: Receiver, states: seq<ReplaySet>, calls: seq<Call>, i: nat, j: nat)
    requires IsRun(c, states, calls) && LagsAtMost(calls, TOLERANCE)
    requires i < j < |calls| && calls[i].packet == calls[j].packet
    requires VerdictAt(c, states, calls, i).Accepted?
    requires Timely(Stamp(calls[i].packet.box.plain), calls[j].now, c.boot)
    ensures VerdictAt(c, states, calls, j) == Replayed
  {
    var p := calls[i].packet;
    WindowIsExact(Stamp(p.box.plain), calls[j].now, c.boot);
    if !Holds(CaughtUp(states[j], calls[j].now.elapsed), p.salt) {
      var k := ForgottenNeedsTime(c, states, calls, i, j);
      assert false;
    }
  }

  lemma UnixMonotone(a: int, b: int)
    requires a <= b
    ensures Unix(a) <= Unix(b)
  {
  }

  /** An accepted packet is stamped in the second the process started or later, less the time
      by which the wall clock lags behind what has passed since. */
  lemma NothingFromBeforeBoot(c: Receiver, r: ReplaySet, p: Packet, now: Instant, outLen: nat)
    requires Shaped(r)
    requires Deobfuscate(c, r, p, now, outLen).0.Accepted?
    ensures Stamp(p.box.plain) >= Unix(c.boot.wall - Max(0, Lag(c.boot, now)))
  {
    var earliest := c.boot.wall - Max(0, Lag(c.boot, now));
    UnixMonotone(earliest, c.boot.wall);
    if now.elapsed - c.boot.elapsed >= MAX_SKEW {
      UnixMonotone(earliest, now.wall - MAX_SKEW);
    }
  }

  /** A reading that lets a stamp from before the start through: thirty seconds on, on a wall
      clock set back no further than the stamp needs. */
  lemma StampPassesBarrier(boot: Instant, ts: u32, lag: nat) returns (now: Instant)
    requires ts >= Unix(boot.wall - lag)
    ensures TimestampInWindow(ts, now, boot)
    ensures Lag(boot, now) <= lag && boot.elapsed <= now.elapsed
    ensures ts >= Unix(boot.wall) ==> now.wall >= boot.wall
  {
    if ts >= Unix(boot.wall) {
      var later := Max(boot.wall, ts * SECOND);
      now := Instant(later, boot.elapsed + (later - boot.wall));
    } else {
      now := Instant(Max(ts * SECOND, boot.wall - lag) + MAX_SKEW, boot.elapsed + MAX_SKEW);
    }
  }

  /** What the barrier keeps out: on a wall clock that lags the time since the start by at most
      lag, a stamp can pass exactly when it is not before the second of the start less the lag. */
  lemma BarrierIsExact(boot: Instant, ts: u32, lag: nat)
    ensures (exists now: Instant :: Lag(boot, now) <= lag && TimestampInWindow(ts, now, boot))
            <==> ts >= Unix(boot.wall - lag)
  {
    if ts >= Unix(boot.wall - lag) {
      var now := StampPassesBarrier(boot, ts, lag);
    } else {
      forall now: Instant | Lag(boot, now) <= lag
        ensures !TimestampInWindow(ts, now, boot)
      {
        UnixMonotone(boot.wall - lag, boot.wall);
        if now.elapsed - boot.elapsed >= MAX_SKEW {
          UnixMonotone(boot.wall - lag, now.wall - MAX_SKEW);
        }
      }
    }
  }

  // ------------------------------------------------------------ restarts

  /** The packet is accepted at that reading by a call of some run. */
  ghost predicate Accepts(c: Receiver, p: Packet, now: Instant) {
    exists states: seq<ReplaySet>, calls: seq<Call>, i: nat | IsRun(c, states, calls) && i < |calls| ::
      calls[i].packet == p && calls[i].now == now && VerdictAt(c, states, calls, i).Accepted?
  }

  /** No packet that a process accepts at the reading before, in any run, is accepted in any run
      of a process with the same key that started at boot, at any reading whose wall clock lags
      the time since that start by at most lag. */
  ghost predicate SafeAcrossRestart(before: Instant, boot: Instant, lag: nat) {
    forall key: Key, earlier: Instant, p: Packet, after: Instant ::
      Accepts(Receiver(key, earlier), p, before) && Lag(boot, after) <= lag
      ==> !Accepts(Receiver(key, boot), p, after)
  }

  lemma AcceptedStampIsNear(c: Receiver, p: Packet, now: Instant)
    requires Accepts(c, p, now)
    ensures p.Packet? && p.box.Sealed? && |p.box.plain| > TS_LEN
    ensures Stamp(p.box.plain) <= Unix(now.wall) + SKEW_SECONDS
    ensures Stamp(p.box.plain) >= Unix(c.boot.wall - Max(0, Lag(c.boot, now)))
  {
    var states: seq<ReplaySet>, calls: seq<Call>, i: nat :| IsRun(c, states, calls) && i < |calls| && calls[i].packet == p
      && calls[i].now == now && VerdictAt(c, states, calls, i).Accepted?;
    NothingFromBeforeBoot(c, states[i], p, now, calls[i].outLen);
  }

  /** A process that has just started accepts whatever is in its window. */
  lemma FirstCallAccepts(boot: Instant, salt: Salt, ts: u32, now: Instant)
    requires TimestampInWindow(ts, now, boot)
    ensures Accepts(Receiver(RECV_KEY, boot), Stamped(salt, ts), now)
  {
    var c, p := Receiver(RECV_KEY, boot), Stamped(salt, ts);
    StampedPlaintext([0], ts);
    OpensTo(c, EMPTY_SET, salt, [0] + PutU32(ts), now, 1);
    assert CaughtUp(EMPTY_SET, now.elapsed) == EMPTY_SET.(lastRotate := Some(now.elapsed));
    var states, calls := [EMPTY_SET, Deobfuscate(c, EMPTY_SET, p, now, 1).1], [Call(p, now, 1)];
    assert IsRun(c, states, calls) && VerdictAt(c, states, calls, 0).Accepted?;
  }

  /** A packet stamped by a clock thirty seconds ahead: accepted, and accepted again by a
      process that started no more than thirty seconds later, or whose wall clock has since
      been set back to then. */
  lemma AcceptedAcrossRestart(before: Instant, boot: Instant, lag: nat) returns (p: Packet, after: Instant)
    requires 0 <= Unix(before.wall) && Unix(before.wall) + SKEW_SECONDS < 0x1_0000_0000
    requires Unix(boot.wall - lag) <= Unix(before.wall) + SKEW_SECONDS
    ensures Accepts(Receiver(RECV_KEY, before), p, before)
    ensures Accepts(Receiver(RECV_KEY, boot), p, after)
    ensures Lag(boot, after) <= lag && boot.elapsed <= after.elapsed
  {
    var ts: u32 := Unix(before.wall) + SKEW_SECONDS;
    p := Stamped(SALT_A, ts);
    after := StampPassesBarrier(boot, ts, lag);
    FirstCallAccepts(before, SALT_A, ts, before);
    FirstCallAccepts(boot, SALT_A, ts, after);
  }

  /** A restart loses no protection exactly when it comes, by the wall clock and less the lag
      that clock may come to have afterwards, more than thirty seconds after the acceptance. */
  lemma RestartIsExact(before: Instant, boot: Instant, lag: nat)
    requires 0 <= Unix(before.wall) && Unix(before.wall) + SKEW_SECONDS < 0x1_0000_0000
    ensures SafeAcrossRestart(before, boot, lag) <==> Unix(boot.wall - lag) > Unix(before.wall) + SKEW_SECONDS
  {
    if Unix(boot.wall - lag) > Unix(before.wall) + SKEW_SECONDS {
      forall key: Key, earlier: Instant, p: Packet, after: Instant |
        Accepts(Receiver(key, earlier), p, before) && Lag(boot, after) <= lag
        ensures !Accepts(Receiver(key, boot), p, after)
      {
        AcceptedStampIsNear(Receiver(key, earlier), p, before);
        if Accepts(Receiver(key, boot), p, after) {
          AcceptedStampIsNear(Receiver(key, boot), p, after);
          UnixMonotone(boot.wall - lag, boot.wall - Max(0, Lag(boot, after)));
          assert false;
        }
      }
    } else {
      var p, after := AcceptedAcrossRestart(before, boot, lag);
    }
  }

  /** Started at 1000 s and read 31 seconds later, on a wall clock set back to 900 s: the
      barrier has lifted, and a packet stamped 900 s, from before the start, is accepted. */
  lemma SetBackLiftsBarrier()
    ensures Accepts(Receiver(RECV_KEY, Instant(1000 * SECOND, 0)), Stamped(SALT_A, 900), Instant(900 * SECOND, 31 * SECOND))
  {
    FirstCallAccepts(Instant(1000 * SECOND, 0), SALT_A, 900, Instant(900 * SECOND, 31 * SECOND));
  }
}
