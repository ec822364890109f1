/** The disco demultiplexer (extras/realm/disco_conn.go): sessions come and go, each owning
    three epochs of tags in one index over all of them, and each inbound datagram is routed
    by one lookup. The index is updated incrementally and rebuilt when the epoch turns; it
    is proved to stay exactly the relation it stands for. */
module DiscoConn {
  import opened Clock
  import opened Net
  import opened Results
  import opened DiscoCodec
  import opened DiscoReplay

  datatype AddError = InvalidSession | ConnClosed

  datatype Event = Event(from: AddrPort, at: int, packet: Packet)

  class Session {
    const id: string
    const keys: Keys
    const capacity: nat
    var peer: AddrPort
    var tags: seq<Tag>
    var events: seq<Event>
    var window: Window
    // Every sequence number this session has accepted.
    ghost var accepted: set<seqno>

    constructor (id: string, keys: Keys, peer: AddrPort, capacity: nat)
      ensures this.id == id && this.keys == keys && this.peer == peer && this.capacity == capacity
      ensures tags == [] && events == [] && accepted == {} && Represents(window, accepted)
    {
      this.id, this.keys, this.peer, this.capacity := id, keys, peer, capacity;
      tags, events := [], [];
      window, accepted := NEW_WINDOW, {};
    }

    method AcceptSeq(q: seqno) returns (ok: bool)
      requires Represents(window, accepted)
      modifies this`window, this`accepted
      ensures Represents(window, accepted)
      ensures ok <==> Admits(old(accepted), q)
      ensures accepted == if ok then old(accepted) + {q} else old(accepted)
    {
      ok, window := Accept(window, q, accepted);
      if ok {
        accepted := accepted + {q};
      }
    }
  }

  // ------------------------------------------------------------ indexes

  /** An index holds exactly the pairs of a relation, and no empty buckets. */
  ghost predicate Indexes<K(!new)>(index: map<K, seq<Session>>, rel: set<(K, Session)>) {
    && (forall k | k in index :: index[k] != [] && forall s | s in index[k] :: (k, s) in rel)
    && (forall p | p in rel :: p.0 in index && p.1 in index[p.0])
  }

  function Bucket<K>(index: map<K, seq<Session>>, k: K): seq<Session> {
    if k in index then index[k] else []
  }

  /** The tag relation: every session with each of its tags for the epoch. */
  ghost function TagPairs(kdf: Kdf, live: set<Session>, epoch: nat): set<(Tag, Session)> {
    set s, t | s in live && t in EpochTags(kdf, s.keys, epoch) :: (t, s)
  }

  ghost function OwnPairs(s: Session, tags: seq<Tag>): set<(Tag, Session)> {
    set t | t in tags :: (t, s)
  }

  ghost function PeerPairs(live: set<Session>): set<(AddrPort, Session)>
    reads live`peer
  {
    set s | s in live :: (s.peer, s)
  }

  /** A bucket without one session, in a new slice: what is already published is never
      written to. */
  function Without(bucket: seq<Session>, s: Session): (r: seq<Session>)
    ensures forall x | x in r :: x in bucket && x != s
    ensures forall x | x in bucket && x != s :: x in r
  {
    if bucket == [] then []
    else (if bucket[0] != s then [bucket[0]] else []) + Without(bucket[1..], s)
  }

  function Appended<K>(index: map<K, seq<Session>>, k: K, s: Session): map<K, seq<Session>> {
    index[k := Bucket(index, k) + [s]]
  }

  function Dropped<K>(index: map<K, seq<Session>>, k: K, s: Session): map<K, seq<Session>> {
    var next := Without(Bucket(index, k), s);
    if next == [] then index - {k} else index[k := next]
  }

  lemma AppendedIndexes<K(!new)>(index: map<K, seq<Session>>, rel: set<(K, Session)>, k: K, s: Session)
    requires Indexes(index, rel)
    ensures Indexes(Appended(index, k, s), rel + {(k, s)})
  {
  }

  lemma DroppedIndexes<K(!new)>(index: map<K, seq<Session>>, rel: set<(K, Session)>, k: K, s: Session)
    requires Indexes(index, rel)
    ensures Indexes(Dropped(index, k, s), rel - {(k, s)})
  {
  }

  predicate Distinct(bucket: seq<Session>) {
    forall i, j | 0 <= i < j < |bucket| :: bucket[i] != bucket[j]
  }

  /** No bucket lists a session twice. */
  ghost predicate OnceEach<K(!new)>(index: map<K, seq<Session>>) {
    forall k | k in index :: Distinct(index[k])
  }

  lemma {:induction false} WithoutOnce(bucket: seq<Session>, s: Session)
    requires Distinct(bucket)
    ensures Distinct(Without(bucket, s))
  {
    if bucket != [] {
      WithoutOnce(bucket[1..], s);
      assert bucket[0] !in Without(bucket[1..], s);
    }
  }

  lemma DroppedOnce<K(!new)>(index: map<K, seq<Session>>, k: K, s: Session)
    requires OnceEach(index)
    ensures OnceEach(Dropped(index, k, s))
  {
    WithoutOnce(Bucket(index, k), s);
  }

  lemma AppendedOnce<K(!new)>(index: map<K, seq<Session>>, k: K, s: Session)
    requires OnceEach(index) && s !in Bucket(index, k)
    ensures OnceEach(Appended(index, k, s))
  {
  }

  /** One session under each of its tags. */
  method AppendAll(index: map<Tag, seq<Session>>, tags: seq<Tag>, s: Session, ghost rel: set<(Tag, Session)>)
      returns (r: map<Tag, seq<Session>>)
    requires Indexes(index, rel)
    ensures Indexes(r, rel + OwnPairs(s, tags))
  {
    r := index;
    assert rel + OwnPairs(s, tags[..0]) == rel;
    for i := 0 to |tags|
      invariant Indexes(r, rel + OwnPairs(s, tags[..i]))
    {
      AppendedIndexes(r, rel + OwnPairs(s, tags[..i]), tags[i], s);
      r := Appended(r, tags[i], s);
      assert rel + OwnPairs(s, tags[..i + 1]) == rel + OwnPairs(s, tags[..i]) + {(tags[i], s)};
    }
    assert tags[..|tags|] == tags;
  }

  // ------------------------------------------------------------ the conn

  datatype Verdict =
    | ToQuic
    | Delivered(s: Session, packet: Packet)
    | ReplayDropped(s: Session)
    | DecodeFailed(s: Session, error: Error)

  class Conn {
    const kdf: Kdf
    const eventBuffer: nat
    var sessions: map<string, Session>
    var byTag: map<Tag, seq<Session>>
    var byPeer: map<AddrPort, seq<Session>>
    var epoch: nat
    var closed: bool

    ghost function Live(): set<Session>
      reads this`sessions
    {
      sessions.Values
    }

    ghost predicate KeyedById()
      reads this`sessions, this`closed
    {
      && (forall id | id in sessions :: sessions[id].id == id)
      && (closed ==> sessions == map[])
    }

    ghost predicate TagsValid()
      reads this`sessions, this`byTag, this`epoch, Live()`tags
    {
      && (forall s | s in Live() :: s.tags == EpochTags(kdf, s.keys, epoch))
      && Indexes(byTag, TagPairs(kdf, Live(), epoch))
    }

    ghost predicate PeersValid()
      reads this`sessions, this`byPeer, Live()`peer
    {
      Indexes(byPeer, PeerPairs(Live())) && OnceEach(byPeer)
    }

    ghost predicate WindowsValid()
      reads this`sessions, Live()`window, Live()`accepted
    {
      forall s | s in Live() :: Represents(s.window, s.accepted)
    }

    ghost predicate Valid()
      reads this`sessions, this`closed, this`byTag, this`byPeer, this`epoch, Live()`tags, Live()`peer, Live()`window, Live()`accepted
    {
      KeyedById() && TagsValid() && PeersValid() && WindowsValid()
    }

    constructor (kdf: Kdf, eventBuffer: nat)
      ensures Valid() && sessions == map[] && !closed && this.kdf == kdf
    {
      this.kdf, this.eventBuffer := kdf, eventBuffer;
      sessions, byTag, byPeer, epoch, closed := map[], map[], map[], 0, false;
    }

    /** dropTagsLocked. */
    method DropTags(s: Session, ghost rel: set<(Tag, Session)>)
      requires Indexes(byTag, rel)
      modifies this`byTag, s`tags
      ensures Indexes(byTag, rel - OwnPairs(s, old(s.tags)))
      ensures s.tags == []
    {
      for i := 0 to |s.tags|
        invariant s.tags == old(s.tags)
        invariant Indexes(byTag, rel - OwnPairs(s, s.tags[..i]))
      {
        DroppedIndexes(byTag, rel - OwnPairs(s, s.tags[..i]), s.tags[i], s);
        byTag := Dropped(byTag, s.tags[i], s);
        assert rel - OwnPairs(s, s.tags[..i + 1]) == rel - OwnPairs(s, s.tags[..i]) - {(s.tags[i], s)};
      }
      assert s.tags[..|s.tags|] == s.tags;
      s.tags := [];
    }

    /** rebuildTagsLocked. */
    method RebuildTags(now: int)
      requires KeyedById()
      modifies this`byTag, this`epoch, Live()`tags
      ensures epoch == EpochOf(now) && TagsValid()
    {
      var rebuilt: map<Tag, seq<Session>> := map[];
      var todo := sessions.Keys;
      ghost var e := EpochOf(now);
      ghost var done: set<Session> := {};
      while todo != {}
        invariant todo <= sessions.Keys
        invariant done == set id | id in sessions && id !in todo :: sessions[id]
        invariant Indexes(rebuilt, TagPairs(kdf, done, e))
        invariant forall s | s in done :: s.tags == EpochTags(kdf, s.keys, e)
        decreases todo
      {
        var id :| id in todo;
        var s := sessions[id];
        var tags := RecvTags(kdf, s.keys, now);
        s.tags := tags;
        ghost var rel := TagPairs(kdf, done, e);
        rebuilt := AppendAll(rebuilt, tags, s, rel);
        todo := todo - {id};
        done := done + {s};
        assert TagPairs(kdf, done, e) == rel + OwnPairs(s, tags);
      }
      assert done == Live();
      byTag := rebuilt;
      epoch := EpochOf(now);
    }

    /** addTagsLocked, for a session just put into the table. */
    method AddTags(s: Session, now: int)
      requires s in Live() && KeyedById()
      requires Indexes(byTag, TagPairs(kdf, Live() - {s}, epoch))
      requires forall r | r in Live() - {s} :: r.tags == EpochTags(kdf, r.keys, epoch)
      modifies this`byTag, this`epoch, Live()`tags
      ensures epoch == EpochOf(now) && TagsValid()
    {
      if EpochOf(now) != epoch {
        RebuildTags(now);
        return;
      }
      var tags := RecvTags(kdf, s.keys, now);
      s.tags := tags;
      ghost var rel := TagPairs(kdf, Live() - {s}, epoch);
      byTag := AppendAll(byTag, tags, s, rel);
      assert TagPairs(kdf, Live(), epoch) == rel + OwnPairs(s, tags);
    }

    /** refreshTags: the rebuild the ticker triggers when the epoch has turned. */
    method RefreshTags(now: int)
      requires Valid()
      modifies this`byTag, this`epoch, Live()`tags
      ensures Valid()
      ensures sessions != map[] ==> epoch == EpochOf(now)
    {
      if EpochOf(now) == epoch || |sessions| == 0 {
        return;
      }
      ghost var pairs := PeerPairs(Live());
      RebuildTags(now);
      assert PeerPairs(Live()) == pairs;
    }

    /** AddDiscoSession. */
    method AddSession(id: string, keys: Keys, peer: AddrPort, now: int) returns (r: Result<Session, AddError>)
      requires Valid()
      modifies this, Live()`tags
      ensures Valid() && closed == old(closed)
      ensures r.Ok? <==> id != "" && !peer.addr.NoAddr? && !old(closed) && id !in old(sessions)
      ensures r.Err? ==> sessions == old(sessions) && epoch == old(epoch)
      ensures r.Err? ==> (r.error == ConnClosed <==> id != "" && !peer.addr.NoAddr? && old(closed))
      ensures r.Ok? ==>
                && fresh(r.value) && r.value.id == id && r.value.keys == keys && r.value.peer == Normalised(peer)
                && sessions == old(sessions)[id := r.value]
                && epoch == EpochOf(now)
                && r.value.accepted == {}
    {
      var normalised := Normalised(peer);
      if id == "" || normalised.addr.NoAddr? {
        return Err(InvalidSession);
      }
      var s := new Session(id, keys, normalised, eventBuffer);
      if closed {
        return Err(ConnClosed);
      }
      if id in sessions {
        return Err(InvalidSession);
      }
      Admit(s, now);
      return Ok(s);
    }

    /** A session that belongs to no table yet goes into all three. */
    method Admit(s: Session, now: int)
      requires Valid() && !closed && s.id !in sessions
      requires s !in Live() && Represents(s.window, s.accepted)
      modifies this, Live()`tags, s`tags
      ensures Valid() && closed == old(closed)
      ensures sessions == old(sessions)[s.id := s] && epoch == EpochOf(now)
    {
      Enlist(s);
      assert Live() - {s} == old(Live());
      AddTags(s, now);
    }

    /** All of an admission but the tags. */
    method Enlist(s: Session)
      requires KeyedById() && PeersValid() && WindowsValid() && !closed && s.id !in sessions
      requires s !in Live() && Represents(s.window, s.accepted)
      modifies this`sessions, this`byPeer
      ensures KeyedById() && PeersValid() && WindowsValid()
      ensures sessions == old(sessions)[s.id := s] && Live() == old(Live()) + {s}
    {
      AdmitPeer(s);
      InsertedValues(sessions, s.id, s);
      sessions := sessions[s.id := s];
    }

    method AdmitPeer(s: Session)
      requires PeersValid() && s !in Live()
      modifies this`byPeer
      ensures Indexes(byPeer, PeerPairs(Live() + {s})) && OnceEach(byPeer)
    {
      AppendedIndexes(byPeer, PeerPairs(Live()), s.peer, s);
      AppendedOnce(byPeer, s.peer, s);
      byPeer := Appended(byPeer, s.peer, s);
      assert PeerPairs(Live() + {s}) == PeerPairs(Live()) + {(s.peer, s)};
    }

    /** SetDiscoSessionPeer. */
    method SetSessionPeer(id: string, peer: AddrPort) returns (ok: bool)
      requires Valid()
      modifies this`byPeer, Live()`peer
      ensures Valid()
      ensures ok <==> !peer.addr.NoAddr? && id in sessions
      ensures forall i | i in sessions ::
                sessions[i].peer == if ok && i == id then Normalised(peer) else old(sessions[i].peer)
    {
      var normalised := Normalised(peer);
      if normalised.addr.NoAddr? || id !in sessions {
        return false;
      }
      var s := sessions[id];
      if s.peer == normalised {
        return true;
      }
      MovePeer(s, normalised);
      return true;
    }

    method MovePeer(s: Session, peer: AddrPort)
      requires PeersValid() && s in Live() && s.peer != peer
      modifies this`byPeer, s`peer
      ensures PeersValid() && s.peer == peer
    {
      ghost var rel := PeerPairs(Live());
      ghost var rest := rel - {(s.peer, s)};
      DropPeer(s, rel);
      assert forall p | p in rest :: p.1 != s;
      s.peer := peer;
      AppendedIndexes(byPeer, rest, peer, s);
      AppendedOnce(byPeer, peer, s);
      byPeer := Appended(byPeer, peer, s);
      assert PeerPairs(Live()) == rest + {(peer, s)};
    }

    /** dropPeerLocked. */
    method DropPeer(s: Session, ghost rel: set<(AddrPort, Session)>)
      requires Indexes(byPeer, rel) && OnceEach(byPeer)
      modifies this`byPeer
      ensures Indexes(byPeer, rel - {(s.peer, s)}) && OnceEach(byPeer)
    {
      DroppedIndexes(byPeer, rel, s.peer, s);
      DroppedOnce(byPeer, s.peer, s);
      byPeer := Dropped(byPeer, s.peer, s);
    }

    /** RemoveDiscoSession. */
    method RemoveSession(id: string)
      requires Valid()
      modifies this`sessions, this`byTag, this`byPeer, Live()`tags
      ensures Valid()
      ensures sessions == old(sessions) - {id}
    {
      if id !in sessions {
        return;
      }
      var s := sessions[id];
      ghost var before := Live();
      Delist(s);
      ghost var pairs := PeerPairs(Live());
      RemoveTags(s, before);
      assert PeerPairs(Live()) == pairs;
    }

    /** All of a removal but the tags. */
    method Delist(s: Session)
      requires KeyedById() && PeersValid() && WindowsValid() && s in Live()
      modifies this`sessions, this`byPeer
      ensures KeyedById() && PeersValid() && WindowsValid()
      ensures sessions == old(sessions) - {s.id} && Live() == old(Live()) - {s}
    {
      ghost var before := Live();
      RemovedValues(sessions, s);
      sessions := sessions - {s.id};
      RemovePeer(s, before);
    }

    method RemoveTags(s: Session, ghost before: set<Session>)
      requires Live() == before - {s}
      requires s.tags == EpochTags(kdf, s.keys, epoch) && Indexes(byTag, TagPairs(kdf, before, epoch))
      requires forall r | r in Live() :: r.tags == EpochTags(kdf, r.keys, epoch)
      modifies this`byTag, s`tags
      ensures TagsValid()
    {
      DropTags(s, TagPairs(kdf, before, epoch));
      assert TagPairs(kdf, Live(), epoch)
          == TagPairs(kdf, before, epoch) - OwnPairs(s, EpochTags(kdf, s.keys, epoch));
    }

    method RemovePeer(s: Session, ghost before: set<Session>)
      requires Live() == before - {s} && s in before
      requires Indexes(byPeer, PeerPairs(before)) && OnceEach(byPeer)
      modifies this`byPeer
      ensures PeersValid()
    {
      DropPeer(s, PeerPairs(before));
      assert PeerPairs(Live()) == PeerPairs(before) - {(s.peer, s)};
    }

    method Close()
      requires Valid()
      modifies this
      ensures Valid() && closed && sessions == map[] && byTag == map[] && byPeer == map[]
    {
      closed := true;
      sessions, byTag, byPeer := map[], map[], map[];
    }

    /** The sessions a datagram QUIC sends to an address is sampled for. */
    method SampledSessions(to: AddrPort) returns (r: seq<Session>)
      requires Valid()
      ensures forall s | s in Live() :: s in r <==> s.peer == to
      ensures forall s | s in r :: s in Live()
      ensures forall i, j | 0 <= i < j < |r| :: r[i] != r[j]
    {
      r := Bucket(byPeer, to);
      assert forall s | s in Live() && s.peer == to :: (s.peer, s) in PeerPairs(Live());
    }

    /** The stateless part of dispatch: the first session in the tag's bucket whose key
        opens the datagram. */
    method Route(d: Datagram, now: int) returns (s: Option<Session>)
      requires TagsValid() && d.Datagram?
      ensures s.Some? <==> Claimed(kdf, Live(), epoch, d, now)
      ensures s.Some? ==> s.value in Live() && Claims(kdf, s.value, epoch, d, now)
    {
      var bucket := Bucket(byTag, d.tag);
      ghost var rel := TagPairs(kdf, Live(), epoch);
      assert forall r | r in Live() && d.tag in EpochTags(kdf, r.keys, epoch) :: (d.tag, r) in rel;
      for i := 0 to |bucket|
        invariant forall k | 0 <= k < i :: DecodeBody(d, bucket[k].keys, now) == Err(AuthFailed)
      {
        if DecodeBody(d, bucket[i].keys, now) != Err(AuthFailed) {
          assert (d.tag, bucket[i]) in rel && Claims(kdf, bucket[i], epoch, d, now);
          return Some(bucket[i]);
        }
      }
      return None;
    }

    /** dispatch: what becomes of one inbound datagram. */
    method Dispatch(d: Datagram, from: Option<AddrPort>, now: int) returns (v: Verdict)
      requires Valid()
      modifies Live()`window, Live()`accepted, Live()`events
      ensures Valid()
      ensures v != ToQuic <==> from.Some? && SizeInRange(d) && d.Datagram? && Claimed(kdf, Live(), epoch, d, now)
      ensures v != ToQuic ==>
                && v.s in Live() && Claims(kdf, v.s, epoch, d, now)
                && v == Judged(v.s, old(v.s.accepted), DecodeBody(d, v.s.keys, now))
      ensures v.Delivered? ==>
                && v.packet.header.seqno != 0 && v.packet.header.seqno !in old(v.s.accepted)
                && -30 * SECOND <= now - v.packet.header.ts <= 30 * SECOND
                && d.box.Sealed? && d.box.key == v.s.keys.open
      ensures forall s | s in Live() ::
                if v.Delivered? && v.s == s then
                  && s.accepted == old(s.accepted) + {v.packet.header.seqno}
                  && s.events == (if |old(s.events)| < s.capacity
                                  then old(s.events) + [Event(from.value, now, v.packet)] else old(s.events))
                else s.accepted == old(s.accepted) && s.events == old(s.events)
    {
      if !SizeInRange(d) || d.Runt? || from.None? {
        return ToQuic;
      }
      var r := Route(d, now);
      if r.None? {
        return ToQuic;
      }
      v := Consume(r.value, d, from.value, now);
      if v.Delivered? {
        DecodedWasSealed(d, v.s.keys, now);
      }
    }

    /** The part of dispatch for a datagram a session claims. */
    method Consume(s: Session, d: Datagram, from: AddrPort, now: int) returns (v: Verdict)
      requires Valid() && s in Live() && d.Datagram? && Claims(kdf, s, epoch, d, now)
      modifies s`window, s`accepted, s`events
      ensures Valid()
      ensures v != ToQuic && v.s == s && v == Judged(s, old(s.accepted), DecodeBody(d, s.keys, now))
      ensures s.accepted == if v.Delivered? then old(s.accepted) + {v.packet.header.seqno} else old(s.accepted)
      ensures s.events == if v.Delivered? && |old(s.events)| < s.capacity
                          then old(s.events) + [Event(from, now, v.packet)] else old(s.events)
    {
      v := Deliver(s, DecodeBody(d, s.keys, now), from, now);
      assert TagsValid() && PeersValid() && KeyedById();
      assert WindowsValid();
    }

    /** The part of dispatch that follows a successful opening. */
    method Deliver(s: Session, decoded: Result<Packet, Error>, from: AddrPort, now: int) returns (v: Verdict)
      requires Represents(s.window, s.accepted) && (decoded.Ok? || decoded.error != AuthFailed)
      modifies s`window, s`accepted, s`events
      ensures Represents(s.window, s.accepted)
      ensures v == Judged(s, old(s.accepted), decoded)
      ensures s.accepted == if v.Delivered? then old(s.accepted) + {v.packet.header.seqno}
                                   else old(s.accepted)
      ensures s.events == if v.Delivered? && |old(s.events)| < s.capacity
                          then old(s.events) + [Event(from, now, v.packet)] else old(s.events)
    {
      if decoded.Err? {
        return DecodeFailed(s, decoded.error);
      }
      var ok := s.AcceptSeq(decoded.value.header.seqno);
      if !ok {
        return ReplayDropped(s);
      }
      if |s.events| < s.capacity {
        s.events := s.events + [Event(from, now, decoded.value)];
      }
      return Delivered(s, decoded.value);
    }
  }

  lemma InsertedValues(sessions: map<string, Session>, id: string, s: Session)
    requires id !in sessions
    ensures sessions[id := s].Values == sessions.Values + {s}
  {
    var after := sessions[id := s];
    assert after[id] == s;
    forall r | r in sessions.Values
      ensures r in after.Values
    {
      var i :| i in sessions && sessions[i] == r;
      assert after[i] == r;
    }
  }

  lemma RemovedValues(sessions: map<string, Session>, s: Session)
    requires forall id | id in sessions :: sessions[id].id == id
    requires s.id in sessions && sessions[s.id] == s
    ensures (sessions - {s.id}).Values == sessions.Values - {s}
  {
    var after := sessions - {s.id};
    forall r | r in sessions.Values - {s}
      ensures r in after.Values
    {
      var i :| i in sessions && sessions[i] == r;
      assert after[i] == r;
    }
  }

  /** What an authentic datagram comes to, given every number its session has accepted. */
  ghost function Judged(s: Session, accepted: set<seqno>, decoded: Result<Packet, Error>): Verdict {
    match decoded
    case Err(e) => DecodeFailed(s, e)
    case Ok(p) => if Admits(accepted, p.header.seqno) then Delivered(s, p) else ReplayDropped(s)
  }

  // ------------------------------------------------------------ routing

  /** The session holds the datagram's tag for this epoch, and its key opens it. */
  predicate Claims(kdf: Kdf, s: Session, epoch: nat, d: Datagram, now: int)
    requires d.Datagram?
  {
    d.tag in EpochTags(kdf, s.keys, epoch) && Authentic(DecodeBody(d, s.keys, now))
  }

  ghost predicate Claimed(kdf: Kdf, live: set<Session>, epoch: nat, d: Datagram, now: int)
    requires d.Datagram?
  {
    exists s | s in live :: Claims(kdf, s, epoch, d, now)
  }

  /** While the table's epoch is the current one, one lookup decides what trying every
      session in turn would: the datagram is consumed exactly when DecodeDisco under some
      session's keys finds it authentic, and goes to QUIC otherwise. */
  lemma OneLookupIsTrialDecoding(kdf: Kdf, live: set<Session>, d: Datagram, now: int)
    requires d.Datagram? && SizeInRange(d)
    ensures Claimed(kdf, live, EpochOf(now), d, now)
            <==> exists s | s in live :: Authentic(Decode(kdf, d, s.keys, now))
  {
    forall s | s in live
      ensures Claims(kdf, s, EpochOf(now), d, now) <==> Authentic(Decode(kdf, d, s.keys, now))
    {
    }
  }

  /** A peer's packet is never handed to QUIC as a stranger's: if its timestamp passes the
      check, its session is in the table, and the wall clock is within 90 seconds of where it
      stood at the refresh, dispatch consumes it and reads it as it was sent. */
  lemma GenuinePacketFound(kdf: Kdf, live: set<Session>, s: Session, peerKeys: Keys, p: Packet, seqno: u32, sent: int,
                           padTo: int, nonce: Nonce, now: int, refreshed: int)
    requires s in live && peerKeys.seal == s.keys.open && peerKeys.tagSend == s.keys.tagRecv
    requires Encodable(p) && seqno != 0 && MIN_WIRE + |PayloadOf(p)| <= padTo <= MAX_WIRE
    requires 0 <= Unix(sent) < 0x1_0000_0000
    requires InReach(Unix(sent), now, refreshed, STALE_LIMIT)
    ensures var r := Encode(kdf, p, peerKeys, seqno, sent, padTo, nonce);
            && r.Ok? && SizeInRange(r.value)
            && Claimed(kdf, live, EpochOf(refreshed), r.value, now)
            && DecodeBody(r.value, s.keys, now) == Ok(WireForm(p, Header(p.header.typ, seqno, Unix(sent) * SECOND)))
  {
    MatchingKeysRead(kdf, peerKeys, s.keys, p, seqno, sent, padTo, nonce, now);
    TagHeldWhenFresh(kdf, peerKeys, s.keys, sent, now, refreshed);
    var d := Encode(kdf, p, peerKeys, seqno, sent, padTo, nonce).value;
    assert Claims(kdf, s, EpochOf(refreshed), d, now);
  }

  /** What dispatch makes of a peer's packet whose tag the table holds, whenever it comes and
      whatever its session has accepted before: refused for its skew outside thirty seconds and
      for a zero number, dropped as a replay when the number got through before or is 64 or more
      behind one that did, and delivered as it was sent otherwise. */
  lemma PeerPacketIsJudged(kdf: Kdf, s: Session, epoch: nat, peerKeys: Keys, p: Packet, seqno: u32, sent: int,
                           padTo: int, nonce: Nonce, now: int, accepted: set<seqno>)
    requires peerKeys.seal == s.keys.open && SendTag(kdf, peerKeys, sent) in EpochTags(kdf, s.keys, epoch)
    requires Encodable(p) && MIN_WIRE + |PayloadOf(p)| <= padTo <= MAX_WIRE
    requires 0 <= Unix(sent) < 0x1_0000_0000
    ensures var r := Encode(kdf, p, peerKeys, seqno, sent, padTo, nonce);
            && r.Ok? && r.value.Datagram? && Claims(kdf, s, epoch, r.value, now)
            && Judged(s, accepted, DecodeBody(r.value, s.keys, now))
               == PeerVerdict(s, p, Unix(sent), seqno, now - Unix(sent) * SECOND, accepted)
  {
    MatchingKeysRead(kdf, peerKeys, s.keys, p, seqno, sent, padTo, nonce, now);
    EncodedIs(kdf, p, peerKeys, seqno, sent, padTo, nonce);
    ReadIsJudged(s, p, Unix(sent), seqno, now, accepted);
  }

  lemma ReadIsJudged(s: Session, p: Packet, ts: u32, seqno: u32, now: int, accepted: set<seqno>)
    requires Encodable(p)
    ensures Judged(s, accepted, Read(p, ts, seqno, now)) == PeerVerdict(s, p, ts, seqno, now - ts * SECOND, accepted)
    ensures Read(p, ts, seqno, now) != Err(NotDisco) && Read(p, ts, seqno, now) != Err(AuthFailed)
  {
  }

  ghost function PeerVerdict(s: Session, p: Packet, ts: u32, seqno: u32, skew: int, accepted: set<seqno>): Verdict
    requires Encodable(p)
  {
    if !(-30 * SECOND <= skew <= 30 * SECOND) then DecodeFailed(s, Skewed(skew))
    else if seqno == 0 then DecodeFailed(s, Invalid)
    else if seqno in accepted || exists a | a in accepted :: a - seqno >= 64 then ReplayDropped(s)
    else Delivered(s, WireForm(p, Header(p.header.typ, seqno, ts * SECOND)))
  }

  /** Only the sealing session's own key opens a datagram, so sessions with different keys
      never take each other's packets, even where their tags collide. */
  lemma OnlyItsOwnSession(kdf: Kdf, r: Session, s: Session, epoch: nat, d: Datagram, now: int)
    requires d.Datagram? && Claims(kdf, r, epoch, d, now) && Claims(kdf, s, epoch, d, now)
    ensures r.keys.open == s.keys.open
  {
  }
}
