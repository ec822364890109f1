/** Gecko's splitting and reassembly (extras/obfs/gecko.go): a packet goes out in 2 to 8
    padded chunks and is put together again from chunks arriving in any order, under a cap
    per source, a cap over all, and a time to live. */
module GeckoConn {
  import opened Clock
  import opened Net
  import opened Results
  import opened GeckoFrame

  const TTL: int := 8 * SECOND
  const MAX_REASSEMBLY: nat := 4096
  const MAX_PER_SOURCE: nat := 8
  const SALT_LEN: nat := 8
  const BUFFER_SIZE: nat := 2048

  // ------------------------------------------------------------ splitting

  /** Chunk i of p split n ways: equal shares, and what is left over in the last. */
  function Chunk(p: seq<byte>, n: nat, i: nat): seq<byte>
    requires 0 < n && i < n
  {
    var size := |p| / n;
    ChunkFits(|p|, n, i);
    if i == n - 1 then p[i * size..] else p[i * size..(i + 1) * size]
  }

  lemma ChunkFits(len: nat, n: nat, i: nat)
    requires 0 < n && i < n
    ensures 0 <= i * (len / n) <= (i + 1) * (len / n) <= len
  {
    var size := len / n;
    Monotone(i, i + 1, size);
    Monotone(i + 1, n, size);
    assert n * size <= len;
  }

  lemma Monotone(a: nat, b: nat, s: nat)
    requires a <= b
    ensures 0 <= a * s <= b * s
  {
    assert b * s - a * s == (b - a) * s;
  }

  function Joined(chunks: seq<seq<byte>>): seq<byte> {
    if chunks == [] then [] else Joined(chunks[..|chunks| - 1]) + chunks[|chunks| - 1]
  }

  /** Every chunk but the last has an equal share, and the last what is left. */
  lemma ChunkSizes(p: seq<byte>, n: nat, i: nat)
    requires 0 < n && i < n
    ensures |Chunk(p, n, i)| == if i < n - 1 then |p| / n else |p| - (n - 1) * (|p| / n)
  {
    ChunkFits(|p|, n, i);
    assert i < n - 1 ==> (i + 1) * (|p| / n) - i * (|p| / n) == |p| / n;
  }

  /** All the chunks of p split n ways. */
  function Split(p: seq<byte>, n: nat): (parts: seq<seq<byte>>)
    requires 0 < n
    ensures |parts| == n && forall i | 0 <= i < n :: parts[i] == Chunk(p, n, i)
  {
    seq(n, i requires 0 <= i < n => Chunk(p, n, i))
  }

  /** Where the first k chunks end. */
  function Cut(len: nat, n: nat, k: nat): (c: nat)
    requires 0 < n && k <= n
    ensures c <= len
  {
    if k == n then len
    else
      ChunkFits(len, n, k);
      k * (len / n)
  }

  lemma CutsMeet(p: seq<byte>, n: nat, k: nat)
    requires k < n
    ensures p[..Cut(|p|, n, k)] + Chunk(p, n, k) == p[..Cut(|p|, n, k + 1)]
  {
    ChunkFits(|p|, n, k);
  }

  lemma {:induction false} SplitPrefixJoins(p: seq<byte>, n: nat, k: nat)
    requires 0 < n && k <= n
    ensures Joined(Split(p, n)[..k]) == p[..Cut(|p|, n, k)]
  {
    if k > 0 {
      SplitPrefixJoins(p, n, k - 1);
      CutsMeet(p, n, k - 1);
      assert Split(p, n)[..k][..k - 1] == Split(p, n)[..k - 1];
    }
  }

  /** Splitting loses nothing: the chunks in order are the packet. */
  lemma SplitJoins(p: seq<byte>, n: nat)
    requires 0 < n
    ensures Joined(Split(p, n)) == p
  {
    SplitPrefixJoins(p, n, n);
    assert Split(p, n)[..n] == Split(p, n);
    assert p[..|p|] == p;
  }

  /** randomPadLen: draw stands for the random number taken. */
  function PadLen(minPkt: nat, maxPkt: nat, chunkLen: nat, draw: nat): (pad: nat)
    requires 0 < minPkt <= maxPkt <= BUFFER_SIZE
    ensures var size := SALT_LEN + HEADER_SIZE + chunkLen + pad;
            if SALT_LEN + HEADER_SIZE + chunkLen <= maxPkt then minPkt <= size <= maxPkt else pad == 0
  {
    var base := SALT_LEN + HEADER_SIZE + chunkLen;
    var lo := if minPkt >= base then minPkt else base;
    if lo > maxPkt then 0
    else lo - base + (if maxPkt - lo + 1 <= 1 then 0 else draw % (maxPkt - lo + 1))
  }

  /** Every size that PadLen may give some draw does give. */
  lemma EverySizeIsDrawn(minPkt: nat, maxPkt: nat, chunkLen: nat, size: nat) returns (draw: nat)
    requires 0 < minPkt <= maxPkt <= 2048 && minPkt <= size <= maxPkt && 13 + chunkLen <= size
    ensures 13 + chunkLen + PadLen(minPkt, maxPkt, chunkLen, draw) == size
  {
    var lo := if minPkt >= 13 + chunkLen then minPkt else 13 + chunkLen;
    draw := size - lo;
    BelowModulus(draw, maxPkt - lo + 1);
  }

  lemma BelowModulus(a: nat, m: nat)
    requires a < m
    ensures a % m == a
  {
  }

  // ------------------------------------------------------------ the reassembly table

  datatype Key = Key(addr: string, msgId: byte)

  datatype Entry = Entry(chunks: seq<Option<seq<byte>>>, received: nat, total: byte, deadline: int)

  type Table = map<Key, Entry>

  function FromSource(t: Table, addr: string): set<Key> {
    set k | k in t && k.addr == addr
  }

  function Filled(chunks: seq<Option<seq<byte>>>): nat {
    if chunks == [] then 0
    else Filled(chunks[..|chunks| - 1]) + (if chunks[|chunks| - 1].Some? then 1 else 0)
  }

  predicate ValidEntry(e: Entry) {
    && MIN_CHUNKS <= e.total <= MAX_CHUNKS
    && |e.chunks| == e.total
    && e.received == Filled(e.chunks)
    && 1 <= e.received < e.total
  }

  /** The bounds the table keeps: entries in progress only, at most 8 per source, at most
      4096 in all. */
  ghost predicate Bounded(t: Table) {
    && |t| <= MAX_REASSEMBLY
    && (forall k | k in t :: ValidEntry(t[k]))
    && (forall a: string :: |FromSource(t, a)| <= MAX_PER_SOURCE)
  }

  ghost predicate Oldest(t: Table, v: Key) {
    v in t && forall k | k in t :: t[v].deadline <= t[k].deadline
  }

  function Values(chunks: seq<Option<seq<byte>>>): (r: seq<seq<byte>>)
    requires forall i | 0 <= i < |chunks| :: chunks[i].Some?
    ensures |r| == |chunks| && forall i | 0 <= i < |chunks| :: r[i] == chunks[i].value
  {
    seq(|chunks|, i requires 0 <= i < |chunks| => chunks[i].value)
  }

  function NewEntry(h: Header, now: int): Entry {
    Entry(seq(h.totalChunks, _ => None), 0, h.totalChunks, now + TTL)
  }

  /** The table with room for one more entry; victim is the oldest one, and is only evicted
      when the table is full. */
  function WithRoom(t: Table, victim: Key): Table {
    if |t| >= MAX_REASSEMBLY then t - {victim} else t
  }

  lemma {:induction false} FilledAll(chunks: seq<Option<seq<byte>>>)
    ensures Filled(chunks) <= |chunks|
    ensures Filled(chunks) == |chunks| <==> forall i | 0 <= i < |chunks| :: chunks[i].Some?
  {
    if chunks != [] {
      var rest := chunks[..|chunks| - 1];
      FilledAll(rest);
      assert forall i | 0 <= i < |rest| :: rest[i] == chunks[i];
    }
  }

  lemma {:induction false} FilledUpdate(chunks: seq<Option<seq<byte>>>, i: nat, c: seq<byte>)
    requires i < |chunks| && chunks[i].None?
    ensures Filled(chunks[i := Some(c)]) == Filled(chunks) + 1
  {
    var n := |chunks| - 1;
    if i < n {
      FilledUpdate(chunks[..n], i, c);
      assert chunks[i := Some(c)][..n] == chunks[..n][i := Some(c)];
    } else {
      assert chunks[i := Some(c)][..n] == chunks[..n];
    }
  }

  lemma {:induction false} FilledNone(n: nat)
    ensures Filled(seq(n, _ => None)) == 0
  {
    if n > 0 {
      FilledNone(n - 1);
      var s: seq<Option<seq<byte>>> := seq(n, _ => None);
      assert s[..n - 1] == seq(n - 1, _ => None);
    }
  }

  /** The second half of acceptChunk: the chunk goes into entry e of key, and the entry that
      it completes comes out. */
  function Fill(room: Table, key: Key, e: Entry, h: Header, payload: seq<byte>): (Table, Option<seq<byte>>)
    requires ValidHeader(h)
  {
    if h.chunkIdx >= |e.chunks| || e.chunks[h.chunkIdx].Some? then (room[key := e], None)
    else
      var e' := Plus(e, h.chunkIdx, payload);
      if e'.received < e'.total then (room[key := e'], None)
      else if forall i | 0 <= i < |e'.chunks| :: e'.chunks[i].Some? then (room - {key}, Some(Joined(Values(e'.chunks))))
      else (room - {key}, None)
  }

  function EntryFor(t: Table, key: Key, h: Header, now: int): Entry {
    if key in t then t[key] else NewEntry(h, now)
  }

  predicate Refused(t: Table, key: Key, h: Header) {
    if key in t then t[key].total != h.totalChunks else |FromSource(t, key.addr)| >= MAX_PER_SOURCE
  }

  /** acceptChunk: the table afterwards and the packet completed, if any. */
  function Accept(t: Table, key: Key, h: Header, payload: seq<byte>, now: int, victim: Key): (Table, Option<seq<byte>>)
    requires ValidHeader(h)
  {
    if Refused(t, key, h) then (t, None)
    else Fill(if key in t then t else WithRoom(t, victim), key, EntryFor(t, key, h, now), h, payload)
  }

  function Collected(t: Table, now: int): Table {
    map k | k in t && now <= t[k].deadline :: t[k]
  }

  // ------------------------------------------------------------ bounds

  lemma SourceSubset(t: Table, u: Table, a: string)
    requires FromSource(u, a) <= FromSource(t, a)
    ensures |FromSource(u, a)| <= |FromSource(t, a)|
  {
    var rest := FromSource(t, a) - FromSource(u, a);
    assert FromSource(t, a) == FromSource(u, a) + rest;
  }

  lemma KeysSubset(t: Table, u: Table)
    requires u.Keys <= t.Keys
    ensures |u| <= |t|
  {
    var rest := t.Keys - u.Keys;
    assert t.Keys == u.Keys + rest;
    assert |u| == |u.Keys| && |t| == |t.Keys|;
  }

  lemma ShrinkingKeepsBounds(t: Table, u: Table)
    requires Bounded(t) && u.Keys <= t.Keys && forall k | k in u :: u[k] == t[k]
    ensures Bounded(u)
  {
    KeysSubset(t, u);
    forall a: string
      ensures |FromSource(u, a)| <= MAX_PER_SOURCE
    {
      SourceSubset(t, u, a);
    }
  }

  lemma UpdatedSource(t: Table, k: Key, e: Entry, a: string)
    requires k in t
    ensures FromSource(t[k := e], a) == FromSource(t, a)
  {
  }

  lemma PutKeepsBounds(t: Table, key: Key, e: Entry)
    requires Bounded(t) && ValidEntry(e)
    requires key !in t ==> |t| < MAX_REASSEMBLY && |FromSource(t, key.addr)| < MAX_PER_SOURCE
    ensures Bounded(t[key := e])
  {
    var u := t[key := e];
    assert u.Keys == t.Keys + {key};
    assert |u| == |u.Keys| && |t| == |t.Keys|;
    if key !in t {
      InsertedSource(t, key, e);
      forall a: string
        ensures |FromSource(u, a)| <= MAX_PER_SOURCE
      {
        if a != key.addr {
          assert FromSource(u, a) == FromSource(t, a);
        }
      }
    } else {
      forall a: string
        ensures |FromSource(u, a)| <= MAX_PER_SOURCE
      {
        UpdatedSource(t, key, e, a);
      }
    }
  }

  /** An entry with one more chunk in it. */
  function Plus(e: Entry, idx: nat, payload: seq<byte>): Entry
    requires idx < |e.chunks|
  {
    e.(chunks := e.chunks[idx := Some(payload)], received := e.received + 1)
  }

  lemma PlusIsValid(e: Entry, idx: nat, payload: seq<byte>)
    requires MIN_CHUNKS <= e.total == |e.chunks| <= MAX_CHUNKS && e.received == Filled(e.chunks)
    requires idx < |e.chunks| && e.chunks[idx].None? && e.received + 1 < e.total
    ensures ValidEntry(Plus(e, idx, payload))
  {
    FilledUpdate(e.chunks, idx, payload);
  }

  /** The table after a chunk, whatever becomes of the packet. */
  function FilledTable(room: Table, key: Key, e: Entry, idx: nat, payload: seq<byte>): Table {
    if idx >= |e.chunks| || e.chunks[idx].Some? then room[key := e]
    else if e.received + 1 < e.total then room[key := Plus(e, idx, payload)]
    else room - {key}
  }

  lemma FilledTableKeepsBounds(room: Table, key: Key, e: Entry, idx: nat, payload: seq<byte>)
    requires Bounded(room)
    requires idx < |e.chunks| == e.total && MIN_CHUNKS <= e.total <= MAX_CHUNKS && e.received == Filled(e.chunks)
    requires if key in room then e == room[key]
             else e.received == 0 && |room| < MAX_REASSEMBLY && |FromSource(room, key.addr)| < MAX_PER_SOURCE
    ensures Bounded(FilledTable(room, key, e, idx, payload))
  {
    if e.chunks[idx].Some? {
      if key !in room {
        FilledZero(e.chunks);
      }
      assert room[key := e] == room;
    } else if e.received + 1 < e.total {
      PlusIsValid(e, idx, payload);
      PutKeepsBounds(room, key, Plus(e, idx, payload));
    } else {
      ShrinkingKeepsBounds(room, room - {key});
    }
  }

  lemma FillKeepsBounds(room: Table, key: Key, e: Entry, h: Header, payload: seq<byte>)
    requires Bounded(room) && ValidHeader(h)
    requires if key in room then e == room[key] && e.total == h.totalChunks
             else e.total == h.totalChunks == |e.chunks| && e.received == Filled(e.chunks) == 0
                  && |room| < MAX_REASSEMBLY && |FromSource(room, key.addr)| < MAX_PER_SOURCE
    ensures Bounded(Fill(room, key, e, h, payload).0)
  {
    assert key in room ==> ValidEntry(e);
    assert Fill(room, key, e, h, payload).0 == FilledTable(room, key, e, h.chunkIdx, payload);
    FilledTableKeepsBounds(room, key, e, h.chunkIdx, payload);
  }

  lemma {:induction false} FilledZero(chunks: seq<Option<seq<byte>>>)
    requires Filled(chunks) == 0
    ensures forall i | 0 <= i < |chunks| :: chunks[i].None?
  {
    if chunks != [] {
      FilledZero(chunks[..|chunks| - 1]);
      assert forall i | 0 <= i < |chunks| - 1 :: chunks[i] == chunks[..|chunks| - 1][i];
    }
  }

  /** Every chunk accepted, whatever it evicts, keeps the bounds. */
  lemma AcceptKeepsBounds(t: Table, key: Key, h: Header, payload: seq<byte>, now: int, victim: Key)
    requires Bounded(t) && ValidHeader(h)
    requires |t| >= MAX_REASSEMBLY ==> Oldest(t, victim)
    ensures Bounded(Accept(t, key, h, payload, now, victim).0)
  {
    if !Refused(t, key, h) {
      var room := if key in t then t else WithRoom(t, victim);
      ShrinkingKeepsBounds(t, room);
      if key !in t {
        RoomMade(t, victim);
        SourceSubset(t, room, key.addr);
        FilledNone(h.totalChunks);
      }
      FillKeepsBounds(room, key, EntryFor(t, key, h, now), h, payload);
    }
  }

  lemma RoomMade(t: Table, victim: Key)
    requires |t| <= MAX_REASSEMBLY
    requires |t| >= MAX_REASSEMBLY ==> victim in t
    ensures |WithRoom(t, victim)| < MAX_REASSEMBLY
  {
    if |t| >= MAX_REASSEMBLY {
      assert (t - {victim}).Keys == t.Keys - {victim};
      assert |t - {victim}| == |(t - {victim}).Keys| && |t| == |t.Keys|;
    }
  }

  // ------------------------------------------------------------ the conn

  class Conn {
    const minPkt: nat
    const maxPkt: nat
    var msgId: byte
    var reassembly: Table
    var perSource: map<string, int>

    /** perSource holds, for each source with entries, how many it has, and nothing else. */
    ghost predicate Counted()
      reads this
    {
      forall a: string ::
        && (a in perSource <==> FromSource(reassembly, a) != {})
        && (a in perSource ==> perSource[a] == |FromSource(reassembly, a)|)
    }

    ghost predicate Valid()
      reads this
    {
      Bounded(reassembly) && Counted() && 0 < minPkt <= maxPkt <= BUFFER_SIZE
    }

    constructor (minPkt: nat, maxPkt: nat)
      requires 0 < minPkt <= maxPkt <= BUFFER_SIZE
      ensures Valid() && reassembly == map[]
    {
      this.minPkt, this.maxPkt := minPkt, maxPkt;
      msgId := 0;
      reassembly, perSource := map[], map[];
      new;
      assert forall a: string :: FromSource(reassembly, a) == {};
    }

    /** writeFragmented: chunks and draws stand for the random numbers taken, and the
        padding bytes are chosen arbitrarily. */
    method WriteFragmented(p: seq<byte>, chunks: nat, draws: seq<nat>) returns (sent: seq<seq<byte>>)
      requires 0 < minPkt <= maxPkt <= BUFFER_SIZE
      requires MIN_CHUNKS <= chunks <= MAX_CHUNKS && |draws| == chunks
      modifies this`msgId
      ensures msgId == (old(msgId) + 1) % 0x100
      ensures |sent| == chunks
      ensures forall i | 0 <= i < chunks :: IsChunkFrame(sent[i], p, chunks, i, msgId, PadLen(minPkt, maxPkt, |Chunk(p, chunks, i)|, draws[i]))
    {
      var id: byte := (msgId + 1) % 0x100;
      msgId := id;
      sent := [];
      for i := 0 to chunks
        modifies {}
        invariant |sent| == i && AreFrames(sent, p, chunks, id, minPkt, maxPkt, draws)
      {
        var frame := EncodeChunk(p, chunks, i, id, draws[i]);
        assert (sent + [frame])[..i] == sent;
        sent := sent + [frame];
      }
      forall i | 0 <= i < chunks
        ensures IsChunkFrame(sent[i], p, chunks, i, id, PadLen(minPkt, maxPkt, |Chunk(p, chunks, i)|, draws[i]))
      {
        FrameAt(sent, p, chunks, id, minPkt, maxPkt, draws, i);
      }
    }

    method EncodeChunk(p: seq<byte>, chunks: nat, i: nat, id: byte, draw: nat) returns (frame: seq<byte>)
      requires 0 < minPkt <= maxPkt <= BUFFER_SIZE && MIN_CHUNKS <= chunks <= MAX_CHUNKS && i < chunks
      ensures IsChunkFrame(frame, p, chunks, i, id, PadLen(minPkt, maxPkt, |Chunk(p, chunks, i)|, draw))
    {
      var chunk := Chunk(p, chunks, i);
      var pad := PadLen(minPkt, maxPkt, |chunk|, draw);
      var h := Header(pad, id, i, chunks);
      var noise := RandomBytes(pad);
      var buf := new byte[HEADER_SIZE + pad + |chunk|];
      var n := EncodeFrame(h, noise, chunk, buf);
      frame := buf[..n.value];
    }

    function SourceCount(a: string): int
      reads this
    {
      if a in perSource then perSource[a] else 0
    }

    /** dropEntryLocked. */
    method DropEntry(k: Key)
      requires Counted()
      modifies this`reassembly, this`perSource
      ensures Counted()
      ensures reassembly == old(reassembly) - {k}
    {
      if k !in reassembly {
        return;
      }
      ghost var before := reassembly;
      reassembly := reassembly - {k};
      perSource := perSource[k.addr := SourceCount(k.addr) - 1];
      if perSource[k.addr] <= 0 {
        perSource := perSource - {k.addr};
      }
      DroppedSource(before, k);
    }

    /** evictOldestLocked. */
    method EvictOldest() returns (ghost victim: Key)
      requires Counted() && |reassembly| > 0
      modifies this`reassembly, this`perSource
      ensures Counted()
      ensures Oldest(old(reassembly), victim)
      ensures reassembly == old(reassembly) - {victim}
    {
      var todo := reassembly.Keys;
      assert todo != {};
      var oldest :| oldest in todo;
      todo := todo - {oldest};
      while todo != {}
        invariant todo <= reassembly.Keys && oldest in reassembly
        invariant forall k | k in reassembly && k !in todo :: reassembly[oldest].deadline <= reassembly[k].deadline
        decreases todo
      {
        var k :| k in todo;
        if reassembly[k].deadline < reassembly[oldest].deadline {
          oldest := k;
        }
        todo := todo - {k};
      }
      victim := oldest;
      DropEntry(oldest);
    }

    method JoinChunks(chunks: seq<Option<seq<byte>>>) returns (out: seq<byte>)
      requires forall i | 0 <= i < |chunks| :: chunks[i].Some?
      ensures out == Joined(Values(chunks))
    {
      out := [];
      for i := 0 to |chunks|
        invariant out == Joined(Values(chunks)[..i])
      {
        out := out + chunks[i].value;
        assert Values(chunks)[..i + 1][..i] == Values(chunks)[..i];
      }
      assert Values(chunks)[..|chunks|] == Values(chunks);
    }

    /** The first half of acceptChunk, for a key with no entry: an empty entry is made
        unless the source has too many, evicting the oldest when the table is full. */
    method OpenEntry(key: Key, h: Header, now: int) returns (ok: bool, ghost victim: Key)
      requires Valid() && key !in reassembly
      modifies this`reassembly, this`perSource
      ensures Counted()
      ensures |old(reassembly)| >= MAX_REASSEMBLY ==> Oldest(old(reassembly), victim)
      ensures ok <==> |FromSource(old(reassembly), key.addr)| < MAX_PER_SOURCE
      ensures reassembly == if ok then WithRoom(old(reassembly), victim)[key := NewEntry(h, now)] else old(reassembly)
    {
      victim := key;
      if SourceCount(key.addr) >= MAX_PER_SOURCE {
        if |reassembly| >= MAX_REASSEMBLY {
          victim := SomeOldest(reassembly);
        }
        return false, victim;
      }
      if |reassembly| >= MAX_REASSEMBLY {
        victim := EvictOldest();
      }
      InsertEntry(key, NewEntry(h, now));
      return true, victim;
    }

    method InsertEntry(key: Key, e: Entry)
      requires Counted() && key !in reassembly
      modifies this`reassembly, this`perSource
      ensures Counted() && reassembly == old(reassembly)[key := e]
    {
      InsertedSource(reassembly, key, e);
      perSource := perSource[key.addr := SourceCount(key.addr) + 1];
      reassembly := reassembly[key := e];
    }

    /** The second half, for a key with an entry. */
    method FillChunk(key: Key, h: Header, payload: seq<byte>) returns (out: seq<byte>, ready: bool)
      requires Counted() && ValidHeader(h)
      requires key in reassembly && reassembly[key].total == |reassembly[key].chunks|
      requires reassembly[key].received == Filled(reassembly[key].chunks)
      modifies this`reassembly, this`perSource
      ensures Counted()
      ensures (reassembly, if ready then Some(out) else None)
              == Fill(old(reassembly), key, old(reassembly)[key], h, payload)
    {
      out, ready := [], false;
      var e := reassembly[key];
      if h.chunkIdx >= |e.chunks| || e.chunks[h.chunkIdx].Some? {
        assert reassembly == reassembly[key := e];
        return;
      }
      FilledUpdate(e.chunks, h.chunkIdx, payload);
      e := e.(chunks := e.chunks[h.chunkIdx := Some(payload)], received := e.received + 1);
      FilledAll(e.chunks);
      ReplaceEntry(key, e);
      if e.received < e.total {
        return;
      }
      out := JoinChunks(e.chunks);
      ready := true;
      DropEntry(key);
      assert reassembly == old(reassembly) - {key};
    }

    method AcceptChunk(addr: string, h: Header, payload: seq<byte>, now: int)
        returns (out: seq<byte>, ready: bool, ghost victim: Key)
      requires Valid() && ValidHeader(h)
      modifies this`reassembly, this`perSource
      ensures Valid()
      ensures |old(reassembly)| >= MAX_REASSEMBLY ==> Oldest(old(reassembly), victim)
      ensures (reassembly, if ready then Some(out) else None)
              == Accept(old(reassembly), Key(addr, h.msgId), h, payload, now, victim)
    {
      var key := Key(addr, h.msgId);
      ghost var before := reassembly;
      out, ready, victim := [], false, key;
      if key !in reassembly {
        var ok;
        ok, victim := OpenEntry(key, h, now);
        if !ok {
          return;
        }
        FilledNone(h.totalChunks);
      } else {
        if |reassembly| >= MAX_REASSEMBLY {
          victim := SomeOldest(reassembly);
        }
        if reassembly[key].total != h.totalChunks {
          return;
        }
      }
      AcceptKeepsBounds(before, key, h, payload, now, victim);
      FillOverwrites(if key in before then before else WithRoom(before, victim), key, EntryFor(before, key, h, now), h, payload);
      out, ready := FillChunk(key, h, payload);
    }

    /** An entry changed where it stands. */
    method ReplaceEntry(key: Key, e: Entry)
      requires Counted() && key in reassembly
      modifies this`reassembly
      ensures Counted() && reassembly == old(reassembly)[key := e]
    {
      forall a: string
        ensures FromSource(reassembly[key := e], a) == FromSource(reassembly, a)
      {
        UpdatedSource(reassembly, key, e, a);
      }
      reassembly := reassembly[key := e];
    }

    /** gcExpired. */
    method GcExpired(now: int)
      requires Valid()
      modifies this`reassembly, this`perSource
      ensures Valid()
      ensures reassembly == Collected(old(reassembly), now)
      ensures forall k :: k in reassembly <==> k in old(reassembly) && now <= old(reassembly)[k].deadline
      ensures forall k | k in reassembly :: reassembly[k] == old(reassembly)[k]
    {
      var todo := reassembly.Keys;
      ghost var before := reassembly;
      while todo != {}
        invariant Counted()
        invariant reassembly.Keys <= before.Keys && todo <= before.Keys
        invariant forall k | k in reassembly :: reassembly[k] == before[k]
        invariant forall k | k in before ::
                    k in reassembly <==> k in todo || now <= before[k].deadline
        decreases todo
      {
        var k :| k in todo;
        assert k in reassembly;
        if now > reassembly[k].deadline {
          DropEntry(k);
        }
        todo := todo - {k};
      }
      ShrinkingKeepsBounds(before, reassembly);
    }
  }

  method RandomBytes(n: nat) returns (b: seq<byte>)
    ensures |b| == n
  {
    b := [];
    while |b| < n
      invariant |b| <= n
    {
      var x: byte :| true;
      b := b + [x];
    }
  }

  /** The frame carries chunk i of p under padding of the given length. */
  ghost predicate IsChunkFrame(frame: seq<byte>, p: seq<byte>, n: nat, i: nat, id: byte, pad: nat)
    requires MIN_CHUNKS <= n <= MAX_CHUNKS && i < n
  {
    pad < 0x1_0000 && exists noise: seq<byte> | |noise| == pad :: frame == Frame(Header(pad, id, i, n), noise, Chunk(p, n, i))
  }

  /** The frames carry the chunks of p in order, each under the padding drawn for it. */
  ghost predicate AreFrames(frames: seq<seq<byte>>, p: seq<byte>, n: nat, id: byte, minPkt: nat, maxPkt: nat, draws: seq<nat>)
    requires 0 < minPkt <= maxPkt <= BUFFER_SIZE && MIN_CHUNKS <= n <= MAX_CHUNKS && |frames| <= n == |draws|
  {
    frames == [] ||
    var i := |frames| - 1;
    && AreFrames(frames[..i], p, n, id, minPkt, maxPkt, draws)
    && IsChunkFrame(frames[i], p, n, i, id, PadLen(minPkt, maxPkt, |Chunk(p, n, i)|, draws[i]))
  }

  lemma {:induction false} FrameAt(frames: seq<seq<byte>>, p: seq<byte>, n: nat, id: byte, minPkt: nat, maxPkt: nat,
                                   draws: seq<nat>, i: nat)
    requires 0 < minPkt <= maxPkt <= BUFFER_SIZE && MIN_CHUNKS <= n <= MAX_CHUNKS && |frames| <= n == |draws|
    requires AreFrames(frames, p, n, id, minPkt, maxPkt, draws) && i < |frames|
    ensures IsChunkFrame(frames[i], p, n, i, id, PadLen(minPkt, maxPkt, |Chunk(p, n, i)|, draws[i]))
    decreases |frames|
  {
    if i < |frames| - 1 {
      FrameAt(frames[..|frames| - 1], p, n, id, minPkt, maxPkt, draws, i);
    }
  }

  lemma DroppedSource(t: Table, k: Key)
    requires k in t
    ensures FromSource(t - {k}, k.addr) == FromSource(t, k.addr) - {k}
    ensures |FromSource(t - {k}, k.addr)| == |FromSource(t, k.addr)| - 1
    ensures forall a: string | a != k.addr :: FromSource(t - {k}, a) == FromSource(t, a)
  {
    assert FromSource(t - {k}, k.addr) == FromSource(t, k.addr) - {k};
  }

  lemma InsertedSource(t: Table, k: Key, e: Entry)
    requires k !in t
    ensures FromSource(t[k := e], k.addr) == FromSource(t, k.addr) + {k}
    ensures |FromSource(t[k := e], k.addr)| == |FromSource(t, k.addr)| + 1
    ensures forall a: string | a != k.addr :: FromSource(t[k := e], a) == FromSource(t, a)
  {
    assert FromSource(t[k := e], k.addr) == FromSource(t, k.addr) + {k};
  }

  lemma {:induction false} SomeOldest(t: Table) returns (v: Key)
    requires |t| > 0
    ensures Oldest(t, v)
    decreases |t|
  {
    assert t.Keys != {};
    var k :| k in t;
    var rest := t - {k};
    assert t.Keys == rest.Keys + {k} && |t| == |t.Keys| && |rest| == |rest.Keys|;
    v := k;
    if |rest| > 0 {
      var w := SomeOldest(rest);
      if t[w].deadline < t[k].deadline {
        v := w;
      }
    }
  }

  /** Whether the entry was already stored makes no difference to what filling it gives. */
  lemma FillOverwrites(room: Table, key: Key, e: Entry, h: Header, payload: seq<byte>)
    requires ValidHeader(h)
    requires key in room ==> e == room[key]
    ensures Fill(room[key := e], key, e, h, payload) == Fill(room, key, e, h, payload)
    ensures key in room ==> room[key := e] == room
  {
    if h.chunkIdx < |e.chunks| {
      var e' := e.(chunks := e.chunks[h.chunkIdx := Some(payload)], received := e.received + 1);
      assert room[key := e][key := e'] == room[key := e'];
    }
    assert room[key := e][key := e] == room[key := e];
    assert room[key := e] - {key} == room - {key};
  }

  // ------------------------------------------------------------ runs

  datatype Event =
    | Arrive(addr: string, frame: seq<byte>, now: int, victim: Key)
    | Collect(now: int)

  predicate Decodes(e: Event) {
    e.Arrive? && DecodeFrame(e.frame).Ok?
  }

  function HeaderOf(e: Event): (h: Header)
    requires Decodes(e)
    ensures ValidHeader(h)
  {
    DecodeFrame(e.frame).value.0
  }

  /** One datagram read, or one pass of the collector. What has a clear top bit is a packet of
      the short form and passes through as it is. */
  function After(t: Table, e: Event): (Table, Option<seq<byte>>) {
    match e
    case Collect(now) => (Collected(t, now), None)
    case Arrive(addr, frame, now, victim) =>
      match DecodeFrame(frame)
      case Err(_) => (t, if frame != [] && frame[0] < 0x80 then Some(frame) else None)
      case Ok((h, payload)) => Accept(t, Key(addr, h.msgId), h, payload, now, victim)
  }

  ghost predicate IsRun(states: seq<Table>, events: seq<Event>) {
    && |states| == |events| + 1
    && forall i {:trigger After(states[i], events[i])} | 0 <= i < |events| ::
         && states[i + 1] == After(states[i], events[i]).0
         && (events[i].Arrive? && |states[i]| >= MAX_REASSEMBLY ==> Oldest(states[i], events[i].victim))
  }

  lemma StepStaysBounded(t: Table, e: Event)
    requires Bounded(t) && (e.Arrive? && |t| >= MAX_REASSEMBLY ==> Oldest(t, e.victim))
    ensures Bounded(After(t, e).0)
  {
    if e.Collect? {
      ShrinkingKeepsBounds(t, Collected(t, e.now));
    } else if DecodeFrame(e.frame).Ok? {
      var (h, payload) := DecodeFrame(e.frame).value;
      AcceptKeepsBounds(t, Key(e.addr, h.msgId), h, payload, e.now, e.victim);
    }
  }

  /** Whatever arrives and whenever the collector runs, the table stays within its bounds. */
  lemma {:induction false} RunsStayBounded(states: seq<Table>, events: seq<Event>, i: nat)
    requires IsRun(states, events) && Bounded(states[0]) && i < |states|
    ensures Bounded(states[i])
  {
    if i > 0 {
      RunsStayBounded(states, events, i - 1);
      assert states[i] == After(states[i - 1], events[i - 1]).0;
      StepStaysBounded(states[i - 1], events[i - 1]);
    }
  }

  /** A frame of this message from this source. */
  predicate For(e: Event, key: Key) {
    Decodes(e) && Key(e.addr, HeaderOf(e).msgId) == key
  }

  /** The frame is one of the chunks of p split n ways, under some padding. */
  ghost predicate Carries(e: Event, p: seq<byte>, n: nat)
    requires Decodes(e) && MIN_CHUNKS <= n <= MAX_CHUNKS
  {
    exists j: nat, pad: nat | j < n :: IsChunkFrame(e.frame, p, n, j, HeaderOf(e).msgId, pad)
  }

  lemma CarriedChunk(e: Event, p: seq<byte>, n: nat)
    requires Decodes(e) && MIN_CHUNKS <= n <= MAX_CHUNKS && Carries(e, p, n)
    ensures HeaderOf(e).totalChunks == n
    ensures DecodeFrame(e.frame).value.1 == Split(p, n)[HeaderOf(e).chunkIdx]
  {
    var id := HeaderOf(e).msgId;
    var j: nat, pad: nat :| j < n && IsChunkFrame(e.frame, p, n, j, id, pad);
    ChunkFrameDecodes(e.frame, p, n, j, id, pad);
  }

  lemma ChunkFrameDecodes(frame: seq<byte>, p: seq<byte>, n: nat, j: nat, id: byte, pad: nat)
    requires MIN_CHUNKS <= n <= MAX_CHUNKS && j < n && IsChunkFrame(frame, p, n, j, id, pad)
    ensures pad < 0x1_0000 && DecodeFrame(frame) == Ok((Header(pad, id, j, n), Chunk(p, n, j)))
  {
    var noise: seq<byte> :| |noise| == pad && frame == Frame(Header(pad, id, j, n), noise, Chunk(p, n, j));
    FrameRoundTrip(Header(pad, id, j, n), noise, Chunk(p, n, j));
  }

  /** Which chunks of the message have arrived before event i. */
  function Seen(events: seq<Event>, key: Key, i: nat): set<nat>
    requires i <= |events|
  {
    if i == 0 then {}
    else if For(events[i - 1], key) then Seen(events, key, i - 1) + {HeaderOf(events[i - 1]).chunkIdx}
    else Seen(events, key, i - 1)
  }

  function AllChunks(n: nat): (s: set<nat>)
    ensures forall j: nat :: j in s <==> j < n
  {
    if n == 0 then {} else AllChunks(n - 1) + {n - 1}
  }

  ghost predicate AllCarry(events: seq<Event>, key: Key, p: seq<byte>, n: nat)
    requires MIN_CHUNKS <= n <= MAX_CHUNKS
  {
    forall i | 0 <= i < |events| && For(events[i], key) :: Carries(events[i], p, n)
  }

  ghost predicate KeptWhileMissing(states: seq<Table>, events: seq<Event>, key: Key, n: nat)
    requires |states| == |events| + 1
  {
    forall i | 0 <= i <= |events| && Seen(events, key, i) != {} && Seen(events, key, i) < AllChunks(n) ::
      key in states[i]
  }

  /** All frames of the message carry chunks of p, and once its entry was made it was
      neither refused, expired nor evicted while chunks were missing. */
  ghost predicate OneMessage(states: seq<Table>, events: seq<Event>, key: Key, p: seq<byte>, n: nat)
    requires |states| == |events| + 1 && MIN_CHUNKS <= n <= MAX_CHUNKS
  {
    key !in states[0] && AllCarry(events, key, p, n) && KeptWhileMissing(states, events, key, n)
  }

  /** The entry holds the chunks of p seen so far, and only those. */
  ghost predicate Partial(e: Entry, parts: seq<seq<byte>>, seen: set<nat>) {
    && e.total == |parts| == |e.chunks|
    && e.received == Filled(e.chunks)
    && forall j: nat | j < |parts| :: e.chunks[j] == if j in seen then Some(parts[j]) else None
  }

  ghost predicate InProgress(t: Table, key: Key, p: seq<byte>, n: nat, seen: set<nat>)
    requires MIN_CHUNKS <= n <= MAX_CHUNKS
  {
    if seen == {} then key !in t else key in t && Partial(t[key], Split(p, n), seen)
  }

  lemma NewEntryIsPartial(h: Header, now: int, parts: seq<seq<byte>>)
    requires ValidHeader(h) && |parts| == h.totalChunks
    ensures Partial(NewEntry(h, now), parts, {})
  {
    FilledNone(h.totalChunks);
  }

  lemma OtherEventsLeaveIt(t: Table, e: Event, key: Key)
    requires !For(e, key)
    ensures key in After(t, e).0 ==> key in t && After(t, e).0[key] == t[key]
  {
  }

  lemma FilledEntry(e: Entry, idx: nat, parts: seq<seq<byte>>, seen: set<nat>)
    requires Partial(e, parts, seen) && idx < |parts| && idx !in seen
    ensures var e' := Plus(e, idx, parts[idx]);
            && Partial(e', parts, seen + {idx})
            && (e'.received < e'.total <==> exists j :: 0 <= j < |parts| && e'.chunks[j].None?)
            && e'.received <= e'.total
  {
    FilledUpdate(e.chunks, idx, parts[idx]);
    FilledAll(e.chunks[idx := Some(parts[idx])]);
  }

  lemma MiddleChunk(room: Table, key: Key, e: Entry, h: Header, parts: seq<seq<byte>>, seen: set<nat>, j: nat)
    requires ValidHeader(h) && h.totalChunks == |parts| && Partial(e, parts, seen)
    requires j < |parts| && j !in seen && j != h.chunkIdx
    ensures var (u, out) := Fill(room, key, e, h, parts[h.chunkIdx]);
            key in u && Partial(u[key], parts, seen + {h.chunkIdx}) && out == None
  {
    var idx: nat := h.chunkIdx;
    if idx in seen {
      assert seen + {idx} == seen;
    } else {
      FilledEntry(e, idx, parts, seen);
      assert Plus(e, idx, parts[idx]).chunks[j].None?;
    }
  }

  lemma LastChunk(room: Table, key: Key, e: Entry, h: Header, parts: seq<seq<byte>>, seen: set<nat>)
    requires ValidHeader(h) && h.totalChunks == |parts| && Partial(e, parts, seen) && h.chunkIdx !in seen
    requires forall j: nat | j < |parts| :: j in seen || j == h.chunkIdx
    ensures Fill(room, key, e, h, parts[h.chunkIdx]).1 == Some(Joined(parts))
  {
    var idx: nat := h.chunkIdx;
    FilledEntry(e, idx, parts, seen);
    var chunks := Plus(e, idx, parts[idx]).chunks;
    assert forall j: nat | j < |parts| :: chunks[j] == Some(parts[j]);
    assert Values(chunks) == parts;
  }

  lemma FilledChunk(room: Table, key: Key, e: Entry, h: Header, parts: seq<seq<byte>>, seen: set<nat>)
    requires ValidHeader(h) && h.totalChunks == |parts|
    requires Partial(e, parts, seen) && seen < AllChunks(|parts|)
    ensures var (u, out) := Fill(room, key, e, h, parts[h.chunkIdx]);
            var seen' := seen + {h.chunkIdx};
            && (seen' < AllChunks(|parts|) ==> key in u && Partial(u[key], parts, seen') && out == None)
            && (seen' == AllChunks(|parts|) ==> out == Some(Joined(parts)))
  {
    var seen' := seen + {h.chunkIdx};
    if seen' == AllChunks(|parts|) {
      assert h.chunkIdx !in seen;
      assert forall j: nat | j < |parts| :: j in seen';
      LastChunk(room, key, e, h, parts, seen);
    } else if seen' < AllChunks(|parts|) {
      var j :| j in AllChunks(|parts|) && j !in seen';
      MiddleChunk(room, key, e, h, parts, seen, j);
    }
  }

  lemma AcceptedChunk(t: Table, e: Event, key: Key, p: seq<byte>, n: nat, seen: set<nat>)
    requires MIN_CHUNKS <= n <= MAX_CHUNKS && For(e, key) && Carries(e, p, n)
    requires InProgress(t, key, p, n, seen) && seen < AllChunks(n)
    ensures var (u, out) := After(t, e);
            var seen' := seen + {HeaderOf(e).chunkIdx};
            && (seen' < AllChunks(n) && key in u ==> InProgress(u, key, p, n, seen'))
            && (seen' < AllChunks(n) ==> out == None)
            && (seen' == AllChunks(n) && !Refused(t, key, HeaderOf(e)) ==> out == Some(p))
            && (seen' == AllChunks(n) ==> seen != {})
  {
    var h := HeaderOf(e);
    CarriedChunk(e, p, n);
    NewEntryIsPartial(h, e.now, Split(p, n));
    SplitJoins(p, n);
    if !Refused(t, key, h) {
      FilledChunk(if key in t then t else WithRoom(t, e.victim), key, EntryFor(t, key, h, e.now), h, Split(p, n), seen);
    }
    assert 0 in AllChunks(n) && 1 in AllChunks(n);
  }

  lemma SeenGrows(events: seq<Event>, key: Key, i: nat)
    requires i < |events|
    ensures Seen(events, key, i) <= Seen(events, key, i + 1)
  {
  }

  lemma {:induction false} SeenInRange(events: seq<Event>, key: Key, p: seq<byte>, n: nat, i: nat)
    requires i <= |events| && MIN_CHUNKS <= n <= MAX_CHUNKS && AllCarry(events, key, p, n)
    ensures Seen(events, key, i) <= AllChunks(n)
  {
    if i > 0 {
      SeenInRange(events, key, p, n, i - 1);
      if For(events[i - 1], key) {
        CarriedChunk(events[i - 1], p, n);
      }
    }
  }

  lemma ProgressStep(t: Table, e: Event, key: Key, p: seq<byte>, n: nat, seen: set<nat>)
    requires MIN_CHUNKS <= n <= MAX_CHUNKS && InProgress(t, key, p, n, seen) && seen < AllChunks(n)
    requires For(e, key) ==> Carries(e, p, n)
    ensures var u, seen' := After(t, e).0, if For(e, key) then seen + {HeaderOf(e).chunkIdx} else seen;
            seen' < AllChunks(n) && (seen' != {} ==> key in u) ==> InProgress(u, key, p, n, seen')
  {
    if For(e, key) {
      AcceptedChunk(t, e, key, p, n, seen);
    } else {
      OtherEventsLeaveIt(t, e, key);
    }
  }

  lemma {:induction false} ProgressHolds(
      states: seq<Table>, events: seq<Event>, key: Key, p: seq<byte>, n: nat, i: nat)
    requires IsRun(states, events) && MIN_CHUNKS <= n <= MAX_CHUNKS
    requires OneMessage(states, events, key, p, n)
    requires i <= |events| && Seen(events, key, i) < AllChunks(n)
    ensures InProgress(states[i], key, p, n, Seen(events, key, i))
  {
    if i > 0 {
      SeenGrows(events, key, i - 1);
      ProgressHolds(states, events, key, p, n, i - 1);
      ProgressStep(states[i - 1], events[i - 1], key, p, n, Seen(events, key, i - 1));
      assert states[i] == After(states[i - 1], events[i - 1]).0;
    }
  }

  /** Chunks of a packet split any way from 2 to 8, under any padding, in any order, with
      repeats, and with anything else in between: the chunk that completes the set yields
      exactly the packet, and no earlier one yields anything. */
  lemma PacketReassembled(
      states: seq<Table>, events: seq<Event>, key: Key, p: seq<byte>, n: nat, i: nat)
    requires IsRun(states, events) && MIN_CHUNKS <= n <= MAX_CHUNKS
    requires OneMessage(states, events, key, p, n)
    requires i < |events| && For(events[i], key)
    requires Seen(events, key, i) < AllChunks(n)
    ensures After(states[i], events[i]).1
            == if Seen(events, key, i + 1) == AllChunks(n) then Some(p) else None
  {
    var e := events[i];
    ProgressHolds(states, events, key, p, n, i);
    SeenInRange(events, key, p, n, i + 1);
    AcceptedChunk(states[i], e, key, p, n, Seen(events, key, i));
    CarriedChunk(e, p, n);
    assert Seen(events, key, i + 1) == AllChunks(n) || Seen(events, key, i + 1) < AllChunks(n);
  }

  // ------------------------------------------------------------ how entries come and go

  /** The first chunk of a message: refused when its source has eight entries, and otherwise
      the only chunk of a new entry that is good for eight seconds. */
  lemma ChunkOpens(t: Table, e: Event, key: Key)
    requires For(e, key) && key !in t
    ensures |FromSource(t, key.addr)| >= 8 ==> After(t, e) == (t, None)
    ensures |FromSource(t, key.addr)| < 8 ==>
              var h := HeaderOf(e);
              var (u, out) := After(t, e);
              && out == None && key in u
              && u[key].total == h.totalChunks == |u[key].chunks| && u[key].received == 1
              && u[key].deadline == e.now + 8 * SECOND
              && forall i | 0 <= i < |u[key].chunks| ::
                   u[key].chunks[i] == if i == h.chunkIdx then Some(DecodeFrame(e.frame).value.1) else None
  {
    if |FromSource(t, key.addr)| < 8 {
      var h, payload := HeaderOf(e), DecodeFrame(e.frame).value.1;
      var made := NewEntry(h, e.now);
      assert Fill(WithRoom(t, e.victim), key, made, h, payload)
          == (WithRoom(t, e.victim)[key := Plus(made, h.chunkIdx, payload)], None);
    }
  }

  /** A later chunk: ignored when its message disagrees on the number of chunks or has it
      already, stored while others are missing, and otherwise the end of the entry, which
      comes out joined. */
  lemma ChunkFills(t: Table, e: Event, key: Key)
    requires For(e, key) && key in t && ValidEntry(t[key])
    ensures var h, payload := HeaderOf(e), DecodeFrame(e.frame).value.1;
            var had := t[key];
            var (u, out) := After(t, e);
            if h.totalChunks != had.total || had.chunks[h.chunkIdx].Some? then (u, out) == (t, None)
            else
              var chunks := had.chunks[h.chunkIdx := Some(payload)];
              if had.received + 1 < had.total then
                u == t[key := had.(chunks := chunks, received := had.received + 1)] && out == None
              else
                && u == t - {key} && (forall i | 0 <= i < |chunks| :: chunks[i].Some?)
                && out == Some(Joined(Values(chunks)))
  {
    var h, payload := HeaderOf(e), DecodeFrame(e.frame).value.1;
    var had := t[key];
    if h.totalChunks == had.total {
      if had.chunks[h.chunkIdx].Some? {
        assert t[key := had] == t;
      } else {
        FilledUpdate(had.chunks, h.chunkIdx, payload);
        FilledAll(had.chunks[h.chunkIdx := Some(payload)]);
      }
    }
  }

  /** The datagram starts an entry of its own. */
  predicate Opens(t: Table, e: Event) {
    Decodes(e) && Key(e.addr, HeaderOf(e).msgId) !in t && |FromSource(t, e.addr)| < 8
  }

  /** What an event does to any other message: nothing, but that the collector drops it past
      its deadline, and a new entry at a full table costs one entry, the victim's. */
  lemma OthersStay(t: Table, e: Event, key: Key)
    requires !For(e, key)
    ensures key in After(t, e).0 <==>
              && key in t
              && !(e.Collect? && t[key].deadline < e.now)
              && !(Opens(t, e) && |t| >= 4096 && key == e.victim)
    ensures key in After(t, e).0 ==> After(t, e).0[key] == t[key]
  {
    if Decodes(e) {
      var (h, payload) := DecodeFrame(e.frame).value;
      var other := Key(e.addr, h.msgId);
      if !Refused(t, other, h) {
        var room := if other in t then t else WithRoom(t, e.victim);
        OthersInRoom(room, other, EntryFor(t, other, h, e.now), h, payload, key);
      }
    }
  }

  lemma OthersInRoom(room: Table, other: Key, e: Entry, h: Header, payload: seq<byte>, key: Key)
    requires ValidHeader(h) && key != other
    ensures var u := Fill(room, other, e, h, payload).0;
            (key in u <==> key in room) && (key in u ==> u[key] == room[key])
  {
  }

  /** What comes out of a read that is no fragment: a packet of the short form and nothing else. */
  lemma OnlyShortFormsPass(t: Table, e: Event)
    requires e.Arrive? && !Decodes(e)
    ensures After(t, e) == (t, if e.frame != [] && e.frame[0] < 0x80 then Some(e.frame) else None)
  {
  }

  lemma DeadlineIsTheOpeners(t: Table, e: Event, key: Key)
    requires Bounded(t) && key in After(t, e).0
    ensures key in t ==> After(t, e).0[key].deadline == t[key].deadline
    ensures key !in t ==> For(e, key) && After(t, e).0[key].deadline == e.now + 8 * SECOND
  {
    if !For(e, key) {
      OthersStay(t, e, key);
    } else if key in t {
      ChunkFills(t, e, key);
    } else {
      ChunkOpens(t, e, key);
    }
  }

  lemma DeadlineInRun(states: seq<Table>, events: seq<Event>, i: nat, key: Key)
    requires IsRun(states, events) && states[0] == map[] && i < |events| && key in states[i + 1]
    ensures key in states[i] ==> states[i + 1][key].deadline == states[i][key].deadline
    ensures key !in states[i] ==> For(events[i], key) && states[i + 1][key].deadline == events[i].now + 8 * SECOND
  {
    RunsStayBounded(states, events, i);
    assert states[i + 1] == After(states[i], events[i]).0;
    DeadlineIsTheOpeners(states[i], events[i], key);
  }

  /** Every entry was opened by a chunk of its message, has been there since, and is due eight
      seconds after it. */
  lemma {:induction false} OpenedBy(states: seq<Table>, events: seq<Event>, i: nat, key: Key) returns (j: nat)
    requires IsRun(states, events) && states[0] == map[] && i < |states| && key in states[i]
    ensures j < i && For(events[j], key) && key !in states[j]
    ensures forall m {:trigger states[m]} | j < m <= i :: key in states[m]
    ensures states[i][key].deadline == events[j].now + 8 * SECOND
  {
    DeadlineInRun(states, events, i - 1, key);
    if key in states[i - 1] {
      j := OpenedBy(states, events, i - 1, key);
    } else {
      j := i - 1;
    }
  }

  /** A pass of the collector leaves exactly the entries whose first chunk arrived no more than
      eight seconds before, as they are. */
  lemma CollectedExactly(states: seq<Table>, events: seq<Event>, i: nat, key: Key) returns (j: nat)
    requires IsRun(states, events) && states[0] == map[] && i < |events|
    requires events[i].Collect? && key in states[i]
    ensures j < i && For(events[j], key) && key !in states[j]
    ensures forall m {:trigger states[m]} | j < m <= i :: key in states[m]
    ensures key in states[i + 1] <==> events[i].now <= events[j].now + 8 * SECOND
    ensures key in states[i + 1] ==> states[i + 1][key] == states[i][key]
  {
    j := OpenedBy(states, events, i, key);
    OthersStay(states[i], events[i], key);
    assert states[i + 1] == After(states[i], events[i]).0;
  }

  /** A source none of whose chunks came in the last eight seconds has no entry after the
      collector's pass, so whatever it lost before, its next message is admitted. */
  lemma SourceIsReadmitted(states: seq<Table>, events: seq<Event>, i: nat, addr: string, e: Event)
    requires IsRun(states, events) && states[0] == map[] && i < |events| && events[i].Collect?
    requires forall j | 0 <= j < i && Decodes(events[j]) && events[j].addr == addr :: events[j].now + 8 * SECOND < events[i].now
    requires Decodes(e) && e.addr == addr
    ensures FromSource(states[i + 1], addr) == {}
    ensures Key(addr, HeaderOf(e).msgId) in After(states[i + 1], e).0
  {
    forall key | key in states[i + 1]
      ensures key.addr != addr
    {
      assert states[i + 1] == After(states[i], events[i]).0;
      OthersStay(states[i], events[i], key);
      var j := CollectedExactly(states, events, i, key);
    }
    ChunkOpens(states[i + 1], e, Key(addr, HeaderOf(e).msgId));
  }

  // ------------------------------------------------------------ when an entry survives

  /** The first chunk of the message is event f. Its source has fewer than eight entries then,
      and while chunks are missing no pass of the collector comes more than the entry's time to
      live after it and no datagram finds the table full. */
  ghost predicate Undisturbed(states: seq<Table>, events: seq<Event>, key: Key, n: nat, f: nat)
    requires |states| == |events| + 1
  {
    && f < |events| && For(events[f], key)
    && (forall i | 0 <= i < f :: !For(events[i], key))
    && |FromSource(states[f], key.addr)| < MAX_PER_SOURCE
    && forall i {:trigger states[i]} | f < i < |events| && Seen(events, key, i) < AllChunks(n) ::
         if events[i].Collect? then events[i].now <= events[f].now + TTL else |states[i]| < MAX_REASSEMBLY
  }

  /** An entry made at since that holds the parts seen, and only those. */
  ghost predicate OpenSince(t: Table, key: Key, parts: seq<seq<byte>>, seen: set<nat>, since: int) {
    seen != {} && key in t && Partial(t[key], parts, seen) && t[key].deadline == since + TTL
  }

  /** The frame brings one of the parts. */
  predicate Brings(e: Event, parts: seq<seq<byte>>)
    requires Decodes(e)
  {
    HeaderOf(e).totalChunks == |parts| && DecodeFrame(e.frame).value.1 == parts[HeaderOf(e).chunkIdx]
  }

  ghost predicate AllBring(events: seq<Event>, key: Key, parts: seq<seq<byte>>) {
    forall i | 0 <= i < |events| && For(events[i], key) :: Brings(events[i], parts)
  }

  lemma CarryingBrings(events: seq<Event>, key: Key, p: seq<byte>, n: nat)
    requires MIN_CHUNKS <= n <= MAX_CHUNKS && AllCarry(events, key, p, n)
    ensures AllBring(events, key, Split(p, n))
  {
    forall i | 0 <= i < |events| && For(events[i], key)
      ensures Brings(events[i], Split(p, n))
    {
      CarriedChunk(events[i], p, n);
    }
  }

  lemma {:induction false} NothingBeforeFirst(states: seq<Table>, events: seq<Event>, key: Key, f: nat, i: nat)
    requires IsRun(states, events) && key !in states[0]
    requires i <= f <= |events| && forall k | 0 <= k < f :: !For(events[k], key)
    ensures key !in states[i] && Seen(events, key, i) == {}
  {
    if i > 0 {
      NothingBeforeFirst(states, events, key, f, i - 1);
      OtherEventsLeaveIt(states[i - 1], events[i - 1], key);
    }
  }

  lemma FirstChunkOpens(t: Table, e: Event, key: Key, parts: seq<seq<byte>>)
    requires For(e, key) && Brings(e, parts)
    requires key !in t && |FromSource(t, key.addr)| < MAX_PER_SOURCE
    ensures OpenSince(After(t, e).0, key, parts, {HeaderOf(e).chunkIdx}, e.now)
  {
    var h := HeaderOf(e);
    NewEntryIsPartial(h, e.now, parts);
    var j: nat := if h.chunkIdx == 0 then 1 else 0;
    MiddleChunk(WithRoom(t, e.victim), key, NewEntry(h, e.now), h, parts, {}, j);
    assert {} + {h.chunkIdx} == {h.chunkIdx};
    FillKeepsDeadline(WithRoom(t, e.victim), key, NewEntry(h, e.now), h, parts[h.chunkIdx]);
  }

  lemma FillKeepsDeadline(room: Table, key: Key, e: Entry, h: Header, payload: seq<byte>)
    requires ValidHeader(h)
    ensures var u := Fill(room, key, e, h, payload).0; key in u ==> u[key].deadline == e.deadline
  {
  }

  lemma NextChunkKeepsOpen(t: Table, e: Event, key: Key, parts: seq<seq<byte>>, seen: set<nat>, since: int)
    requires For(e, key) && Brings(e, parts)
    requires OpenSince(t, key, parts, seen, since) && seen + {HeaderOf(e).chunkIdx} < AllChunks(|parts|)
    ensures OpenSince(After(t, e).0, key, parts, seen + {HeaderOf(e).chunkIdx}, since)
  {
    var h := HeaderOf(e);
    var j :| j in AllChunks(|parts|) && j !in seen + {h.chunkIdx};
    MiddleChunk(t, key, t[key], h, parts, seen, j);
    FillKeepsDeadline(t, key, t[key], h, parts[h.chunkIdx]);
  }

  lemma FillLeavesOthers(room: Table, other: Key, e: Entry, h: Header, payload: seq<byte>, key: Key)
    requires ValidHeader(h) && key != other && key in room
    ensures key in Fill(room, other, e, h, payload).0 && Fill(room, other, e, h, payload).0[key] == room[key]
  {
  }

  lemma OthersKeepOpen(t: Table, e: Event, key: Key)
    requires !For(e, key) && key in t
    requires if e.Collect? then e.now <= t[key].deadline else |t| < MAX_REASSEMBLY
    ensures key in After(t, e).0 && After(t, e).0[key] == t[key]
  {
    if Decodes(e) {
      var (h, payload) := DecodeFrame(e.frame).value;
      var other := Key(e.addr, h.msgId);
      if !Refused(t, other, h) {
        FillLeavesOthers(t, other, EntryFor(t, other, h, e.now), h, payload, key);
      }
    }
  }

  function SeenAfter(seen: set<nat>, e: Event, key: Key): set<nat> {
    if For(e, key) then seen + {HeaderOf(e).chunkIdx} else seen
  }

  lemma SeenNext(events: seq<Event>, key: Key, i: nat)
    requires i < |events|
    ensures Seen(events, key, i + 1) == SeenAfter(Seen(events, key, i), events[i], key)
  {
  }

  lemma OpenStep(t: Table, e: Event, key: Key, parts: seq<seq<byte>>, seen: set<nat>, since: int)
    requires OpenSince(t, key, parts, seen, since) && (For(e, key) ==> Brings(e, parts))
    requires if e.Collect? then e.now <= since + TTL else |t| < MAX_REASSEMBLY
    requires SeenAfter(seen, e, key) < AllChunks(|parts|)
    ensures OpenSince(After(t, e).0, key, parts, SeenAfter(seen, e, key), since)
  {
    if For(e, key) {
      NextChunkKeepsOpen(t, e, key, parts, seen, since);
    } else {
      OthersKeepOpen(t, e, key);
    }
  }

  lemma OpensAtFirst(states: seq<Table>, events: seq<Event>, key: Key, parts: seq<seq<byte>>, f: nat)
    requires IsRun(states, events) && key !in states[0]
    requires AllBring(events, key, parts) && Undisturbed(states, events, key, |parts|, f)
    ensures OpenSince(states[f + 1], key, parts, Seen(events, key, f + 1), events[f].now)
  {
    NothingBeforeFirst(states, events, key, f, f);
    SeenNext(events, key, f);
    FirstChunkOpens(states[f], events[f], key, parts);
    assert {} + {HeaderOf(events[f]).chunkIdx} == {HeaderOf(events[f]).chunkIdx};
  }

  lemma StillMissing(events: seq<Event>, key: Key, n: nat, i: nat)
    requires i < |events| && Seen(events, key, i + 1) < AllChunks(n)
    ensures Seen(events, key, i) < AllChunks(n)
  {
    SeenGrows(events, key, i);
  }

  lemma StaysOpenNext(states: seq<Table>, events: seq<Event>, key: Key, parts: seq<seq<byte>>, f: nat, i: nat)
    requires IsRun(states, events)
    requires AllBring(events, key, parts) && Undisturbed(states, events, key, |parts|, f)
    requires f < i < |events| && Seen(events, key, i + 1) < AllChunks(|parts|)
    requires OpenSince(states[i], key, parts, Seen(events, key, i), events[f].now)
    ensures OpenSince(states[i + 1], key, parts, Seen(events, key, i + 1), events[f].now)
  {
    StillMissing(events, key, |parts|, i);
    SeenNext(events, key, i);
    OpenStep(states[i], events[i], key, parts, Seen(events, key, i), events[f].now);
    assert states[i + 1] == After(states[i], events[i]).0;
  }

  lemma {:induction false} MissingBefore(events: seq<Event>, key: Key, n: nat, k: nat, i: nat)
    requires k <= i <= |events| && Seen(events, key, i) < AllChunks(n)
    ensures Seen(events, key, k) < AllChunks(n)
    decreases i
  {
    if k < i {
      StillMissing(events, key, n, i - 1);
      MissingBefore(events, key, n, k, i - 1);
    }
  }

  lemma StaysOpen(states: seq<Table>, events: seq<Event>, key: Key, parts: seq<seq<byte>>, f: nat, i: nat)
    requires IsRun(states, events) && key !in states[0]
    requires AllBring(events, key, parts) && Undisturbed(states, events, key, |parts|, f)
    requires f < i <= |events| && Seen(events, key, i) < AllChunks(|parts|)
    ensures OpenSince(states[i], key, parts, Seen(events, key, i), events[f].now)
  {
    OpensAtFirst(states, events, key, parts, f);
    for k := f + 1 to i
      invariant OpenSince(states[k], key, parts, Seen(events, key, k), events[f].now)
    {
      MissingBefore(events, key, |parts|, k + 1, i);
      StaysOpenNext(states, events, key, parts, f, k);
    }
  }

  /** So the premise about the tables follows from times and counts: an undisturbed message is
      kept while chunks are missing, and its last chunk yields the packet. */
  lemma UndisturbedIsReassembled(
      states: seq<Table>, events: seq<Event>, key: Key, p: seq<byte>, n: nat, f: nat, i: nat)
    requires IsRun(states, events) && MIN_CHUNKS <= n <= MAX_CHUNKS
    requires key !in states[0] && AllCarry(events, key, p, n) && Undisturbed(states, events, key, n, f)
    requires i < |events| && For(events[i], key) && Seen(events, key, i) < AllChunks(n)
    ensures OneMessage(states, events, key, p, n)
    ensures After(states[i], events[i]).1
            == if Seen(events, key, i + 1) == AllChunks(n) then Some(p) else None
  {
    CarryingBrings(events, key, p, n);
    forall k | 0 <= k <= |events| && Seen(events, key, k) != {} && Seen(events, key, k) < AllChunks(n)
      ensures key in states[k]
    {
      if k <= f {
        NothingBeforeFirst(states, events, key, f, k);
      } else {
        StaysOpen(states, events, key, Split(p, n), f, k);
      }
    }
    PacketReassembled(states, events, key, p, n, i);
  }

  // ------------------------------------------------------------ a run that meets the premises

  lemma HalfFrame(p: seq<byte>, key: Key, noise: seq<byte>, j: nat, now: int) returns (e: Event)
    requires |noise| < 0x1_0000 && j < 2
    ensures For(e, key) && Carries(e, p, 2)
    ensures HeaderOf(e).chunkIdx == j && HeaderOf(e).totalChunks == 2
  {
    var h := Header(|noise|, key.msgId, j, 2);
    FrameRoundTrip(h, noise, Chunk(p, 2, j));
    e := Arrive(key.addr, Frame(h, noise, Chunk(p, 2, j)), now, key);
    assert IsChunkFrame(e.frame, p, 2, j, key.msgId, |noise|);
  }

  lemma HalvesOf(s: set<nat>)
    ensures s == {0} ==> s < AllChunks(2)
    ensures s == {0, 1} ==> s == AllChunks(2)
  {
    assert 1 in AllChunks(2) && 0 in AllChunks(2);
  }

  lemma FirstHalfOpens(e: Event, key: Key, p: seq<byte>)
    requires For(e, key) && Carries(e, p, 2) && HeaderOf(e).chunkIdx == 0 && HeaderOf(e).totalChunks == 2
    ensures InProgress(After(map[], e).0, key, p, 2, {0}) && |After(map[], e).0| == 1
  {
    var t: Table, h := map[], HeaderOf(e);
    assert FromSource(t, key.addr) == {};
    CarriedChunk(e, p, 2);
    NewEntryIsPartial(h, e.now, Split(p, 2));
    MiddleChunk(t, key, NewEntry(h, e.now), h, Split(p, 2), {}, 1);
    assert {} + {0} == {0};
    var u := After(t, e).0;
    assert u == map[key := u[key]];
  }

  lemma SecondHalfCompletes(t: Table, e: Event, key: Key, p: seq<byte>)
    requires For(e, key) && Carries(e, p, 2) && HeaderOf(e).chunkIdx == 1 && HeaderOf(e).totalChunks == 2
    requires InProgress(t, key, p, 2, {0})
    ensures After(t, e).1 == Some(p)
  {
    HalvesOf({0});
    HalvesOf({0} + {1});
    AcceptedChunk(t, e, key, p, 2, {0});
  }

  /** The premises above can be met, for every packet: its two halves, arriving in order under
      any padding at a table with no entries, are such a run, and the second yields the packet. */
  lemma TwoChunksReassemble(p: seq<byte>, key: Key, first: seq<byte>, second: seq<byte>, now: int, later: int)
      returns (states: seq<Table>, events: seq<Event>)
    requires |first| < 0x1_0000 && |second| < 0x1_0000
    ensures IsRun(states, events) && OneMessage(states, events, key, p, 2) && |events| == 2
    ensures Undisturbed(states, events, key, 2, 0)
    ensures After(states[1], events[1]).1 == Some(p)
  {
    var e0 := HalfFrame(p, key, first, 0, now);
    var e1 := HalfFrame(p, key, second, 1, later);
    FirstHalfOpens(e0, key, p);
    SecondHalfCompletes(After(map[], e0).0, e1, key, p);
    events := [e0, e1];
    states := TwoSteps(e0, e1);
    BothCarry(e0, e1, key, p);
    SeenTwo(events, key);
    KeptBetween(states, events, key);
    QuietBetween(states, events, key);
  }

  lemma QuietBetween(states: seq<Table>, events: seq<Event>, key: Key)
    requires |events| == 2 && |states| == 3 && states[0] == map[] && |states[1]| == 1
    requires For(events[0], key) && events[1].Arrive?
    ensures Undisturbed(states, events, key, 2, 0)
  {
    assert FromSource(states[0], key.addr) == {};
  }

  lemma TwoSteps(e0: Event, e1: Event) returns (states: seq<Table>)
    requires |After(map[], e0).0| == 1
    ensures IsRun(states, [e0, e1]) && states[0] == map[] && states[1] == After(map[], e0).0
  {
    var none: Table := map[];
    var t1 := After(none, e0).0;
    states := [none, t1, After(t1, e1).0];
  }

  lemma BothCarry(e0: Event, e1: Event, key: Key, p: seq<byte>)
    requires Decodes(e0) && Carries(e0, p, 2) && Decodes(e1) && Carries(e1, p, 2)
    ensures AllCarry([e0, e1], key, p, 2)
  {
  }

  lemma SeenTwo(events: seq<Event>, key: Key)
    requires |events| == 2 && For(events[0], key) && For(events[1], key)
    requires HeaderOf(events[0]).chunkIdx == 0 && HeaderOf(events[1]).chunkIdx == 1
    ensures Seen(events, key, 0) == {} && Seen(events, key, 2) == AllChunks(2)
  {
    var one := Seen(events, key, 1);
    assert one == Seen(events, key, 0) + {0} == {0};
    assert Seen(events, key, 2) == one + {1};
    HalvesOf({0} + {1});
  }

  lemma KeptBetween(states: seq<Table>, events: seq<Event>, key: Key)
    requires |events| == 2 && |states| == 3 && key in states[1]
    requires Seen(events, key, 0) == {} && Seen(events, key, 2) == AllChunks(2)
    ensures KeptWhileMissing(states, events, key, 2)
  {
  }
}
