/** The disco envelope and its five payloads (extras/realm/disco.go). */
module DiscoCodec {
  import opened Clock
  import opened Net
  import opened Results
  import opened Aead

  const VERSION: byte := 0x02
  const DISCO_TAG_LEN: nat := 8
  const HEADER_LEN: nat := 12
  const MIN_WIRE: nat := DISCO_TAG_LEN + NONCE_LEN + HEADER_LEN + TAG_LEN
  const MAX_WIRE: nat := 1452
  const EPOCH_SECONDS: nat := 120
  const MAX_SKEW: int := 30 * SECOND
  const MAX_CANDIDATES: nat := 16
  const MIN_SECRET_LEN: nat := 32
  const FAMILY_V4: byte := 0x04
  const FAMILY_V6: byte := 0x06

  const PROBE: byte := 0x10
  const PONG: byte := 0x11
  const CALLME: byte := 0x12
  const BIND: byte := 0x13
  const BINDACK: byte := 0x14

  type Token = s: seq<byte> | |s| == 8 witness [0, 0, 0, 0, 0, 0, 0, 0]
  type Nonce = s: seq<byte> | |s| == 12 witness [0, 0, 0, 0, 0, 0, 0, 0, 0, 0, 0, 0]
  type i64 = n: int | -0x8000_0000_0000_0000 <= n < 0x8000_0000_0000_0000

  datatype Error =
    | NotDisco
    | AuthFailed
    | BadVersion
    | Skewed(skew: int)
    | Invalid
    | SecretTooShort

  // ------------------------------------------------------------ packets

  datatype Header = Header(typ: byte, seqno: u32, ts: int)
  datatype Probe = Probe(token: Token, txMicros: i64)
  datatype Pong = Pong(token: Token, txMicrosEcho: i64, observed: AddrPort)
  datatype Candidate = Candidate(addr: AddrPort, priority: byte)
  // BIND carries a claimed address and BINDACK an observed one, in the same form.
  datatype Bind = Bind(nonce: Bytes16, addr: AddrPort)

  /** One payload field is meant to be set, the one the header's type names. */
  datatype Packet = Packet(
    header: Header,
    probe: Option<Probe>,
    pong: Option<Pong>,
    callMe: Option<seq<Candidate>>,
    bind: Option<Bind>,
    bindAck: Option<Bind>)

  function Bare(h: Header): Packet {
    Packet(h, None, None, None, None, None)
  }

  // ------------------------------------------------------------ keys and tags

  type Tag = Token

  // Tag derivation from a tag key and an epoch number, left uninterpreted.
  type Kdf = (Key, nat) -> Tag

  datatype Keys = Keys(tagSend: Key, tagRecv: Key, seal: Key, open: Key)

  const CTX_TAG_C2S := "chameleon/realm/disco-v1/tag/c2s"
  const CTX_TAG_S2C := "chameleon/realm/disco-v1/tag/s2c"
  const CTX_BODY_C2S := "chameleon/realm/disco-v1/body/c2s"
  const CTX_BODY_S2C := "chameleon/realm/disco-v1/body/s2c"

  function NewKeys(secret: seq<byte>, server: bool): Result<Keys, Error> {
    if |secret| < MIN_SECRET_LEN then Err(SecretTooShort)
    else
      var tagC2S, tagS2C := Key(secret, CTX_TAG_C2S), Key(secret, CTX_TAG_S2C);
      var bodyC2S, bodyS2C := Key(secret, CTX_BODY_C2S), Key(secret, CTX_BODY_S2C);
      if server then Ok(Keys(tagS2C, tagC2S, bodyS2C, bodyC2S))
      else Ok(Keys(tagC2S, tagS2C, bodyC2S, bodyS2C))
  }

  /** A uint64 counting epochs since 1970; times before that count as the first. */
  function EpochOf(now: int): nat {
    var secs := Unix(now);
    (if secs < 0 then 0 else secs) / EPOCH_SECONDS
  }

  function SendTag(kdf: Kdf, k: Keys, now: int): Tag {
    kdf(k.tagSend, EpochOf(now))
  }

  /** The epoch before, as a uint64. */
  function Before(epoch: nat): nat {
    if epoch == 0 then 0xFFFF_FFFF_FFFF_FFFF else epoch - 1
  }

  function EpochTags(kdf: Kdf, k: Keys, epoch: nat): (tags: seq<Tag>)
    ensures |tags| == 3
  {
    [kdf(k.tagRecv, Before(epoch)), kdf(k.tagRecv, epoch), kdf(k.tagRecv, epoch + 1)]
  }

  function RecvTags(kdf: Kdf, k: Keys, now: int): (tags: seq<Tag>)
    ensures |tags| == 3
  {
    EpochTags(kdf, k, EpochOf(now))
  }

  // ------------------------------------------------------------ addresses

  function AppendAddr(dst: seq<byte>, a: AddrPort): Result<seq<byte>, Error> {
    match Unmap(a.addr)
    case V4(b) => Ok(dst + [FAMILY_V4] + b + PutU16(a.port))
    case V6(b, _) => Ok(dst + [FAMILY_V6] + b + PutU16(a.port))
    case NoAddr => Err(Invalid)
  }

  function ParseAddr(b: seq<byte>): (r: Result<(AddrPort, nat), Error>)
    ensures r.Ok? ==> 0 < r.value.1 <= |b|
    ensures r.Err? ==> r.error == Invalid
  {
    if |b| < 1 then Err(Invalid)
    else if b[0] == FAMILY_V4 then
      if |b| < 7 then Err(Invalid) else Ok((AddrPort(V4(b[1..5]), U16(b[5..7])), 7))
    else if b[0] == FAMILY_V6 then
      if |b| < 19 then Err(Invalid) else Ok((AddrPort(Unmap(V6(b[1..17], "")), U16(b[17..19])), 19))
    else Err(Invalid)
  }

  /** An address as it comes back: in the form everything is compared in, without a zone. */
  function WireAddr(a: AddrPort): AddrPort {
    match Unmap(a.addr)
    case V6(b, _) => AddrPort(V6(b, ""), a.port)
    case other => AddrPort(other, a.port)
  }

  function AddrBytes(a: AddrPort): seq<byte>
    requires !a.addr.NoAddr?
  {
    AppendAddr([], a).value
  }

  lemma AppendAddrIs(dst: seq<byte>, a: AddrPort)
    ensures AppendAddr(dst, a).Ok? <==> !a.addr.NoAddr?
    ensures !a.addr.NoAddr? ==> AppendAddr(dst, a).value == dst + AddrBytes(a) && |AddrBytes(a)| <= 19
  {
    if !a.addr.NoAddr? {
      assert AppendAddr(dst, a).value == dst + AddrBytes(a);
    }
  }

  lemma AddrRoundTrip(a: AddrPort, rest: seq<byte>)
    requires !a.addr.NoAddr?
    ensures ParseAddr(AddrBytes(a) + rest) == Ok((WireAddr(a), |AddrBytes(a)|))
  {
    var b := AddrBytes(a) + rest;
    U16RoundTrip(a.port);
    match Unmap(a.addr) {
      case V4(v) =>
        assert b[1..5] == v && b[5..7] == PutU16(a.port);
      case V6(v, z) =>
        assert b[1..17] == v && b[17..19] == PutU16(a.port);
        assert !Is4In6(V6(v, ""));
      case NoAddr =>
    }
  }

  // ------------------------------------------------------------ payloads

  function ToU64(n: i64): u64 {
    if n < 0 then n + 0x1_0000_0000_0000_0000 else n
  }

  function FromU64(n: u64): i64 {
    if n >= 0x8000_0000_0000_0000 then n - 0x1_0000_0000_0000_0000 else n
  }

  function AppendCandidates(dst: seq<byte>, cs: seq<Candidate>): Result<seq<byte>, Error>
    decreases |cs|
  {
    if cs == [] then Ok(dst)
    else
      match AppendAddr(dst, cs[0].addr)
      case Err(e) => Err(e)
      case Ok(d) => AppendCandidates(d + [cs[0].priority], cs[1..])
  }

  function AppendPayload(p: Packet): Result<seq<byte>, Error> {
    if p.header.typ == PROBE then
      if p.probe.None? then Err(Invalid)
      else Ok(p.probe.value.token + PutU64(ToU64(p.probe.value.txMicros)))
    else if p.header.typ == PONG then
      if p.pong.None? then Err(Invalid)
      else AppendAddr(p.pong.value.token + PutU64(ToU64(p.pong.value.txMicrosEcho)), p.pong.value.observed)
    else if p.header.typ == CALLME then
      if p.callMe.None? || |p.callMe.value| > MAX_CANDIDATES then Err(Invalid)
      else AppendCandidates([|p.callMe.value|], p.callMe.value)
    else if p.header.typ == BIND then
      if p.bind.None? then Err(Invalid) else AppendAddr(p.bind.value.nonce, p.bind.value.addr)
    else if p.header.typ == BINDACK then
      if p.bindAck.None? then Err(Invalid) else AppendAddr(p.bindAck.value.nonce, p.bindAck.value.addr)
    else Err(Invalid)
  }

  function ParseCandidates(rest: seq<byte>, count: nat): (r: Result<seq<Candidate>, Error>)
    ensures r.Err? ==> r.error == Invalid
    ensures r.Ok? ==> |r.value| == count
  {
    if count == 0 then if rest == [] then Ok([]) else Err(Invalid)
    else
      match ParseAddr(rest)
      case Err(e) => Err(e)
      case Ok((addr, n)) =>
        if |rest| < n + 1 then Err(Invalid)
        else
          match ParseCandidates(rest[n + 1..], count - 1)
          case Err(e) => Err(e)
          case Ok(cs) => Ok([Candidate(addr, rest[n])] + cs)
  }

  function ParseBind(b: seq<byte>): (r: Result<Bind, Error>)
    ensures r.Err? ==> r.error == Invalid
  {
    if |b| < 16 then Err(Invalid)
    else
      match ParseAddr(b[16..])
      case Err(e) => Err(e)
      case Ok((addr, n)) => if 16 + n != |b| then Err(Invalid) else Ok(Bind(b[..16], addr))
  }

  function ParsePayload(h: Header, b: seq<byte>): (r: Result<Packet, Error>)
    ensures r.Err? ==> r.error == Invalid
    ensures r.Ok? ==> r.value.header == h
  {
    if h.typ == PROBE then
      if |b| != 16 then Err(Invalid)
      else Ok(Bare(h).(probe := Some(Probe(b[..8], FromU64(U64(b[8..16]))))))
    else if h.typ == PONG then
      if |b| < 16 then Err(Invalid)
      else
        match ParseAddr(b[16..])
        case Err(e) => Err(e)
        case Ok((addr, n)) =>
          if 16 + n != |b| then Err(Invalid)
          else Ok(Bare(h).(pong := Some(Pong(b[..8], FromU64(U64(b[8..16])), addr))))
    else if h.typ == CALLME then
      if |b| < 1 || b[0] > MAX_CANDIDATES then Err(Invalid)
      else
        match ParseCandidates(b[1..], b[0])
        case Err(e) => Err(e)
        case Ok(cs) => Ok(Bare(h).(callMe := Some(cs)))
    else if h.typ == BIND then
      match ParseBind(b)
      case Err(e) => Err(e)
      case Ok(bind) => Ok(Bare(h).(bind := Some(bind)))
    else if h.typ == BINDACK then
      match ParseBind(b)
      case Err(e) => Err(e)
      case Ok(bind) => Ok(Bare(h).(bindAck := Some(bind)))
    else Err(Invalid)
  }

  // The two loops of the codec.

  method AppendCallMe(cs: seq<Candidate>) returns (r: Result<seq<byte>, Error>)
    requires |cs| <= MAX_CANDIDATES
    ensures r == AppendCandidates([|cs|], cs)
  {
    var dst: seq<byte> := [|cs|];
    for i := 0 to |cs|
      invariant AppendCandidates([|cs|], cs) == AppendCandidates(dst, cs[i..])
    {
      assert cs[i..][1..] == cs[i + 1..];
      var appended := AppendAddr(dst, cs[i].addr);
      if appended.Err? {
        return Err(appended.error);
      }
      dst := appended.value + [cs[i].priority];
    }
    return Ok(dst);
  }

  method ParseCallMe(b: seq<byte>, count: nat) returns (r: Result<seq<Candidate>, Error>)
    ensures r == ParseCandidates(b, count)
  {
    var rest, cs := b, [];
    PrefixedNothing(ParseCandidates(b, count));
    for i := 0 to count
      invariant ParseCandidates(b, count) == Prefixed(cs, ParseCandidates(rest, count - i))
    {
      var parsed := ParseAddr(rest);
      if parsed.Err? {
        return Err(parsed.error);
      }
      var (addr, n) := parsed.value;
      if |rest| < n + 1 {
        return Err(Invalid);
      }
      PrefixedTwice(cs, [Candidate(addr, rest[n])], ParseCandidates(rest[n + 1..], count - i - 1));
      cs := cs + [Candidate(addr, rest[n])];
      rest := rest[n + 1..];
    }
    if rest != [] {
      return Err(Invalid);
    }
    assert cs + [] == cs;
    return Ok(cs);
  }

  ghost function Prefixed(cs: seq<Candidate>, r: Result<seq<Candidate>, Error>): Result<seq<Candidate>, Error> {
    match r
    case Ok(more) => Ok(cs + more)
    case Err(e) => Err(e)
  }

  lemma PrefixedNothing(r: Result<seq<Candidate>, Error>)
    ensures Prefixed([], r) == r
  {
    if r.Ok? {
      assert [] + r.value == r.value;
    }
  }

  lemma PrefixedTwice(a: seq<Candidate>, b: seq<Candidate>, r: Result<seq<Candidate>, Error>)
    ensures Prefixed(a, Prefixed(b, r)) == Prefixed(a + b, r)
  {
    if r.Ok? {
      assert a + (b + r.value) == (a + b) + r.value;
    }
  }

  // ------------------------------------------------------------ payload round trip

  predicate ValidBind(b: Option<Bind>) {
    b.Some? && !b.value.addr.addr.NoAddr?
  }

  /** What EncodeDisco takes: the payload its type names is there, and every address is one. */
  predicate Encodable(p: Packet) {
    || (p.header.typ == PROBE && p.probe.Some?)
    || (p.header.typ == PONG && p.pong.Some? && !p.pong.value.observed.addr.NoAddr?)
    || (p.header.typ == CALLME && p.callMe.Some? && |p.callMe.value| <= MAX_CANDIDATES
        && forall c | c in p.callMe.value :: !c.addr.addr.NoAddr?)
    || (p.header.typ == BIND && ValidBind(p.bind))
    || (p.header.typ == BINDACK && ValidBind(p.bindAck))
  }

  function WireCandidates(cs: seq<Candidate>): (r: seq<Candidate>)
    ensures |r| == |cs| && forall i | 0 <= i < |cs| :: r[i] == Candidate(WireAddr(cs[i].addr), cs[i].priority)
  {
    if cs == [] then [] else [Candidate(WireAddr(cs[0].addr), cs[0].priority)] + WireCandidates(cs[1..])
  }

  /** The packet as it comes back under header h: the payload its type names and no other,
      with every address in wire form. */
  function WireForm(p: Packet, h: Header): Packet
    requires Encodable(p)
  {
    if p.header.typ == PROBE then Bare(h).(probe := p.probe)
    else if p.header.typ == PONG then
      Bare(h).(pong := Some(p.pong.value.(observed := WireAddr(p.pong.value.observed))))
    else if p.header.typ == CALLME then Bare(h).(callMe := Some(WireCandidates(p.callMe.value)))
    else if p.header.typ == BIND then Bare(h).(bind := Some(p.bind.value.(addr := WireAddr(p.bind.value.addr))))
    else Bare(h).(bindAck := Some(p.bindAck.value.(addr := WireAddr(p.bindAck.value.addr))))
  }

  lemma CandidateParses(c: Candidate, tail: seq<byte>, count: nat, more: seq<Candidate>)
    requires !c.addr.addr.NoAddr? && ParseCandidates(tail, count) == Ok(more)
    ensures ParseCandidates(AddrBytes(c.addr) + ([c.priority] + tail), count + 1)
            == Ok([Candidate(WireAddr(c.addr), c.priority)] + more)
  {
    AddrRoundTrip(c.addr, [c.priority] + tail);
    var b := AddrBytes(c.addr) + ([c.priority] + tail);
    assert b[|AddrBytes(c.addr)|] == c.priority;
    assert b[|AddrBytes(c.addr)| + 1..] == tail;
  }

  predicate AllValid(cs: seq<Candidate>) {
    forall c | c in cs :: !c.addr.addr.NoAddr?
  }

  /** Each candidate's address followed by its priority. */
  function CandidateBytes(cs: seq<Candidate>): seq<byte>
    requires AllValid(cs)
  {
    if cs == [] then []
    else
      assert cs[0] in cs;
      AddrBytes(cs[0].addr) + ([cs[0].priority] + CandidateBytes(cs[1..]))
  }

  lemma {:induction false} AppendCandidatesIs(dst: seq<byte>, cs: seq<Candidate>)
    ensures AppendCandidates(dst, cs).Ok? <==> AllValid(cs)
    ensures AllValid(cs) ==>
              AppendCandidates(dst, cs).value == dst + CandidateBytes(cs) && |CandidateBytes(cs)| <= 20 * |cs|
    decreases |cs|
  {
    if cs != [] {
      var c, rest := cs[0], cs[1..];
      assert cs == [c] + rest;
      AppendAddrIs(dst, c.addr);
      if !c.addr.addr.NoAddr? {
        var d := dst + AddrBytes(c.addr) + [c.priority];
        AppendCandidatesIs(d, rest);
        if AllValid(rest) {
          assert d + CandidateBytes(rest) == dst + CandidateBytes(cs);
        }
      }
    }
  }

  lemma {:induction false} CandidateBytesParse(cs: seq<Candidate>)
    requires AllValid(cs)
    ensures ParseCandidates(CandidateBytes(cs), |cs|) == Ok(WireCandidates(cs))
  {
    if cs != [] {
      assert cs[0] in cs;
      CandidateBytesParse(cs[1..]);
      CandidateParses(cs[0], CandidateBytes(cs[1..]), |cs| - 1, WireCandidates(cs[1..]));
    }
  }

  lemma CandidatesRoundTrip(dst: seq<byte>, cs: seq<Candidate>)
    ensures AppendCandidates(dst, cs).Ok? <==> AllValid(cs)
    ensures AppendCandidates(dst, cs).Ok? ==>
              var b := AppendCandidates(dst, cs).value;
              && |dst| <= |b| <= |dst| + 20 * |cs|
              && b[..|dst|] == dst
              && ParseCandidates(b[|dst|..], |cs|) == Ok(WireCandidates(cs))
  {
    AppendCandidatesIs(dst, cs);
    if AllValid(cs) {
      CandidateBytesParse(cs);
      assert (dst + CandidateBytes(cs))[|dst|..] == CandidateBytes(cs);
    }
  }

  lemma MicrosRoundTrip(n: i64)
    ensures FromU64(U64(PutU64(ToU64(n)))) == n
  {
    U64RoundTrip(ToU64(n));
  }

  lemma PongRoundTrip(h: Header, pong: Pong)
    requires h.typ == PONG && !pong.observed.addr.NoAddr?
    ensures var r := AppendAddr(pong.token + PutU64(ToU64(pong.txMicrosEcho)), pong.observed);
            && r.Ok? && |r.value| <= 35
            && ParsePayload(h, r.value) == Ok(Bare(h).(pong := Some(pong.(observed := WireAddr(pong.observed)))))
  {
    var front := pong.token + PutU64(ToU64(pong.txMicrosEcho));
    AppendAddrIs(front, pong.observed);
    var b := front + AddrBytes(pong.observed);
    AddrRoundTrip(pong.observed, []);
    MicrosRoundTrip(pong.txMicrosEcho);
    assert AddrBytes(pong.observed) + [] == AddrBytes(pong.observed);
    assert b[..8] == pong.token && b[8..16] == PutU64(ToU64(pong.txMicrosEcho)) && b[16..] == AddrBytes(pong.observed);
  }

  lemma BindRoundTrip(bind: Bind)
    requires !bind.addr.addr.NoAddr?
    ensures var r := AppendAddr(bind.nonce, bind.addr);
            r.Ok? && |r.value| <= 35 && ParseBind(r.value) == Ok(bind.(addr := WireAddr(bind.addr)))
  {
    AppendAddrIs(bind.nonce, bind.addr);
    var b := bind.nonce + AddrBytes(bind.addr);
    AddrRoundTrip(bind.addr, []);
    assert AddrBytes(bind.addr) + [] == AddrBytes(bind.addr);
    assert b[..16] == bind.nonce && b[16..] == AddrBytes(bind.addr);
  }

  lemma ProbeRoundTrip(h: Header, probe: Probe)
    requires h.typ == PROBE
    ensures ParsePayload(h, probe.token + PutU64(ToU64(probe.txMicros))) == Ok(Bare(h).(probe := Some(probe)))
  {
    var b := probe.token + PutU64(ToU64(probe.txMicros));
    MicrosRoundTrip(probe.txMicros);
    assert b[..8] == probe.token && b[8..16] == PutU64(ToU64(probe.txMicros));
  }

  /** A payload is produced exactly for an encodable packet, takes at most 321 bytes, and
      parses back to the packet in wire form. */
  lemma PayloadRoundTrip(p: Packet, h: Header)
    requires h.typ == p.header.typ
    ensures AppendPayload(p).Ok? <==> Encodable(p)
    ensures Encodable(p) ==>
              |AppendPayload(p).value| <= 321 && ParsePayload(h, AppendPayload(p).value) == Ok(WireForm(p, h))
  {
    if p.header.typ == PROBE && p.probe.Some? {
      ProbeRoundTrip(h, p.probe.value);
    } else if p.header.typ == PONG && p.pong.Some? && !p.pong.value.observed.addr.NoAddr? {
      PongRoundTrip(h, p.pong.value);
    } else if p.header.typ == CALLME && p.callMe.Some? && |p.callMe.value| <= MAX_CANDIDATES {
      CallMeRoundTrip(h, p.callMe.value);
    } else if p.header.typ == BIND && ValidBind(p.bind) {
      BindRoundTrip(p.bind.value);
    } else if p.header.typ == BINDACK && ValidBind(p.bindAck) {
      BindRoundTrip(p.bindAck.value);
    }
  }

  lemma CallMeRoundTrip(h: Header, cs: seq<Candidate>)
    requires h.typ == CALLME && |cs| <= MAX_CANDIDATES
    ensures AppendCandidates([|cs|], cs).Ok? <==> forall c | c in cs :: !c.addr.addr.NoAddr?
    ensures AppendCandidates([|cs|], cs).Ok? ==>
              var b := AppendCandidates([|cs|], cs).value;
              |b| <= 321 && ParsePayload(h, b) == Ok(Bare(h).(callMe := Some(WireCandidates(cs))))
  {
    CandidatesRoundTrip([|cs|], cs);
    if AppendCandidates([|cs|], cs).Ok? {
      var b := AppendCandidates([|cs|], cs).value;
      assert b[0] == b[..1][0] == |cs|;
    }
  }

  function PayloadOf(p: Packet): (b: seq<byte>)
    requires Encodable(p)
    ensures |b| <= 321 && AppendPayload(p) == Ok(b)
  {
    PayloadRoundTrip(p, p.header);
    AppendPayload(p).value
  }

  // ------------------------------------------------------------ what parses

  /** The bytes of an address: its own family's, or for an IPv4 address the mapped form. */
  predicate AddrWritten(a: AddrPort, b: seq<byte>) {
    match a.addr
    case V4(v) => b == [FAMILY_V4] + v + PutU16(a.port) || b == [FAMILY_V6] + (MAPPED_PREFIX + v) + PutU16(a.port)
    case V6(v, zone) => zone == "" && !Is4In6(a.addr) && b == [FAMILY_V6] + v + PutU16(a.port)
    case NoAddr => false
  }

  /** How many bytes the address at the front takes. */
  function AddrLen(b: seq<byte>): nat
    requires b != []
  {
    if b[0] == FAMILY_V4 then 7 else 19
  }

  lemma ParsedAddrIsWritten(b: seq<byte>)
    requires ParseAddr(b).Ok?
    ensures var (a, n) := ParseAddr(b).value;
            n <= |b| && n == AddrLen(b) && AddrWritten(a, b[..n])
  {
    var (a, n) := ParseAddr(b).value;
    var port := b[n - 2..n];
    assert PutU16(U16(port)) == port;
    if b[0] == FAMILY_V4 {
      assert b[..7] == [FAMILY_V4] + b[1..5] + b[5..7];
    } else {
      assert b[..19] == [FAMILY_V6] + b[1..17] + b[17..19];
      assert b[1..17] == b[1..17][..12] + b[1..17][12..];
    }
  }

  lemma WrittenAddrIsParsed(a: AddrPort, b: seq<byte>)
    requires b != [] && AddrLen(b) <= |b| && AddrWritten(a, b[..AddrLen(b)])
    ensures ParseAddr(b) == Ok((a, AddrLen(b)))
  {
    var n := AddrLen(b);
    var w := b[..n];
    U16RoundTrip(a.port);
    assert w[0] == b[0];
    if b[0] == FAMILY_V4 {
      assert w[1..5] == a.addr.v4 && w[5..7] == PutU16(a.port);
      assert b[1..5] == w[1..5] && b[5..7] == w[5..7];
    } else {
      var v: Bytes16 := w[1..17];
      assert w[17..19] == PutU16(a.port) && b[1..17] == v && b[17..19] == w[17..19];
      if a.addr.V4? {
        assert v == MAPPED_PREFIX + a.addr.v4 && v[..12] == MAPPED_PREFIX && v[12..] == a.addr.v4;
      } else {
        assert v == a.addr.v6;
      }
    }
  }

  predicate CandidatesWritten(cs: seq<Candidate>, b: seq<byte>) {
    if cs == [] then b == []
    else
      && b != [] && AddrLen(b) < |b|
      && AddrWritten(cs[0].addr, b[..AddrLen(b)]) && b[AddrLen(b)] == cs[0].priority
      && CandidatesWritten(cs[1..], b[AddrLen(b) + 1..])
  }

  lemma {:induction false} CandidatesParseAsWritten(b: seq<byte>, count: nat, cs: seq<Candidate>)
    ensures ParseCandidates(b, count) == Ok(cs) <==> |cs| == count && CandidatesWritten(cs, b)
    decreases count
  {
    if count > 0 && ParseAddr(b).Ok? {
      var (a, n) := ParseAddr(b).value;
      ParsedAddrIsWritten(b);
      if |b| > n {
        if |cs| == count {
          CandidatesParseAsWritten(b[n + 1..], count - 1, cs[1..]);
          assert cs == [cs[0]] + cs[1..];
          if CandidatesWritten(cs, b) {
            WrittenAddrIsParsed(cs[0].addr, b);
          }
        }
        var rest := ParseCandidates(b[n + 1..], count - 1);
        if rest.Ok? {
          CandidatesParseAsWritten(b[n + 1..], count - 1, rest.value);
        }
      }
    } else if count > 0 && |cs| == count && CandidatesWritten(cs, b) {
      WrittenAddrIsParsed(cs[0].addr, b);
    }
  }

  predicate BindWritten(bind: Bind, b: seq<byte>) {
    |b| > 16 && b[..16] == bind.nonce && |b| == 16 + AddrLen(b[16..]) && AddrWritten(bind.addr, b[16..])
  }

  lemma BindParsesAsWritten(b: seq<byte>, bind: Bind)
    ensures ParseBind(b) == Ok(bind) <==> BindWritten(bind, b)
  {
    if |b| > 16 {
      AddrParsesAsWritten(b[16..], bind.addr);
    }
  }

  /** An address and nothing after it. */
  lemma AddrParsesAsWritten(b: seq<byte>, a: AddrPort)
    requires b != []
    ensures ParseAddr(b) == Ok((a, |b|)) <==> |b| == AddrLen(b) && AddrWritten(a, b)
  {
    assert b[..|b|] == b;
    if ParseAddr(b).Ok? {
      ParsedAddrIsWritten(b);
    }
    if |b| == AddrLen(b) && AddrWritten(a, b) {
      WrittenAddrIsParsed(a, b);
    }
  }

  lemma TokenAndMicros(b: seq<byte>, token: Token, n: i64)
    requires |b| == 16
    ensures b == token + PutU64(ToU64(n)) <==> b[..8] == token && FromU64(U64(b[8..16])) == n
  {
    var w := token + PutU64(ToU64(n));
    assert w[..8] == token && w[8..16] == PutU64(ToU64(n));
    assert b == b[..8] + b[8..16];
    MicrosRoundTrip(n);
    PutU64Inverse(b[8..16]);
  }

  /** The bytes say exactly what the packet holds, in the one payload its type names: a token
      and the sender's microseconds for a PROBE, an address after them for a PONG, a count and
      that many addresses with a priority each for a CALLME, a nonce and an address otherwise. */
  predicate PayloadWritten(p: Packet, b: seq<byte>) {
    var h := p.header;
    || (h.typ == PROBE && p.probe.Some? && p == Bare(h).(probe := p.probe)
        && b == p.probe.value.token + PutU64(ToU64(p.probe.value.txMicros)))
    || (h.typ == PONG && p.pong.Some? && p == Bare(h).(pong := p.pong)
        && |b| > 16 && b[..16] == p.pong.value.token + PutU64(ToU64(p.pong.value.txMicrosEcho))
        && |b| == 16 + AddrLen(b[16..]) && AddrWritten(p.pong.value.observed, b[16..]))
    || (h.typ == CALLME && p.callMe.Some? && p == Bare(h).(callMe := p.callMe)
        && b != [] && b[0] == |p.callMe.value| <= 16 && CandidatesWritten(p.callMe.value, b[1..]))
    || (h.typ == BIND && p.bind.Some? && p == Bare(h).(bind := p.bind) && BindWritten(p.bind.value, b))
    || (h.typ == BINDACK && p.bindAck.Some? && p == Bare(h).(bindAck := p.bindAck) && BindWritten(p.bindAck.value, b))
  }

  lemma PongParsesAsWritten(h: Header, b: seq<byte>, p: Packet)
    requires h.typ == PONG
    ensures ParsePayload(h, b) == Ok(p) <==> p.header == h && PayloadWritten(p, b)
  {
    if |b| > 16 && p.pong.Some? {
      TokenAndMicros(b[..16], p.pong.value.token, p.pong.value.txMicrosEcho);
      assert b[..16][..8] == b[..8] && b[..16][8..16] == b[8..16];
      AddrParsesAsWritten(b[16..], p.pong.value.observed);
    }
  }

  lemma ProbeParsesAsWritten(h: Header, b: seq<byte>, p: Packet)
    requires h.typ == PROBE
    ensures ParsePayload(h, b) == Ok(p) <==> p.header == h && PayloadWritten(p, b)
  {
    if p.probe.Some? {
      var w := p.probe.value.token + PutU64(ToU64(p.probe.value.txMicros));
      assert |w| == 16;
      if |b| == 16 {
        TokenAndMicros(b, p.probe.value.token, p.probe.value.txMicros);
      }
    }
  }

  /** A payload parses to a packet exactly when it is that packet written down. */
  lemma ParsesAsWritten(h: Header, b: seq<byte>, p: Packet)
    ensures ParsePayload(h, b) == Ok(p) <==> p.header == h && PayloadWritten(p, b)
  {
    if h.typ == PROBE {
      ProbeParsesAsWritten(h, b, p);
    } else if h.typ == PONG {
      PongParsesAsWritten(h, b, p);
    } else if h.typ == CALLME {
      if b != [] && p.callMe.Some? {
        CandidatesParseAsWritten(b[1..], b[0], p.callMe.value);
      }
    } else if h.typ == BIND {
      if p.bind.Some? {
        BindParsesAsWritten(b, p.bind.value);
      }
    } else if h.typ == BINDACK {
      if p.bindAck.Some? {
        BindParsesAsWritten(b, p.bindAck.value);
      }
    }
  }

  // ------------------------------------------------------------ the envelope

  datatype Datagram =
    | Runt(bytes: seq<byte>)
    | Datagram(tag: Tag, nonce: Nonce, box: Box)

  function WireLen(d: Datagram): nat {
    match d
    case Runt(bytes) => |bytes|
    case Datagram(_, _, box) => DISCO_TAG_LEN + NONCE_LEN + Length(box)
  }

  function HeaderBytes(typ: byte, payloadLen: u16, ts: u32, seqno: u32): (b: seq<byte>)
    ensures |b| == HEADER_LEN
  {
    [VERSION, typ] + PutU16(payloadLen) + PutU32(ts) + PutU32(seqno)
  }

  function Zeros(n: nat): (b: seq<byte>)
    ensures |b| == n
  {
    seq(n, _ => 0)
  }

  function PlainText(typ: byte, payload: seq<byte>, ts: u32, seqno: u32, len: nat): (b: seq<byte>)
    requires HEADER_LEN + |payload| <= len
    ensures |b| == len
  {
    HeaderBytes(typ, |payload| % 0x1_0000, ts, seqno) + payload + Zeros(len - HEADER_LEN - |payload|)
  }

  /** EncodeDisco, with the random nonce as an argument. */
  function Encode(kdf: Kdf, p: Packet, k: Keys, seqno: u32, now: int, padTo: int, nonce: Nonce): Result<Datagram, Error> {
    match AppendPayload(p)
    case Err(e) => Err(e)
    case Ok(payload) =>
      var plainLen := padTo - DISCO_TAG_LEN - NONCE_LEN - TAG_LEN;
      if padTo < MIN_WIRE || padTo > MAX_WIRE then Err(Invalid)
      else if plainLen < HEADER_LEN + |payload| then Err(Invalid)
      else
        var tag := SendTag(kdf, k, now);
        var plain := PlainText(p.header.typ, payload, Unix(now) % 0x1_0000_0000, seqno, plainLen);
        Ok(Datagram(tag, nonce, Sealed(k.seal, nonce, tag, plain)))
  }

  function DecodePlain(plain: seq<byte>, now: int): (r: Result<Packet, Error>)
    ensures Authentic(r)
  {
    if |plain| < HEADER_LEN then Err(Invalid)
    else if plain[0] != VERSION then Err(BadVersion)
    else
      var payloadLen := U16(plain[2..4]);
      var ts := U32(plain[4..8]) * SECOND;
      var h := Header(plain[1], U32(plain[8..12]), ts);
      if HEADER_LEN + payloadLen > |plain| then Err(Invalid)
      else if now - ts > MAX_SKEW || now - ts < -MAX_SKEW then Err(Skewed(now - ts))
      else if h.seqno == 0 then Err(Invalid)
      else ParsePayload(h, plain[HEADER_LEN..HEADER_LEN + payloadLen])
  }

  /** decodeDiscoBody: DecodeDisco with the tag lookup already done. */
  function DecodeBody(d: Datagram, k: Keys, now: int): (r: Result<Packet, Error>)
    requires d.Datagram?
    ensures r != Err(AuthFailed) <==> Authentic(r)
  {
    match Open(k.open, d.nonce, d.tag, d.box)
    case None => Err(AuthFailed)
    case Some(plain) => DecodePlain(plain, now)
  }

  predicate SizeInRange(d: Datagram) {
    MIN_WIRE <= WireLen(d) <= MAX_WIRE
  }

  function Decode(kdf: Kdf, d: Datagram, k: Keys, now: int): Result<Packet, Error> {
    if !SizeInRange(d) || d.Runt? then Err(NotDisco)
    else if d.tag !in RecvTags(kdf, k, now) then Err(NotDisco)
    else DecodeBody(d, k, now)
  }

  /** Whether a datagram is a session's own, whatever is then found inside it. */
  predicate Authentic(r: Result<Packet, Error>) {
    r != Err(NotDisco) && r != Err(AuthFailed)
  }

  lemma HeaderFields(typ: byte, len: u16, ts: u32, seqno: u32, rest: seq<byte>)
    ensures var b := HeaderBytes(typ, len, ts, seqno) + rest;
            && b[0] == VERSION && b[1] == typ && U16(b[2..4]) == len
            && U32(b[4..8]) == ts && U32(b[8..12]) == seqno && b[12..] == rest
  {
    var b := HeaderBytes(typ, len, ts, seqno) + rest;
    assert b[2..4] == PutU16(len) && b[4..8] == PutU32(ts) && b[8..12] == PutU32(seqno);
    U16RoundTrip(len);
    U32RoundTrip(ts);
    U32RoundTrip(seqno);
  }

  /** What a well-formed plaintext comes to: refused when its second is not within thirty of
      now, then when its sequence number is zero, and parsed otherwise. */
  lemma PlainFields(typ: byte, payload: seq<byte>, ts: u32, seqno: u32, len: nat, now: int)
    requires |payload| < 0x1_0000 && HEADER_LEN + |payload| <= len
    ensures DecodePlain(PlainText(typ, payload, ts, seqno, len), now)
            == if !(-30 * SECOND <= now - ts * SECOND <= 30 * SECOND) then Err(Skewed(now - ts * SECOND))
               else if seqno == 0 then Err(Invalid)
               else ParsePayload(Header(typ, seqno, ts * SECOND), payload)
  {
    var pad := Zeros(len - HEADER_LEN - |payload|);
    var plain := PlainText(typ, payload, ts, seqno, len);
    assert plain == HeaderBytes(typ, |payload|, ts, seqno) + (payload + pad);
    HeaderFields(typ, |payload|, ts, seqno, payload + pad);
    assert plain[HEADER_LEN..HEADER_LEN + |payload|] == (payload + pad)[..|payload|] == payload;
  }

  /** What the decoder makes of a packet sealed at the second ts. */
  function Read(p: Packet, ts: u32, seqno: u32, now: int): Result<Packet, Error>
    requires Encodable(p)
  {
    if !(-30 * SECOND <= now - ts * SECOND <= 30 * SECOND) then Err(Skewed(now - ts * SECOND))
    else if seqno == 0 then Err(Invalid)
    else Ok(WireForm(p, Header(p.header.typ, seqno, ts * SECOND)))
  }

  lemma PlainRoundTrip(p: Packet, ts: u32, seqno: u32, len: nat, now: int)
    requires Encodable(p) && HEADER_LEN + |PayloadOf(p)| <= len
    ensures DecodePlain(PlainText(p.header.typ, PayloadOf(p), ts, seqno, len), now) == Read(p, ts, seqno, now)
  {
    PayloadRoundTrip(p, Header(p.header.typ, seqno, ts * SECOND));
    PlainFields(p.header.typ, PayloadOf(p), ts, seqno, len, now);
  }

  /** Every encodable packet fits every length from 369 to 1452, and takes exactly the
      length asked for; a packet is refused only for what it holds or for want of room. */
  lemma EncodeFits(kdf: Kdf, p: Packet, k: Keys, seqno: u32, now: int, padTo: int, nonce: Nonce)
    ensures Encode(kdf, p, k, seqno, now, padTo, nonce).Ok?
            <==> Encodable(p) && MIN_WIRE + |PayloadOf(p)| <= padTo <= MAX_WIRE
    ensures Encodable(p) && 369 <= padTo <= MAX_WIRE ==> Encode(kdf, p, k, seqno, now, padTo, nonce).Ok?
    ensures Encode(kdf, p, k, seqno, now, padTo, nonce).Ok? ==>
              WireLen(Encode(kdf, p, k, seqno, now, padTo, nonce).value) == padTo
  {
    PayloadRoundTrip(p, p.header);
  }

  /** A secret of at least 32 bytes is needed, and each direction has keys of its own. */
  lemma KeysFollowRole(secret: seq<byte>, server: bool)
    ensures NewKeys(secret, server).Err? <==> |secret| < 32
    ensures |secret| >= 32 ==>
              var k := NewKeys(secret, server).value;
              && k.seal == Key(secret, if server then CTX_BODY_S2C else CTX_BODY_C2S)
              && k.open == Key(secret, if server then CTX_BODY_C2S else CTX_BODY_S2C)
              && k.tagSend == Key(secret, if server then CTX_TAG_S2C else CTX_TAG_C2S)
              && k.tagRecv == Key(secret, if server then CTX_TAG_C2S else CTX_TAG_S2C)
              && k.seal != k.open && k.tagSend != k.tagRecv
  {
    assert CTX_BODY_C2S[30] != CTX_BODY_S2C[30] && CTX_TAG_C2S[29] != CTX_TAG_S2C[29];
  }

  lemma RolesMirror(secret: seq<byte>, server: bool)
    requires |secret| >= MIN_SECRET_LEN
    ensures var mine, theirs := NewKeys(secret, server).value, NewKeys(secret, !server).value;
            && mine.seal == theirs.open && mine.tagSend == theirs.tagRecv
            && mine.seal != mine.open
  {
    KeysFollowRole(secret, server);
    KeysFollowRole(secret, !server);
  }

  /** Clocks within the header's tolerance put sender and receiver at most one epoch apart. */
  lemma SkewWithinEpochs(ts: int, now: int)
    requires 0 <= ts && -MAX_SKEW <= now - ts * SECOND <= MAX_SKEW
    ensures EpochOf(ts * SECOND) - 1 <= EpochOf(now) <= EpochOf(ts * SECOND) + 1
  {
    assert ts - 30 <= Unix(now) <= ts + 30;
  }

  lemma TagHeldNearby(kdf: Kdf, sender: Keys, receiver: Keys, sent: int, now: int)
    requires sender.tagSend == receiver.tagRecv
    requires EpochOf(sent) - 1 <= EpochOf(now) <= EpochOf(sent) + 1
    ensures SendTag(kdf, sender, sent) in RecvTags(kdf, receiver, now)
  {
    var tags := RecvTags(kdf, receiver, now);
    var tag := SendTag(kdf, sender, sent);
    assert tag == tags[0] || tag == tags[1] || tag == tags[2];
  }

  /** What EncodeDisco produces, byte by byte: the tag and the nonce in the clear, the tag bound
      to the sealed text, and in it the version, the type, the payload's length, the second, the
      sequence number, the payload and zeros up to the length asked for. */
  lemma EncodedLayout(kdf: Kdf, p: Packet, k: Keys, seqno: u32, sent: int, padTo: int, nonce: Nonce)
    requires Encodable(p) && MIN_WIRE + |PayloadOf(p)| <= padTo <= MAX_WIRE
    requires 0 <= Unix(sent) < 0x1_0000_0000
    ensures var r := Encode(kdf, p, k, seqno, sent, padTo, nonce);
            && r.Ok? && r.value.Datagram? && r.value.box.Sealed?
            && r.value.tag == r.value.box.aad == kdf(k.tagSend, Unix(sent) / 120)
            && r.value.nonce == r.value.box.nonce == nonce && r.value.box.key == k.seal
            && |r.value.box.plain| == padTo - 36
            && LaidOut(r.value.box.plain, p.header.typ, PayloadOf(p), Unix(sent), seqno)
  {
    EncodedIs(kdf, p, k, seqno, sent, padTo, nonce);
    PlainLayout(p.header.typ, PayloadOf(p), Unix(sent), seqno, padTo - 36);
  }

  lemma EncodedIs(kdf: Kdf, p: Packet, k: Keys, seqno: u32, sent: int, padTo: int, nonce: Nonce)
    requires Encodable(p) && MIN_WIRE + |PayloadOf(p)| <= padTo <= MAX_WIRE
    requires 0 <= Unix(sent) < 0x1_0000_0000
    ensures var tag, plain := SendTag(kdf, k, sent), PlainText(p.header.typ, PayloadOf(p), Unix(sent), seqno, padTo - 36);
            Encode(kdf, p, k, seqno, sent, padTo, nonce) == Ok(Datagram(tag, nonce, Sealed(k.seal, nonce, tag, plain)))
  {
    assert Unix(sent) % 0x1_0000_0000 == Unix(sent);
  }

  predicate LaidOut(plain: seq<byte>, typ: byte, payload: seq<byte>, ts: u32, seqno: u32) {
    var n := |payload|;
    && 12 + n <= |plain|
    && plain[0] == 0x02 && plain[1] == typ
    && U16(plain[2..4]) == n && U32(plain[4..8]) == ts && U32(plain[8..12]) == seqno
    && plain[12..12 + n] == payload
    && forall i | 12 + n <= i < |plain| :: plain[i] == 0
  }

  lemma PlainParts(typ: byte, payload: seq<byte>, ts: u32, seqno: u32, len: nat)
    requires |payload| < 0x1_0000 && HEADER_LEN + |payload| <= len
    ensures var plain, n := PlainText(typ, payload, ts, seqno, len), HEADER_LEN + |payload|;
            && plain == HeaderBytes(typ, |payload|, ts, seqno) + plain[HEADER_LEN..]
            && plain[HEADER_LEN..n] == payload && plain[n..] == Zeros(len - n)
  {
  }

  lemma PlainLayout(typ: byte, payload: seq<byte>, ts: u32, seqno: u32, len: nat)
    requires |payload| < 0x1_0000 && HEADER_LEN + |payload| <= len
    ensures LaidOut(PlainText(typ, payload, ts, seqno, len), typ, payload, ts, seqno)
  {
    var plain, n := PlainText(typ, payload, ts, seqno, len), HEADER_LEN + |payload|;
    PlainParts(typ, payload, ts, seqno, len);
    HeaderFields(typ, |payload|, ts, seqno, plain[HEADER_LEN..]);
    forall i | n <= i < |plain|
      ensures plain[i] == 0
    {
      assert plain[i] == plain[n..][i - n];
    }
  }

  lemma MatchingKeysRead(kdf: Kdf, mine: Keys, theirs: Keys, p: Packet, seqno: u32, sent: int,
                         padTo: int, nonce: Nonce, now: int)
    requires mine.seal == theirs.open
    requires Encodable(p) && MIN_WIRE + |PayloadOf(p)| <= padTo <= MAX_WIRE
    requires 0 <= Unix(sent) < 0x1_0000_0000
    ensures var r := Encode(kdf, p, mine, seqno, sent, padTo, nonce);
            && r.Ok? && r.value.Datagram? && SizeInRange(r.value)
            && DecodeBody(r.value, theirs, now) == Read(p, Unix(sent), seqno, now)
            && Decode(kdf, r.value, theirs, now)
               == if SendTag(kdf, mine, sent) in RecvTags(kdf, theirs, now) then Read(p, Unix(sent), seqno, now) else Err(NotDisco)
  {
    EncodedIs(kdf, p, mine, seqno, sent, padTo, nonce);
    PlainRoundTrip(p, Unix(sent), seqno, padTo - 36, now);
  }

  /** Encoded by one role and decoded by the other, a packet comes back as it went out, with
      its addresses in wire form, exactly when its sequence number is not zero and the
      receiver's clock is within 30 seconds of its timestamp. Outside the 30 seconds it is
      refused for its skew while its tag is still held, and taken for no disco packet after. */
  lemma EnvelopeRoundTrip(kdf: Kdf, secret: seq<byte>, server: bool, p: Packet, seqno: u32, sent: int,
                          padTo: int, nonce: Nonce, now: int)
    requires |secret| >= MIN_SECRET_LEN && Encodable(p)
    requires MIN_WIRE + |PayloadOf(p)| <= padTo <= MAX_WIRE
    requires 0 <= Unix(sent) < 0x1_0000_0000
    ensures var mine, theirs := NewKeys(secret, server).value, NewKeys(secret, !server).value;
            var r := Encode(kdf, p, mine, seqno, sent, padTo, nonce);
            var skew := now - Unix(sent) * SECOND;
            && r.Ok?
            && var read := Decode(kdf, r.value, theirs, now);
            && (read.Ok? <==> -30 * SECOND <= skew <= 30 * SECOND && seqno != 0)
            && (read.Ok? ==> read.value == WireForm(p, Header(p.header.typ, seqno, Unix(sent) * SECOND)))
            && (-30 * SECOND <= skew <= 30 * SECOND && seqno == 0 ==> read == Err(Invalid))
            && (!(-30 * SECOND <= skew <= 30 * SECOND) ==>
                  read == if SendTag(kdf, mine, sent) in RecvTags(kdf, theirs, now) then Err(Skewed(skew)) else Err(NotDisco))
  {
    var mine, theirs := NewKeys(secret, server).value, NewKeys(secret, !server).value;
    RolesMirror(secret, server);
    MatchingKeysRead(kdf, mine, theirs, p, seqno, sent, padTo, nonce, now);
    if -30 * SECOND <= now - Unix(sent) * SECOND <= 30 * SECOND {
      SkewWithinEpochs(Unix(sent), now);
      assert EpochOf(sent) == EpochOf(Unix(sent) * SECOND);
      TagHeldNearby(kdf, mine, theirs, sent, now);
    }
  }

  /** The part of a plaintext its header calls the payload. */
  function Payload(plain: seq<byte>): seq<byte>
    requires |plain| >= 12 && 12 + U16(plain[2..4]) <= |plain|
  {
    plain[12..12 + U16(plain[2..4])]
  }

  /** Whatever a datagram is, its body decodes only if the key sealed it, for this tag and this
      nonce, as version 2 with a second within thirty of now and a sequence number, and what
      comes out is what those bytes say. */
  lemma DecodedWasSealed(d: Datagram, k: Keys, now: int)
    requires d.Datagram? && DecodeBody(d, k, now).Ok?
    ensures d.box.Sealed? && d.box.key == k.open && d.box.nonce == d.nonce && d.box.aad == d.tag
    ensures var plain, p := d.box.plain, DecodeBody(d, k, now).value;
            && |plain| >= 12 && 12 + U16(plain[2..4]) <= |plain|
            && plain[0] == 0x02
            && -30 * SECOND <= now - U32(plain[4..8]) * SECOND <= 30 * SECOND
            && U32(plain[8..12]) != 0
            && p.header == Header(plain[1], U32(plain[8..12]), U32(plain[4..8]) * SECOND)
            && PayloadWritten(p, Payload(plain))
  {
    var plain := d.box.plain;
    var h := Header(plain[1], U32(plain[8..12]), U32(plain[4..8]) * SECOND);
    ParsesAsWritten(h, Payload(plain), DecodeBody(d, k, now).value);
  }

  /** The other way round: everything so sealed and so written decodes. */
  lemma SealedIsDecoded(d: Datagram, k: Keys, now: int, p: Packet)
    requires d.Datagram? && d.box.Sealed? && d.box.key == k.open && d.box.nonce == d.nonce && d.box.aad == d.tag
    requires var plain := d.box.plain;
             && |plain| >= 12 && 12 + U16(plain[2..4]) <= |plain|
             && plain[0] == 0x02
             && -30 * SECOND <= now - U32(plain[4..8]) * SECOND <= 30 * SECOND
             && U32(plain[8..12]) != 0
             && p.header == Header(plain[1], U32(plain[8..12]), U32(plain[4..8]) * SECOND)
             && PayloadWritten(p, Payload(plain))
    ensures DecodeBody(d, k, now) == Ok(p)
  {
    ParsesAsWritten(p.header, Payload(d.box.plain), p);
  }

  /** A packet bounced back at the end that sent it is never taken for one of the other's. */
  lemma ReflectionNeverAuthentic(kdf: Kdf, secret: seq<byte>, server: bool, p: Packet, seqno: u32, sent: int,
                                 padTo: int, nonce: Nonce, now: int)
    requires |secret| >= MIN_SECRET_LEN
    requires Encode(kdf, p, NewKeys(secret, server).value, seqno, sent, padTo, nonce).Ok?
    ensures var d := Encode(kdf, p, NewKeys(secret, server).value, seqno, sent, padTo, nonce).value;
            !Authentic(Decode(kdf, d, NewKeys(secret, server).value, now))
  {
    RolesMirror(secret, server);
  }

  /** What the round trip may change in an address: nothing but its v4-in-v6 form, unless it
      carries a zone, which the wire has no room for. */
  lemma WireAddrOnlyUnmaps(a: AddrPort)
    ensures WireAddr(a) == Normalised(a) <==> !(a.addr.V6? && !Is4In6(a.addr) && a.addr.zone != "")
    ensures WireAddr(WireAddr(a)) == WireAddr(a)
  {
  }

  // ------------------------------------------------------------ how stale a tag table may be

  /** A packet stamped ts passes the timestamp check at now, against a table refreshed at a
      reading no more than slack away. Both are readings of the wall clock, which the check and
      the epochs go by, so the refresh may be the later of them after the clock was set back. */
  predicate InReach(ts: nat, now: int, refreshed: int, slack: int) {
    -MAX_SKEW <= now - ts * SECOND <= MAX_SKEW && -slack <= now - refreshed <= slack
  }

  predicate EpochHeld(ts: nat, refreshed: int) {
    EpochOf(refreshed) - 1 <= EpochOf(ts * SECOND) <= EpochOf(refreshed) + 1
  }

  ghost predicate TableCovers(slack: int) {
    forall ts: nat, now, refreshed :: InReach(ts, now, refreshed, slack) ==> EpochHeld(ts, refreshed)
  }

  // How far the wall clock may move from where it stood at the refresh.
  const STALE_LIMIT: int := 90 * SECOND

  lemma TwoMinutesIsOneEpoch(ts: nat, now: int, refreshed: int)
    requires InReach(ts, now, refreshed, STALE_LIMIT)
    ensures EpochHeld(ts, refreshed)
  {
    assert ts - 120 <= Unix(refreshed) <= ts + 120;
  }

  /** Three epochs of tags cover every packet the timestamp check lets through exactly when
      the wall clock is within 90 seconds of where it stood at the refresh. */
  lemma StaleLimitIsExact(slack: int)
    ensures TableCovers(slack) <==> slack <= STALE_LIMIT
  {
    if slack <= STALE_LIMIT {
      forall ts: nat, now, refreshed | InReach(ts, now, refreshed, slack)
        ensures EpochHeld(ts, refreshed)
      {
        TwoMinutesIsOneEpoch(ts, now, refreshed);
      }
    } else {
      assert InReach(240, 210 * SECOND, 120 * SECOND - 1, slack);
      assert !EpochHeld(240, 120 * SECOND - 1);
    }
  }

  /** A packet the timestamp check lets through carries a tag the receiver holds. */
  lemma TagHeldWhenFresh(kdf: Kdf, sender: Keys, receiver: Keys, sent: int, now: int, refreshed: int)
    requires sender.tagSend == receiver.tagRecv
    requires 0 <= Unix(sent) && InReach(Unix(sent), now, refreshed, STALE_LIMIT)
    ensures SendTag(kdf, sender, sent) in EpochTags(kdf, receiver, EpochOf(refreshed))
  {
    TwoMinutesIsOneEpoch(Unix(sent), now, refreshed);
    assert EpochOf(sent) == EpochOf(Unix(sent) * SECOND);
    TagHeldNearby(kdf, sender, receiver, sent, refreshed);
  }
}
