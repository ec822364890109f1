/** Gecko's fragment frames (extras/obfs/gecko_frame.go). */
module GeckoFrame {
  import opened Net
  import opened Results
  import opened Aead

  const HEADER_SIZE: nat := 5
  const MIN_CHUNKS: nat := 2
  const MAX_CHUNKS: nat := 8
  const FLAG_FRAGMENT: nat := 0x80

  datatype FrameError = Truncated | Invalid

  datatype Header = Header(padLen: u16, msgId: byte, chunkIdx: byte, totalChunks: byte)

  predicate ValidHeader(h: Header) {
    MIN_CHUNKS <= h.totalChunks <= MAX_CHUNKS && h.chunkIdx < h.totalChunks
  }

  function HeaderBytes(h: Header): (b: seq<byte>)
    requires ValidHeader(h)
    ensures |b| == HEADER_SIZE
  {
    [FLAG_FRAGMENT, h.msgId, h.chunkIdx * 0x10 + h.totalChunks] + PutU16(h.padLen)
  }

  /** The bytes of a frame: header, padding, payload. */
  function Frame(h: Header, padding: seq<byte>, payload: seq<byte>): seq<byte>
    requires ValidHeader(h) && |padding| == h.padLen
  {
    HeaderBytes(h) + padding + payload
  }

  /** encodeFrame: padding stands for the random bytes drawn. */
  method EncodeFrame(h: Header, padding: seq<byte>, payload: seq<byte>, out: array<byte>)
      returns (r: Result<nat, FrameError>)
    requires |padding| == h.padLen
    modifies out
    ensures !ValidHeader(h) ==> r == Err(Invalid) && out[..] == old(out[..])
    ensures ValidHeader(h) && out.Length < |Frame(h, padding, payload)| ==> r == Err(Truncated) && out[..] == old(out[..])
    ensures ValidHeader(h) && out.Length >= |Frame(h, padding, payload)| ==>
              var n := |Frame(h, padding, payload)|;
              r == Ok(n) && out[..n] == Frame(h, padding, payload) && out[n..] == old(out[n..])
  {
    if h.totalChunks < MIN_CHUNKS || h.totalChunks > MAX_CHUNKS || h.chunkIdx >= h.totalChunks {
      return Err(Invalid);
    }
    var needed := HEADER_SIZE + h.padLen + |payload|;
    if out.Length < needed {
      return Err(Truncated);
    }
    ghost var rest := out[needed..];
    CopyInto(out, 0, HeaderBytes(h));
    assert out[needed..] == out[HEADER_SIZE..][h.padLen + |payload|..] == rest;
    CopyInto(out, HEADER_SIZE, padding);
    assert out[needed..] == out[HEADER_SIZE + h.padLen..][|payload|..] == rest;
    CopyInto(out, HEADER_SIZE + h.padLen, payload);
    ghost var padded := out[..HEADER_SIZE + h.padLen];
    assert padded == out[..HEADER_SIZE] + out[HEADER_SIZE..HEADER_SIZE + h.padLen];
    assert out[..needed] == padded + payload;
    return Ok(needed);
  }

  method CopyInto(out: array<byte>, at: nat, data: seq<byte>)
    requires at + |data| <= out.Length
    modifies out
    ensures out[..at] == old(out[..at])
    ensures out[at..at + |data|] == data
    ensures out[at + |data|..] == old(out[at + |data|..])
  {
    for i := 0 to |data|
      invariant out[..at] == old(out[..at])
      invariant out[at..at + i] == data[..i]
      invariant out[at + i..] == old(out[at + i..])
    {
      ghost var rest := out[at + i..];
      out[at + i] := data[i];
      assert out[at + i + 1..] == rest[1..];
      assert out[at..at + i + 1] == out[at..at + i] + [data[i]];
    }
  }

  function DecodeFrame(b: seq<byte>): (r: Result<(Header, seq<byte>), FrameError>)
    ensures r.Ok? ==> ValidHeader(r.value.0) && |r.value.1| <= |b| && r.value.1 == b[|b| - |r.value.1|..]
  {
    if |b| < HEADER_SIZE then Err(Truncated)
    else if b[0] < FLAG_FRAGMENT then Err(Invalid)
    else
      var h := Header(U16(b[3..5]), b[1], b[2] / 0x10, b[2] % 0x10);
      if h.totalChunks < MIN_CHUNKS || h.totalChunks > MAX_CHUNKS then Err(Invalid)
      else if h.chunkIdx >= h.totalChunks then Err(Invalid)
      else if HEADER_SIZE + h.padLen > |b| then Err(Truncated)
      else Ok((h, b[HEADER_SIZE + h.padLen..]))
  }

  /** The layout: the marker, the message id, index and total in a nibble each, the length of
      the padding with its high byte first, the padding and the payload. */
  lemma FrameLayout(h: Header, padding: seq<byte>, payload: seq<byte>)
    requires ValidHeader(h) && |padding| == h.padLen
    ensures 2 <= h.totalChunks <= 8 && h.chunkIdx < h.totalChunks
    ensures var b := Frame(h, padding, payload);
            && |b| == 5 + |padding| + |payload|
            && b[..5] == [0x80, h.msgId, h.chunkIdx * 16 + h.totalChunks, h.padLen / 256, h.padLen % 256]
            && b[5..5 + |padding|] == padding && b[5 + |padding|..] == payload
  {
  }

  lemma FrameRoundTrip(h: Header, padding: seq<byte>, payload: seq<byte>)
    requires ValidHeader(h) && |padding| == h.padLen
    ensures DecodeFrame(Frame(h, padding, payload)) == Ok((h, payload))
  {
    var b := Frame(h, padding, payload);
    assert b[3..5] == PutU16(h.padLen);
    U16RoundTrip(h.padLen);
    assert b[HEADER_SIZE + h.padLen..] == payload;
  }

  /** Exactly frames decode, to the header and payload they were made of, whatever the seven
      reserved bits of the first byte. */
  lemma DecodedIsFrame(b: seq<byte>, h: Header, payload: seq<byte>)
    ensures DecodeFrame(b) == Ok((h, payload)) <==>
              && |b| >= 5 + h.padLen && b[0] >= 0x80 && ValidHeader(h)
              && b[1..] == Frame(h, b[5..5 + h.padLen], payload)[1..]
  {
    if DecodeFrame(b) == Ok((h, payload)) {
      var padding := b[HEADER_SIZE..HEADER_SIZE + h.padLen];
      assert b[3..5] == PutU16(h.padLen);
      assert b == b[..3] + b[3..5] + padding + payload;
    } else if |b| >= 5 + h.padLen && b[0] >= 0x80 && ValidHeader(h) && b[1..] == Frame(h, b[5..5 + h.padLen], payload)[1..] {
      TailDecodes(b, h, payload);
    }
  }

  lemma TailDecodes(b: seq<byte>, h: Header, payload: seq<byte>)
    requires |b| >= 5 + h.padLen && b[0] >= 0x80 && ValidHeader(h)
    requires b[1..] == Frame(h, b[5..5 + h.padLen], payload)[1..]
    ensures DecodeFrame(b) == Ok((h, payload))
  {
    var f := Frame(h, b[5..5 + h.padLen], payload);
    FrameRoundTrip(h, b[5..5 + h.padLen], payload);
    assert b == [b[0]] + b[1..] && f == [f[0]] + f[1..];
    assert b[3..5] == f[3..5] && b[HEADER_SIZE + h.padLen..] == f[HEADER_SIZE + h.padLen..];
  }
}
