/** Time as the modelled code reads it: Go's time.Time and time.Duration, in nanoseconds. */
module Clock {
  const MILLISECOND: int := 1_000_000
  const SECOND: int := 1_000_000_000

  /** A time.Time as time.Now gives it: the wall clock that Unix reads, and the monotonic clock
      that Sub between two of them goes by. */
  datatype Instant = Instant(wall: int, elapsed: int)

  /** A time.Time without a monotonic part (Round(0)), which Sub takes by its wall clock. */
  function Stripped(wall: int): Instant {
    Instant(wall, wall)
  }

  /** By how much the wall clock advanced less than time did, from one reading to another. */
  function Lag(a: Instant, b: Instant): int {
    (b.elapsed - a.elapsed) - (b.wall - a.wall)
  }

  /** time.Time.Unix: whole seconds since 1970, rounded towards the past. */
  function Unix(t: int): int {
    t / SECOND
  }

  /** Go's integer division by a positive constant, which truncates towards zero. */
  function Quotient(a: int, b: int): int
    requires b > 0
  {
    if a >= 0 then a / b else -((-a) / b)
  }

  function Max(a: int, b: int): int {
    if a >= b then a else b
  }

  function Min(a: int, b: int): int {
    if a <= b then a else b
  }
}

/** Bytes and network addresses (net/netip's Addr and AddrPort). */
module Net {
  type byte = b: int | 0 <= b < 0x100
  type u16 = n: int | 0 <= n < 0x1_0000
  type u32 = n: int | 0 <= n < 0x1_0000_0000
  type u64 = n: int | 0 <= n < 0x1_0000_0000_0000_0000

  type Bytes4 = s: seq<byte> | |s| == 4 witness [0, 0, 0, 0]
  type Bytes16 = s: seq<byte> | |s| == 16 witness [0, 0, 0, 0, 0, 0, 0, 0, 0, 0, 0, 0, 0, 0, 0, 0]

  datatype Addr =
    | NoAddr
    | V4(v4: Bytes4)
    | V6(v6: Bytes16, zone: string)

  datatype AddrPort = AddrPort(addr: Addr, port: u16)

  // netip.AddrPort{}
  const ZERO_ADDR_PORT := AddrPort(NoAddr, 0)

  const MAPPED_PREFIX: seq<byte> := [0, 0, 0, 0, 0, 0, 0, 0, 0, 0, 0xFF, 0xFF]

  predicate Is4In6(a: Addr) {
    a.V6? && a.v6[..12] == MAPPED_PREFIX
  }

  /** The IPv4 address inside a v4-in-v6 form, or the address itself. */
  function Unmap(a: Addr): (r: Addr)
    ensures !Is4In6(r)
    ensures r.NoAddr? <==> a.NoAddr?
  {
    if Is4In6(a) then V4(a.v6[12..]) else a
  }

  /** The one form every address is compared in. */
  function Normalised(a: AddrPort): (r: AddrPort)
    ensures !Is4In6(r.addr)
    ensures r.addr.NoAddr? <==> a.addr.NoAddr?
  {
    AddrPort(Unmap(a.addr), a.port)
  }
}

module Results {
  datatype Option<+T> = None | Some(value: T)
  datatype Result<+T, +E> = Ok(value: T) | Err(error: E)
}

/** ChaCha20-Poly1305 as an ideal sealed box, and HKDF as symbolic key derivation. What a
    key has sealed only that key opens, under the same nonce and additional data; any other
    bytes open under nothing. */
module Aead {
  import opened Net
  import opened Results

  const TAG_LEN: nat := 16
  const NONCE_LEN: nat := 12

  datatype Key = Key(secret: seq<byte>, context: string)

  datatype Box =
    | Sealed(key: Key, nonce: seq<byte>, aad: seq<byte>, plain: seq<byte>)
    | Noise(bytes: seq<byte>)

  function Length(b: Box): nat {
    match b
    case Sealed(_, _, _, plain) => |plain| + TAG_LEN
    case Noise(bytes) => |bytes|
  }

  function Open(key: Key, nonce: seq<byte>, aad: seq<byte>, b: Box): (r: Option<seq<byte>>)
    ensures r.Some? <==> b == Sealed(key, nonce, aad, if r.Some? then r.value else [])
  {
    if b.Sealed? && b.key == key && b.nonce == nonce && b.aad == aad then Some(b.plain) else None
  }

  /** binary.BigEndian, for the widths the modelled formats use. */
  function PutU16(n: u16): (b: seq<byte>)
    ensures |b| == 2
  {
    [n / 0x100, n % 0x100]
  }

  function U16(b: seq<byte>): u16
    requires |b| == 2
  {
    (b[0] as int) * 0x100 + b[1] as int
  }

  function PutU32(n: u32): (b: seq<byte>)
    ensures |b| == 4
  {
    PutU16(n / 0x1_0000) + PutU16(n % 0x1_0000)
  }

  function U32(b: seq<byte>): u32
    requires |b| == 4
  {
    (U16(b[..2]) as int) * 0x1_0000 + U16(b[2..]) as int
  }

  function PutU64(n: u64): (b: seq<byte>)
    ensures |b| == 8
  {
    PutU32(n / 0x1_0000_0000) + PutU32(n % 0x1_0000_0000)
  }

  function U64(b: seq<byte>): u64
    requires |b| == 8
  {
    (U32(b[..4]) as int) * 0x1_0000_0000 + U32(b[4..]) as int
  }

  lemma U16RoundTrip(n: u16)
    ensures U16(PutU16(n)) == n
  {
  }

  lemma U32RoundTrip(n: u32)
    ensures U32(PutU32(n)) == n
  {
    var b := PutU32(n);
    assert b[..2] == PutU16(n / 0x1_0000) && b[2..] == PutU16(n % 0x1_0000);
  }

  /** Most significant byte first. */
  lemma BigEndian(a: byte, b: byte, c: byte, d: byte)
    ensures PutU32(a * 0x100_0000 + b * 0x1_0000 + c * 0x100 + d) == [a, b, c, d]
  {
    HighAndLow16(a * 0x100 + b, c * 0x100 + d);
  }

  lemma HighAndLow16(high: nat, low: nat)
    requires low < 0x1_0000
    ensures (high * 0x1_0000 + low) / 0x1_0000 == high && (high * 0x1_0000 + low) % 0x1_0000 == low
  {
  }

  lemma HighAndLow32(high: nat, low: nat)
    requires low < 0x1_0000_0000
    ensures (high * 0x1_0000_0000 + low) / 0x1_0000_0000 == high && (high * 0x1_0000_0000 + low) % 0x1_0000_0000 == low
  {
  }

  lemma PutU16Inverse(b: seq<byte>)
    requires |b| == 2
    ensures PutU16(U16(b)) == b
  {
  }

  lemma PutU32Inverse(b: seq<byte>)
    requires |b| == 4
    ensures PutU32(U32(b)) == b
  {
    PutU16Inverse(b[..2]);
    PutU16Inverse(b[2..]);
    HighAndLow16(U16(b[..2]), U16(b[2..]));
    assert b == b[..2] + b[2..];
  }

  lemma PutU64Inverse(b: seq<byte>)
    requires |b| == 8
    ensures PutU64(U64(b)) == b
  {
    PutU32Inverse(b[..4]);
    PutU32Inverse(b[4..]);
    HighAndLow32(U32(b[..4]), U32(b[4..]));
    assert b == b[..4] + b[4..];
  }

  lemma U64RoundTrip(n: u64)
    ensures U64(PutU64(n)) == n
  {
    var b := PutU64(n);
    assert b[..4] == PutU32(n / 0x1_0000_0000) && b[4..] == PutU32(n % 0x1_0000_0000);
    U32RoundTrip(n / 0x1_0000_0000);
    U32RoundTrip(n % 0x1_0000_0000);
  }
}

/** slices.Sort and sort.Slice: ascending order by an integer key. */
module Sorting {

  predicate Sorted<T>(key: T -> int, s: seq<T>) {
    forall i, j | 0 <= i < j < |s| :: key(s[i]) <= key(s[j])
  }

  function Insert<T>(key: T -> int, x: T, s: seq<T>): seq<T> {
    if s == [] || key(x) <= key(s[0]) then [x] + s else [s[0]] + Insert(key, x, s[1..])
  }

  lemma {:induction false} InsertAdds<T>(key: T -> int, x: T, s: seq<T>)
    ensures multiset(Insert(key, x, s)) == multiset(s) + multiset{x}
  {
    if s != [] {
      assert s == [s[0]] + s[1..];
      InsertAdds(key, x, s[1..]);
    }
  }

  /** Adding in front what is no larger than the first, or than what is inserted before it. */
  lemma SortedCons<T>(key: T -> int, x: T, s: seq<T>)
    requires Sorted(key, s) && (s != [] ==> key(x) <= key(s[0]))
    ensures Sorted(key, [x] + s)
  {
    assert forall i | 0 < i < |s| :: key(s[0]) <= key(s[i]);
  }

  lemma {:induction false} InsertSorted<T>(key: T -> int, x: T, s: seq<T>)
    requires Sorted(key, s)
    ensures Sorted(key, Insert(key, x, s))
    ensures s != [] && key(s[0]) < key(x) ==> Insert(key, x, s)[0] == s[0]
  {
    if s != [] {
      if key(x) <= key(s[0]) {
        SortedCons(key, x, s);
      } else {
        var rest := s[1..];
        InsertSorted(key, x, rest);
        assert rest != [] ==> key(s[0]) <= key(rest[0]);
        SortedCons(key, s[0], Insert(key, x, rest));
      }
    }
  }

  lemma InsertSorts<T>(key: T -> int, x: T, s: seq<T>)
    requires Sorted(key, s)
    ensures Sorted(key, Insert(key, x, s)) && multiset(Insert(key, x, s)) == multiset(s) + multiset{x}
  {
    InsertSorted(key, x, s);
    InsertAdds(key, x, s);
  }

  function Sort<T>(key: T -> int, s: seq<T>): seq<T> {
    if s == [] then [] else Insert(key, s[0], Sort(key, s[1..]))
  }

  lemma {:induction false} SortSorts<T>(key: T -> int, s: seq<T>)
    ensures Sorted(key, Sort(key, s)) && multiset(Sort(key, s)) == multiset(s)
    ensures |Sort(key, s)| == |s|
    ensures forall x :: x in Sort(key, s) <==> x in s
  {
    if s != [] {
      assert s == [s[0]] + s[1..];
      SortSorts(key, s[1..]);
      InsertSorts(key, s[0], Sort(key, s[1..]));
    }
    assert |multiset(Sort(key, s))| == |multiset(s)|;
    assert forall x :: x in Sort(key, s) <==> x in multiset(Sort(key, s));
    assert forall x :: x in s <==> x in multiset(s);
  }
}
