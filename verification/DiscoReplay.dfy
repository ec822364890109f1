/** Sequence numbers of the disco control channel (extras/realm/disco_conn.go).

    The receiver keeps the largest number it accepted and one bit for each of the 64 up to
    it; the sender issues numbers through a compare-and-swap loop that stops below a ceiling.
    The bits are proved to refine the set of every number ever accepted, and the two
    ends are then composed over a network that drops, reorders and duplicates. */
module DiscoReplay {

  // A uint32 of the wire header.
  type seqno = n: nat | n < 0x1_0000_0000

  // The width of the bitmap, and the first number a sender will not issue.
  const WINDOW: nat := 64
  const CEILING: nat := 0xFFFF_FFF0

  // ------------------------------------------------------------ 64-bit words

  // A uint64. Bit k is read by halving k times, a left shift is a doubling that loses the
  // top bit, and OR-ing in a mask sets one bit.
  type word = n: nat | n < 0x1_0000_0000_0000_0000

  function Pow2(k: nat): (p: nat)
    ensures p > 0
  {
    if k == 0 then 1 else 2 * Pow2(k - 1)
  }

  predicate Bit(b: nat, k: nat) {
    if k == 0 then b % 2 == 1 else Bit(b / 2, k - 1)
  }

  /** b << n on a uint64. */
  function ShiftLeft(b: word, n: nat): word {
    if n == 0 then b else 2 * ShiftLeft(b, n - 1) % 0x1_0000_0000_0000_0000
  }

  /** b | (1 << d) on a uint64. */
  function WithBit(b: word, d: nat): (r: word)
    requires d < WINDOW
  {
    WithBitFits(b, d);
    if Bit(b, d) then b else b + Pow2(d)
  }

  lemma Pow2UpByte(k: nat)
    ensures Pow2(k + 8) == 0x100 * Pow2(k)
  {
    assert Pow2(k + 4) == 0x10 * Pow2(k) by {
      assert Pow2(k + 2) == 4 * Pow2(k);
    }
    assert Pow2(k + 6) == 4 * Pow2(k + 4);
  }

  lemma Pow2OfWidth()
    ensures Pow2(63) == 0x8000_0000_0000_0000
    ensures Pow2(64) == 0x1_0000_0000_0000_0000
  {
    Pow2UpByte(0);
    Pow2UpByte(8);
    Pow2UpByte(16);
    Pow2UpByte(24);
    Pow2UpByte(32);
    Pow2UpByte(40);
    Pow2UpByte(48);
    Pow2UpByte(56);
    assert Pow2(64) == 2 * Pow2(63);
  }

  /** Adding a power of two disturbs no bit below it. */
  lemma {:induction false} LowBitsKept(b: nat, m: nat, k: nat)
    requires k < m
    ensures Bit(b + Pow2(m), k) <==> Bit(b, k)
  {
    if k > 0 {
      assert (b + Pow2(m)) / 2 == b / 2 + Pow2(m - 1);
      LowBitsKept(b / 2, m - 1, k - 1);
    }
  }

  /** Adding 2^d where bit d is clear sets bit d and carries into nothing. */
  lemma {:induction false} AddedBit(b: nat, d: nat, k: nat)
    requires !Bit(b, d)
    ensures Bit(b + Pow2(d), k) <==> k == d || Bit(b, k)
    decreases k
  {
    if d > 0 && k > 0 {
      assert (b + Pow2(d)) / 2 == b / 2 + Pow2(d - 1);
      AddedBit(b / 2, d - 1, k - 1);
    } else if d == 0 && k > 0 {
      assert (b + 1) / 2 == b / 2;
    }
  }

  lemma {:induction false} AddedBitFits(b: nat, d: nat, m: nat)
    requires !Bit(b, d) && d < m && b < Pow2(m)
    ensures b + Pow2(d) < Pow2(m)
  {
    assert Pow2(m) == 2 * Pow2(m - 1);
    assert b == 2 * (b / 2) + b % 2;
    if d > 0 {
      assert Pow2(d) == 2 * Pow2(d - 1);
      AddedBitFits(b / 2, d - 1, m - 1);
    }
  }

  lemma WithBitFits(b: word, d: nat)
    requires d < WINDOW
    ensures !Bit(b, d) ==> b + Pow2(d) < 0x1_0000_0000_0000_0000
  {
    Pow2OfWidth();
    if !Bit(b, d) {
      AddedBitFits(b, d, WINDOW);
    }
  }

  /** Setting bit d sets that bit and no other. */
  lemma WithBitTest(b: word, d: nat, k: nat)
    requires d < WINDOW
    ensures Bit(WithBit(b, d), k) <==> k == d || Bit(b, k)
  {
    if !Bit(b, d) {
      AddedBit(b, d, k);
    }
  }

  lemma DoubledTest(b: word, k: nat)
    requires k < WINDOW
    ensures Bit(2 * b % 0x1_0000_0000_0000_0000, k) <==> k > 0 && Bit(b, k - 1)
  {
    if k > 0 {
      Pow2OfWidth();
      if b < 0x8000_0000_0000_0000 {
        assert 2 * b % 0x1_0000_0000_0000_0000 / 2 == b;
      } else {
        var low := b - 0x8000_0000_0000_0000;
        assert 2 * b % 0x1_0000_0000_0000_0000 / 2 == low;
        LowBitsKept(low, 63, k - 1);
      }
    }
  }

  /** Shifting left by n moves bit k - n to bit k and clears the bits below n. */
  lemma {:induction false} ShiftedBit(b: word, n: nat, k: nat)
    requires k < WINDOW
    ensures Bit(ShiftLeft(b, n), k) <==> n <= k && Bit(b, k - n)
  {
    if n > 0 {
      DoubledTest(ShiftLeft(b, n - 1), k);
      if k > 0 {
        ShiftedBit(b, n - 1, k - 1);
      }
    }
  }

  lemma {:induction false} ZeroHasNoBits(k: nat)
    ensures !Bit(0, k)
    ensures Bit(1, k) <==> k == 0
  {
    if k > 0 {
      ZeroHasNoBits(k - 1);
    }
  }

  // ------------------------------------------------------------ the window

  /** What the window decides, stated over the set of every number accepted so far:
      nonzero, new, and less than 64 behind the largest. */
  predicate Admits(accepted: set<seqno>, q: seqno) {
    && q != 0
    && q !in accepted
    && forall a | a in accepted :: a < q + WINDOW
  }

  /** discoReplayWindow: the largest number accepted, the bitmap behind it, and whether
      anything was accepted at all. */
  datatype Window = Window(high: seqno, bits: word, seen: bool)

  const NEW_WINDOW := Window(0, 0, false)

  /** The window remembers the last 64 of the numbers accepted, and nothing else. */
  ghost predicate Represents(w: Window, accepted: set<seqno>) {
    && (w.seen <==> accepted != {})
    && (w.seen ==>
          && w.high in accepted
          && (forall a | a in accepted :: 0 < a <= w.high)
          && (forall k: nat | k < WINDOW :: Bit(w.bits, k) <==> k <= w.high && w.high - k in accepted))
  }

  /** What the window does with one number: its verdict and its next state. */
  function Slide(w: Window, q: seqno): (bool, Window) {
    if q == 0 then (false, w)
    else if !w.seen then (true, Window(q, 1, true))
    else if q > w.high then
      var shifted := if q - w.high >= WINDOW then 0 else ShiftLeft(w.bits, q - w.high);
      (true, Window(q, WithBit(shifted, 0), true))
    else if w.high - q >= WINDOW || Bit(w.bits, w.high - q) then (false, w)
    else (true, w.(bits := WithBit(w.bits, w.high - q)))
  }

  /** The bits refine the set: their verdict is the set's, and they go on representing it. */
  lemma SlideRefinesSet(w: Window, q: seqno, accepted: set<seqno>)
    requires Represents(w, accepted)
    ensures Slide(w, q).0 <==> Admits(accepted, q)
    ensures Represents(Slide(w, q).1, if Slide(w, q).0 then accepted + {q} else accepted)
  {
    if q != 0 && !w.seen {
      FirstAccepted(q);
      assert accepted + {q} == {q};
    } else if q > w.high {
      Advanced(w, accepted, q, if q - w.high >= WINDOW then 0 else ShiftLeft(w.bits, q - w.high));
    } else if q != 0 && w.high - q < WINDOW && !Bit(w.bits, w.high - q) {
      FilledIn(w, accepted, q);
    }
  }

  /** accept: decides one number and moves the window on. */
  method Accept(w: Window, q: seqno, ghost accepted: set<seqno>) returns (ok: bool, w': Window)
    requires Represents(w, accepted)
    ensures (ok, w') == Slide(w, q)
    ensures ok <==> Admits(accepted, q)
    ensures Represents(w', if ok then accepted + {q} else accepted)
    ensures !ok ==> w' == w
  {
    SlideRefinesSet(w, q, accepted);
    if q == 0 {
      return false, w;
    }
    if !w.seen {
      return true, Window(q, 1, true);
    }
    if q > w.high {
      var shift := q - w.high;
      var bits := w.bits;
      if shift >= WINDOW {
        bits := 0;
      } else {
        bits := ShiftLeft(bits, shift);
      }
      return true, Window(q, WithBit(bits, 0), true);
    }
    if w.high - q >= WINDOW {
      return false, w;
    }
    if Bit(w.bits, w.high - q) {
      return false, w;
    }
    return true, w.(bits := WithBit(w.bits, w.high - q));
  }

  lemma FirstAccepted(q: seqno)
    requires q != 0
    ensures Represents(Window(q, 1, true), {q})
  {
    var first: word := 1;
    forall k: nat {:trigger Bit(first, k)} | k < WINDOW
      ensures Bit(first, k) <==> k <= q && q - k in {q}
    {
      ZeroHasNoBits(k);
    }
  }

  lemma Advanced(w: Window, accepted: set<seqno>, q: seqno, shifted: word)
    requires Represents(w, accepted) && w.seen
    requires q > w.high
    requires shifted == if q - w.high >= WINDOW then 0 else ShiftLeft(w.bits, q - w.high)
    ensures Represents(Window(q, WithBit(shifted, 0), true), accepted + {q})
  {
    var advanced := WithBit(shifted, 0);
    forall k: nat {:trigger Bit(advanced, k)} | k < WINDOW
      ensures Bit(advanced, k) <==> k <= q && q - k in accepted + {q}
    {
      WithBitTest(shifted, 0, k);
      ZeroHasNoBits(k);
      if q - w.high < WINDOW {
        ShiftedBit(w.bits, q - w.high, k);
      }
    }
  }

  lemma FilledIn(w: Window, accepted: set<seqno>, q: seqno)
    requires Represents(w, accepted) && w.seen
    requires 0 < q <= w.high && w.high - q < WINDOW
    ensures Represents(w.(bits := WithBit(w.bits, w.high - q)), accepted + {q})
  {
    var filled := WithBit(w.bits, w.high - q);
    forall k: nat {:trigger Bit(filled, k)} | k < WINDOW
      ensures Bit(filled, k) <==> k <= w.high && w.high - k in accepted + {q}
    {
      WithBitTest(w.bits, w.high - q, k);
    }
  }

  // ------------------------------------------------------------ the two ends

  /** One session's two ends and the network between them.

      loads holds, for each sending goroutine inside nextSeq, the counter it has read and
      not yet compared. The receiving end has nothing but its window to decide by. issued and
      accepted list what was issued and what the window let through, in order of time. The
      network may deliver any number ever issued, in any order, any number of times, or never. */
  datatype Link = Link(counter: seqno, loads: map<nat, seqno>, issued: seq<seqno>, window: Window, accepted: seq<seqno>)

  datatype Event =
    | Load(thread: nat)
    | CompareAndSwap(thread: nat)
    | Deliver(q: seqno)

  const FRESH_LINK := Link(0, map[], [], NEW_WINDOW, [])

  predicate Enabled(l: Link, e: Event) {
    match e
    case Load(_) => true
    case CompareAndSwap(t) => t in l.loads
    case Deliver(q) => q in l.issued
  }

  function Accepted(l: Link): set<seqno> {
    set q | q in l.accepted
  }

  function After(l: Link, e: Event): Link
    requires Enabled(l, e)
  {
    match e
    case Load(t) => l.(loads := l.loads[t := l.counter])
    case CompareAndSwap(t) =>
      var cur := l.loads[t];
      if cur < CEILING - 1 && l.counter == cur then
        l.(counter := cur + 1, loads := l.loads - {t}, issued := l.issued + [cur + 1])
      else
        l.(loads := l.loads - {t})
    case Deliver(q) =>
      var (ok, window) := Slide(l.window, q);
      l.(window := window, accepted := if ok then l.accepted + [q] else l.accepted)
  }

  /** states lists what the link looked like before each event and after the last. */
  ghost predicate IsRun(states: seq<Link>, events: seq<Event>) {
    && |states| == |events| + 1
    && states[0] == FRESH_LINK
    && forall i | 0 <= i < |events| :: Enabled(states[i], events[i]) && states[i + 1] == After(states[i], events[i])
  }

  predicate NoRepeats(s: seq<seqno>) {
    forall i, j | 0 <= i < j < |s| :: s[i] != s[j]
  }

  ghost predicate LinkInv(l: Link) {
    && |l.issued| == l.counter < CEILING
    && (forall i | 0 <= i < |l.issued| :: l.issued[i] == i + 1)
    && Represents(l.window, Accepted(l))
    && NoRepeats(l.accepted)
    && (forall q | q in l.accepted :: q in l.issued)
  }

  lemma DeliveryKeepsInv(l: Link, q: seqno)
    requires LinkInv(l) && q in l.issued
    ensures LinkInv(After(l, Deliver(q)))
  {
    SlideRefinesSet(l.window, q, Accepted(l));
    assert Accepted(l.(accepted := l.accepted + [q])) == Accepted(l) + {q};
  }

  lemma {:induction false} LinkInvHolds(states: seq<Link>, events: seq<Event>, i: nat)
    requires IsRun(states, events) && i < |states|
    ensures LinkInv(states[i])
  {
    if i > 0 {
      LinkInvHolds(states, events, i - 1);
      var l, e := states[i - 1], events[i - 1];
      if e.Deliver? {
        DeliveryKeepsInv(l, e.q);
      } else {
        assert Accepted(After(l, e)) == Accepted(l);
      }
    }
  }

  /** However the sending goroutines interleave inside nextSeq, the numbers issued are
      1, 2, 3, ... with none skipped or repeated, and none reaches the ceiling. */
  lemma IssuedNumbersNeverWrap(states: seq<Link>, events: seq<Event>, i: nat)
    requires IsRun(states, events) && i < |states|
    ensures var issued := states[i].issued;
            && |issued| < 0xFFFF_FFF0
            && forall k | 0 <= k < |issued| :: issued[k] == k + 1
  {
    LinkInvHolds(states, events, i);
  }

  /** What a sender compares with is the counter of its last load. */
  lemma {:induction false} ComparesWithItsLoad(states: seq<Link>, events: seq<Event>, j: nat, i: nat, t: nat)
    requires IsRun(states, events) && j < i <= |events|
    requires events[j] == Load(t) && forall k | j < k < i :: events[k] != Load(t) && events[k] != CompareAndSwap(t)
    ensures t in states[i].loads && states[i].loads[t] == |states[j].issued|
  {
    assert Enabled(states[i - 1], events[i - 1]) && states[i] == After(states[i - 1], events[i - 1]);
    if i > j + 1 {
      ComparesWithItsLoad(states, events, j, i - 1, t);
    } else {
      LinkInvHolds(states, events, j);
    }
  }

  /** A sender's compare-and-swap issues the next number exactly when none was issued since its
      load and the ceiling is not reached: below the ceiling one fails only because another
      succeeded, and above it none succeeds again. */
  lemma SwapIsExact(states: seq<Link>, events: seq<Event>, j: nat, i: nat, t: nat)
    requires IsRun(states, events) && j < i < |events|
    requires events[j] == Load(t) && events[i] == CompareAndSwap(t)
    requires forall k | j < k < i :: events[k] != Load(t) && events[k] != CompareAndSwap(t)
    ensures var before, now := |states[j].issued|, states[i].issued;
            states[i + 1].issued == if |now| == before && before < 0xFFFF_FFEF then now + [before + 1] else now
  {
    ComparesWithItsLoad(states, events, j, i, t);
    LinkInvHolds(states, events, i);
  }

  /** Nothing else issues a number, and only a delivery lets one through. */
  lemma OnlySwapsIssue(states: seq<Link>, events: seq<Event>, i: nat)
    requires IsRun(states, events) && i < |events|
    ensures states[i + 1].issued != states[i].issued ==> events[i].CompareAndSwap?
    ensures states[i + 1].accepted != states[i].accepted ==> events[i].Deliver?
  {
  }

  /** The 64 bits are all the memory there is, yet over every run the window lets each number
      through at most once, and only if it was sent. */
  lemma AcceptedAtMostOnce(states: seq<Link>, events: seq<Event>, i: nat)
    requires IsRun(states, events) && i < |states|
    ensures NoRepeats(states[i].accepted)
    ensures forall q | q in states[i].accepted :: q in states[i].issued
  {
    LinkInvHolds(states, events, i);
  }

  /** Reordering inside the window costs nothing: at any point of any run the window lets a
      delivery through exactly when its number never got through before and is fewer than 64
      behind every number that did. */
  lemma FirstArrivalInWindowAccepted(states: seq<Link>, events: seq<Event>, i: nat, q: seqno)
    requires IsRun(states, events) && i < |events| && events[i] == Deliver(q)
    ensures Slide(states[i].window, q).0
            <==> q !in states[i].accepted && forall a | a in states[i].accepted :: a - q < 64
    ensures states[i + 1].accepted == states[i].accepted + (if Slide(states[i].window, q).0 then [q] else [])
  {
    LinkInvHolds(states, events, i);
    SlideRefinesSet(states[i].window, q, Accepted(states[i]));
    assert forall a | a in states[i].accepted :: a in Accepted(states[i]);
  }
}
