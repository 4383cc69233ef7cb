/**
 * The heartbeat link (ESP32-Firmware/src/Heartbeat.cpp, include/Heartbeat.h): the
 * 5-byte frame `AA 55 id seq crc`, the byte-at-a-time receive parser that records the
 * peer's identity and the time of its last valid frame, the sender with its wrapping
 * sequence counter, and the liveness test.
 *
 * The serial port is modelled by values: received bytes are handed to `Tick` as a
 * sequence, transmitted bytes are appended to the field `sent`, and the clock reading
 * `millis()` becomes the parameter `now`.
 */
module HeartbeatLink {
  import opened TimeUtil
  import opened Crc

  const SYNC1: bv8 := 0xAA
  const SYNC2: bv8 := 0x55
  /** `_peerId` before any frame has been accepted: the character '?'. */
  const UNKNOWN_PEER: bv8 := 0x3F
  /** `_lastRxMs` value meaning "no frame received yet". */
  const NEVER: Millis := 0

  /** The frame `send` writes: both sync bytes, the sender id, the sequence number, and the CRC of id and sequence. */
  function Frame(id: bv8, counter: bv8): (f: seq<bv8>)
    ensures |f| == 5 && f[0] == SYNC1 && f[1] == SYNC2 && f[2] == id && f[3] == counter
    ensures Crc8([f[2], f[3], f[4]]) == 0
  {
    var f := [SYNC1, SYNC2, id, counter, Crc8([id, counter])];
    Crc8Residue([id, counter], f[4]);
    assert [id, counter] + [f[4]] == [f[2], f[3], f[4]];
    f
  }

  /**
   * The receive side of the link: parser state (0 = waiting for 0xAA, 1 = waiting for
   * 0x55, 2 = id, 3 = sequence, 4 = CRC), payload write index, the 2-byte payload
   * buffer, and what the last valid frame told us.
   */
  datatype Link = Link(state: nat, idx: nat, buf: seq<bv8>, peerId: bv8, lastRxMs: Millis)

  /** The payload buffer holds two bytes, and the states that write it have their index in range. */
  predicate WellFormed(l: Link) {
    && |l.buf| == 2
    && (l.state == 2 ==> l.idx == 0)
    && (l.state == 3 ==> l.idx == 1)
  }

  /** The link as the member initialisers of `Heartbeat` leave it. */
  function Initial(): (l: Link)
    ensures WellFormed(l) && l.state == 0 && l.lastRxMs == NEVER
  {
    Link(0, 0, [0, 0], UNKNOWN_PEER, NEVER)
  }

  /** A frame that checks: the received CRC equals the CRC of the buffered id and sequence. */
  predicate Accepts(l: Link, b: bv8)
    requires |l.buf| == 2
  {
    l.state == 4 && b == Crc8(l.buf)
  }

  /**
   * `parseByte`: one step of the receive state machine on byte `b` at time `now`.
   * The parser never leaves states 0..4 and only writes the buffer at index 0 (state 2)
   * and index 1 (state 3).
   */
  function Step(l: Link, b: bv8, now: Millis): (r: Link)
    requires WellFormed(l)
    ensures WellFormed(r) && r.state <= 4
  {
    if l.state == 0 then
      l.(state := if b == SYNC1 then 1 else 0)
    else if l.state == 1 then
      if b == SYNC2 then l.(state := 2, idx := 0) else l.(state := 0)
    else if l.state == 2 then
      l.(buf := l.buf[l.idx := b], idx := l.idx + 1, state := 3)
    else if l.state == 3 then
      l.(buf := l.buf[l.idx := b], idx := l.idx + 1, state := 4)
    else if l.state == 4 then
      if b == Crc8(l.buf) then l.(peerId := l.buf[0], lastRxMs := now, state := 0)
      else l.(state := 0)
    else
      l.(state := 0)
  }

  /** `tick`: every received byte parsed in order. */
  function Feed(l: Link, bytes: seq<bv8>, now: Millis): (r: Link)
    requires WellFormed(l)
    ensures WellFormed(r)
    decreases |bytes|
  {
    if bytes == [] then l else Feed(Step(l, bytes[0], now), bytes[1..], now)
  }

  /** `peerAlive`: a frame has been received (`lastRxMs != 0`) and at most `timeout` ms have passed since, modulo 2^32. */
  function PeerAlive(lastRxMs: Millis, now: Millis, timeout: Millis): (alive: bool)
    ensures alive <==> lastRxMs != NEVER && (now - lastRxMs) % WRAP <= timeout
  {
    if lastRxMs == NEVER then false else Sub(now, lastRxMs) <= timeout
  }

  // ---------------------------------------------------------------------------
  // Properties of one parser step

  /**
   * Resynchronisation: a byte other than 0xAA while waiting for the first sync byte,
   * or other than 0x55 while waiting for the second (a repeated 0xAA included), puts
   * the parser back to waiting for 0xAA and records nothing.
   */
  lemma StepResync(l: Link, b: bv8, now: Millis)
    requires WellFormed(l)
    requires (l.state == 0 && b != SYNC1) || (l.state == 1 && b != SYNC2)
    ensures Step(l, b, now) == l.(state := 0)
  {
  }

  /** After the CRC byte the parser waits for a new frame, whether the CRC matched or not. */
  lemma StepAfterCrcByte(l: Link, b: bv8, now: Millis)
    requires WellFormed(l) && l.state == 4
    ensures Step(l, b, now).state == 0
  {
  }

  /**
   * The peer's id and receive time change only when a complete frame's CRC matches,
   * and then they become the buffered id and `now`; on a mismatch both are kept.
   */
  lemma StepRecordsOnlyValidFrames(l: Link, b: bv8, now: Millis)
    requires WellFormed(l)
    ensures Accepts(l, b) ==> Step(l, b, now).peerId == l.buf[0] && Step(l, b, now).lastRxMs == now
    ensures !Accepts(l, b) ==> Step(l, b, now).peerId == l.peerId && Step(l, b, now).lastRxMs == l.lastRxMs
  {
  }

  // ---------------------------------------------------------------------------
  // Properties of feeding byte sequences

  /** Parsing two chunks one after the other is parsing their concatenation. */
  lemma {:induction false} FeedAppend(l: Link, a: seq<bv8>, b: seq<bv8>, now: Millis)
    requires WellFormed(l)
    ensures Feed(l, a + b, now) == Feed(Feed(l, a, now), b, now)
    decreases |a|
  {
    if a == [] {
      assert a + b == b;
    } else {
      assert (a + b)[0] == a[0];
      assert (a + b)[1..] == a[1..] + b;
      FeedAppend(Step(l, a[0], now), a[1..], b, now);
    }
  }

  /** Five bytes are five steps. */
  lemma Feed5(l: Link, f: seq<bv8>, now: Millis)
    requires WellFormed(l) && |f| == 5
    ensures Feed(l, f, now) ==
      Step(Step(Step(Step(Step(l, f[0], now), f[1], now), f[2], now), f[3], now), f[4], now)
  {
    var l1 := Step(l, f[0], now);
    var l2 := Step(l1, f[1], now);
    var l3 := Step(l2, f[2], now);
    var l4 := Step(l3, f[3], now);
    var l5 := Step(l4, f[4], now);
    assert f[1..][1..][1..][1..][1..] == [];
    calc {
      Feed(l, f, now);
      Feed(l1, f[1..], now);
      Feed(l2, f[1..][1..], now);
      Feed(l3, f[1..][1..][1..], now);
      Feed(l4, f[1..][1..][1..][1..], now);
      Feed(l5, f[1..][1..][1..][1..][1..], now);
    }
  }

  /**
   * Round trip: a parser waiting for a frame that is fed the five bytes `send` writes
   * for (`id`, `counter`) records `peerId := id` and `lastRxMs := now`, and waits for the
   * next frame.
   */
  lemma FrameAccepted(l: Link, id: bv8, counter: bv8, now: Millis)
    requires WellFormed(l) && l.state == 0
    ensures Feed(l, Frame(id, counter), now) == l.(state := 0, idx := 2, buf := [id, counter], peerId := id, lastRxMs := now)
  {
    var f := Frame(id, counter);
    Feed5(l, f, now);
    var l4 := Step(Step(Step(Step(l, f[0], now), f[1], now), f[2], now), f[3], now);
    assert l4.buf == [id, counter] && l4.state == 4;
  }

  /**
   * A frame with any one byte replaced by a different value -- a sync byte, the id, the
   * sequence number or the CRC -- fed to a parser waiting for a frame leaves the peer's
   * id and receive time as they were.
   */
  lemma CorruptedFrameRejected(l: Link, id: bv8, counter: bv8, k: nat, x: bv8, now: Millis)
    requires WellFormed(l) && l.state == 0
    requires k < 5 && x != Frame(id, counter)[k]
    ensures var r := Feed(l, Frame(id, counter)[k := x], now);
      r.peerId == l.peerId && r.lastRxMs == l.lastRxMs
  {
    var f := Frame(id, counter)[k := x];
    Feed5(l, f, now);
    if k <= 1 {
      CorruptedSyncRejected(l, f, now);
    } else {
      if k < 4 {
        Crc8DetectsPayloadByte(id, counter, f[2], f[3]);
      }
      CorruptedPayloadRejected(l, f, Crc8([id, counter]), now);
    }
  }

  /** Five bytes starting with exactly one of the two sync bytes wrong never complete a frame. */
  lemma CorruptedSyncRejected(l: Link, f: seq<bv8>, now: Millis)
    requires WellFormed(l) && l.state == 0 && |f| == 5
    requires (f[0] != SYNC1 && f[1] == SYNC2) || (f[0] == SYNC1 && f[1] != SYNC2)
    ensures var r := Step(Step(Step(Step(Step(l, f[0], now), f[1], now), f[2], now), f[3], now), f[4], now);
      r.peerId == l.peerId && r.lastRxMs == l.lastRxMs
  {
    var l2 := Step(Step(l, f[0], now), f[1], now);
    assert l2.state == 0 && l2.peerId == l.peerId && l2.lastRxMs == l.lastRxMs;
    var l3 := Step(l2, f[2], now);
    assert l3.state <= 1;
    var l4 := Step(l3, f[3], now);
    assert l4.state <= 2;
  }

  /** Five bytes `AA 55 a b c` whose `c` is not the CRC of `a b` leave the peer's record alone. */
  lemma CorruptedPayloadRejected(l: Link, f: seq<bv8>, crc: bv8, now: Millis)
    requires WellFormed(l) && l.state == 0 && |f| == 5
    requires f[0] == SYNC1 && f[1] == SYNC2 && f[4] != Crc8([f[2], f[3]])
    ensures var r := Step(Step(Step(Step(Step(l, f[0], now), f[1], now), f[2], now), f[3], now), f[4], now);
      r.peerId == l.peerId && r.lastRxMs == l.lastRxMs
  {
    var l4 := Step(Step(Step(Step(l, f[0], now), f[1], now), f[2], now), f[3], now);
    assert l4.state == 4 && l4.buf == [f[2], f[3]];
    assert l4.peerId == l.peerId && l4.lastRxMs == l.lastRxMs;
  }

  /** In particular, flipping any single bit of a sent frame makes the receiver ignore it. */
  lemma BitFlipRejected(l: Link, id: bv8, counter: bv8, k: nat, bit: nat, now: Millis)
    requires WellFormed(l) && l.state == 0
    requires k < 5 && bit < 8
    ensures var f := Frame(id, counter);
      var r := Feed(l, f[k := f[k] ^ (1 as bv8 << bit)], now);
      r.peerId == l.peerId && r.lastRxMs == l.lastRxMs
  {
    var f := Frame(id, counter);
    var mask := 1 as bv8 << bit;
    assert mask != 0 by {
      assert bit == 0 || bit == 1 || bit == 2 || bit == 3 || bit == 4 || bit == 5 || bit == 6 || bit == 7;
    }
    assert f[k] ^ mask != f[k];
    CorruptedFrameRejected(l, id, counter, k, f[k] ^ mask, now);
  }

  /**
   * The repeated-sync quirk: a stray 0xAA right before a frame moves the parser to
   * "waiting for 0x55"; the frame's own 0xAA then drops it back to state 0 rather than
   * staying at state 1, and the whole frame is lost.
   */
  lemma RepeatedSyncLosesFrame(l: Link, id: bv8, counter: bv8, now: Millis)
    requires WellFormed(l) && l.state == 0
    ensures var r := Feed(l, [SYNC1] + Frame(id, counter), now);
      r.peerId == l.peerId && r.lastRxMs == l.lastRxMs
  {
    var f := Frame(id, counter);
    var l1 := Step(l, SYNC1, now);
    assert Feed(l, [SYNC1] + f, now) == Feed(l1, f, now) by {
      assert ([SYNC1] + f)[1..] == f;
    }
    Feed5(l1, f, now);
    var l2 := Step(l1, f[0], now);
    var l3 := Step(l2, f[1], now);
    assert l3.state == 0 && l3.peerId == l.peerId && l3.lastRxMs == l.lastRxMs;
  }

  /** A byte that is neither sync byte takes the parser one state closer to waiting for a frame. */
  lemma StepOnNonSync(l: Link, b: bv8, now: Millis)
    requires WellFormed(l) && b != SYNC1 && b != SYNC2
    ensures var r := Step(l, b, now);
      r.state == 0 || (l.state == 2 && r.state == 3) || (l.state == 3 && r.state == 4)
  {
  }

  /**
   * Resynchronisation as the code supports it: whatever state noise left the parser in,
   * three bytes that are neither 0xAA nor 0x55 bring it back to state 0, so the next
   * well-formed frame is accepted.
   */
  lemma ResyncAfterQuietBytes(l: Link, noise: seq<bv8>, quiet: seq<bv8>, id: bv8, counter: bv8, now: Millis)
    requires WellFormed(l)
    requires |quiet| == 3 && forall i :: 0 <= i < 3 ==> quiet[i] != SYNC1 && quiet[i] != SYNC2
    ensures var r := Feed(l, noise + quiet + Frame(id, counter), now);
      r.peerId == id && r.lastRxMs == now
  {
    var m := Feed(l, noise, now);
    var q := Feed(m, quiet, now);
    FeedAppend(l, noise, quiet, now);
    FeedAppend(l, noise + quiet, Frame(id, counter), now);
    var m1 := Step(m, quiet[0], now);
    var m2 := Step(m1, quiet[1], now);
    var m3 := Step(m2, quiet[2], now);
    StepOnNonSync(m, quiet[0], now);
    StepOnNonSync(m1, quiet[1], now);
    StepOnNonSync(m2, quiet[2], now);
    assert q == m3 by {
      assert quiet[1..][1..][1..] == [];
      calc {
        Feed(m, quiet, now);
        Feed(m1, quiet[1..], now);
        Feed(m2, quiet[1..][1..], now);
        Feed(m3, quiet[1..][1..][1..], now);
      }
    }
    FrameAccepted(q, id, counter, now);
  }

  // ---------------------------------------------------------------------------
  // Liveness

  /** Liveness stays correct across a clock wrap: `d` ms after a frame at `t`, the peer is alive iff `d <= timeout`. */
  lemma PeerAliveAfter(t: Millis, d: Millis, timeout: Millis)
    requires t != NEVER
    ensures PeerAlive(t, Add(t, d), timeout) <==> d <= timeout
  {
    assert Sub(Add(t, d), t) == d;
  }

  /** A frame accepted at `now != 0` makes the peer alive at that instant, for any timeout. */
  lemma AliveAfterFrame(l: Link, id: bv8, counter: bv8, now: Millis, timeout: Millis)
    requires WellFormed(l) && l.state == 0 && now != NEVER
    ensures PeerAlive(Feed(l, Frame(id, counter), now).lastRxMs, now, timeout)
  {
    FrameAccepted(l, id, counter, now);
  }

  /**
   * The "never received" sentinel: a frame accepted exactly when the clock reads 0
   * stores `lastRxMs == 0`, so the peer still counts as never heard from.
   */
  lemma FrameAtZeroLooksLikeSilence(l: Link, id: bv8, counter: bv8, later: Millis, timeout: Millis)
    requires WellFormed(l) && l.state == 0
    ensures !PeerAlive(Feed(l, Frame(id, counter), 0).lastRxMs, later, timeout)
  {
    FrameAccepted(l, id, counter, 0);
  }

  /**
   * `class Heartbeat`: the parser registers, the payload buffer (a 2-byte array), the
   * function-local `static` sequence counter of `send` (here a field), and the bytes
   * written to the serial port so far.
   */
  class Heartbeat {
    var state: nat
    var idx: nat
    var buf: array<bv8>
    var peerId: bv8
    var lastRxMs: Millis
    var counter: bv8
    var sent: seq<bv8>

    ghost predicate Valid()
      reads this, buf
    {
      buf.Length == 2 && WellFormed(Link(state, idx, buf[..], peerId, lastRxMs))
    }

    /** The receive registers as a `Link` value. */
    function Abs(): (l: Link)
      reads this, buf
    {
      Link(state, idx, buf[..], peerId, lastRxMs)
    }

    constructor ()
      ensures Valid() && fresh(buf)
      ensures Abs() == Initial() && counter == 0 && sent == []
    {
      state, idx := 0, 0;
      buf := new bv8[2](_ => 0);
      peerId := UNKNOWN_PEER;
      lastRxMs := NEVER;
      counter := 0;
      sent := [];
    }

    /** `parseByte`, with the clock reading passed in. */
    method ParseByte(b: bv8, now: Millis)
      requires Valid()
      modifies this, buf
      ensures Valid() && buf == old(buf)
      ensures Abs() == Step(old(Abs()), b, now)
      ensures counter == old(counter) && sent == old(sent)
    {
      ghost var l := Abs();
      if state == 0 {
        state := if b == SYNC1 then 1 else 0;
      } else if state == 1 {
        if b == SYNC2 {
          state := 2;
          idx := 0;
        } else {
          state := 0;
        }
      } else if state == 2 {
        buf[idx] := b;
        idx := idx + 1;
        state := 3;
        assert buf[..] == l.buf[l.idx := b];
      } else if state == 3 {
        buf[idx] := b;
        idx := idx + 1;
        state := 4;
        assert buf[..] == l.buf[l.idx := b];
      } else if state == 4 {
        var got := b;
        var expected := ComputeCrc8(buf[..]);
        if got == expected {
          peerId := buf[0];
          lastRxMs := now;
        }
        state := 0;
      } else {
        state := 0;
      }
    }

    /** `tick`: drain every available byte through the parser. */
    method Tick(input: seq<bv8>, now: Millis)
      requires Valid()
      modifies this, buf
      ensures Valid() && buf == old(buf)
      ensures Abs() == Feed(old(Abs()), input, now)
      ensures counter == old(counter) && sent == old(sent)
    {
      var i := 0;
      while i < |input|
        invariant 0 <= i <= |input|
        invariant Valid() && buf == old(buf)
        invariant Abs() == Feed(old(Abs()), input[..i], now)
        invariant counter == old(counter) && sent == old(sent)
      {
        ghost var before := Abs();
        ParseByte(input[i], now);
        FeedAppend(old(Abs()), input[..i], [input[i]], now);
        assert input[..i + 1] == input[..i] + [input[i]];
        assert Feed(before, [input[i]], now) == Step(before, input[i], now);
        i := i + 1;
      }
      assert input[..i] == input;
    }

    /** `send`: write one frame for `myId` and advance the 8-bit sequence counter, wrapping 255 to 0. */
    method Send(myId: bv8)
      requires Valid()
      modifies this
      ensures Valid() && Abs() == old(Abs())
      ensures sent == old(sent) + Frame(myId, old(counter))
      ensures counter == old(counter) + 1
    {
      var pkt := new bv8[5];
      pkt[0] := SYNC1;
      pkt[1] := SYNC2;
      pkt[2] := myId;
      pkt[3] := counter;
      counter := counter + 1;
      var crc := ComputeCrc8(pkt[2..4]);
      pkt[4] := crc;
      assert pkt[2..4] == [myId, old(counter)];
      sent := sent + pkt[..];
    }

    /** `peerAlive`. */
    function Alive(now: Millis, timeout: Millis): (alive: bool)
      reads this
      ensures alive <==> lastRxMs != NEVER && (now - lastRxMs) % WRAP <= timeout
    {
      PeerAlive(lastRxMs, now, timeout)
    }
  }
}
