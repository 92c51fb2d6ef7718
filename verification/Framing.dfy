/**
 The length-prefixed control stream: the agent wraps each payload behind its
 length, and the client's read loop finds the payloads again however the stream
 cuts the bytes into chunks.
 */
module Framing {
  import opened Bytes

  const FRAME_LIMIT := 65536

  /** The 32-bit length in network order; a longer length loses its upper bits. */
  function BigEndian(n: nat): (r: Text)
    ensures |r| == 4
  {
    [n / 0x100_0000 % 256, n / 0x1_0000 % 256, n / 0x100 % 256, n % 256]
  }

  function FrameLength(header: Text): nat
    requires |header| == 4
  {
    var a: int, b: int, c: int, d: int := header[0], header[1], header[2], header[3];
    a * 0x100_0000 + b * 0x1_0000 + c * 0x100 + d
  }

  lemma LengthRoundTrip(n: nat)
    ensures FrameLength(BigEndian(n)) == n % 0x1_0000_0000
  {
    var a, b, c := n / 0x100, n / 0x1_0000, n / 0x100_0000;
    assert n == 0x100 * a + n % 256;
    assert a == 0x100 * (a / 0x100) + a % 256 && a / 0x100 == b;
    assert b == 0x100 * (b / 0x100) + b % 256 && b / 0x100 == c;
    assert c == 0x100 * (c / 0x100) + c % 256 && c / 0x100 == n / 0x1_0000_0000;
  }

  lemma HeaderRoundTrip(h: Text)
    requires |h| == 4
    ensures BigEndian(FrameLength(h)) == h
  {
    DigitsBack(h[0], h[1], h[2], h[3]);
    assert h == [h[0], h[1], h[2], h[3]];
  }

  lemma DigitsBack(a: int, b: int, c: int, d: int)
    requires 0 <= a < 256 && 0 <= b < 256 && 0 <= c < 256 && 0 <= d < 256
    ensures
      var n := a * 0x100_0000 + b * 0x1_0000 + c * 0x100 + d;
      && n / 0x100_0000 == a && n / 0x100_0000 % 256 == a
      && n / 0x1_0000 % 256 == b && n / 0x100 % 256 == c && n % 256 == d
  {
    var n := a * 0x100_0000 + b * 0x1_0000 + c * 0x100 + d;
    assert n / 0x100 == a * 0x1_0000 + b * 0x100 + c;
    assert n / 0x1_0000 == a * 0x100 + b;
  }

  function Wrap(payload: Text): Text { BigEndian(|payload|) + payload }

  /** The most significant byte of the length comes first, and the payload behind the four. */
  lemma WrappedBytes(payload: Text)
    requires |payload| < 0x1_0000_0000
    ensures
      var t := Wrap(payload);
      && |t| == 4 + |payload| && t[4..] == payload
      && 16777216 * t[0] as int + 65536 * t[1] as int + 256 * t[2] as int + t[3] as int == |payload|
  {
    LengthRoundTrip(|payload|);
  }

  /** wrap_framed_payload: the two copies into the new buffer. */
  method WrapFramedPayload(payload: Text) returns (framed: array<Byte>)
    ensures fresh(framed) && framed[..] == Wrap(payload)
  {
    framed := new Byte[|payload| + 4](_ => 0);
    var header := BigEndian(|payload|);
    forall i | 0 <= i < 4 {
      framed[i] := header[i];
    }
    forall i | 0 <= i < |payload| {
      framed[4 + i] := payload[i];
    }
    assert framed[..4] == header;
    assert framed[4..] == payload;
    assert framed[..] == framed[..4] + framed[4..];
  }

  function Framed(payloads: seq<Text>): Text {
    if payloads == [] then [] else Wrap(payloads[0]) + Framed(payloads[1..])
  }

  predicate Sendable(payloads: seq<Text>) {
    forall i :: 0 <= i < |payloads| ==> 0 < |payloads[i]| < FRAME_LIMIT
  }

  // ----- what the loop should find in the bytes sent

  predicate Acceptable(n: nat) { 0 < n < FRAME_LIMIT }

  /** No complete frame stands at the front: cut short, or its length is refused. */
  predicate Stuck(wire: Text) {
    || |wire| < 4
    || !Acceptable(FrameLength(wire[..4]))
    || |wire| < 4 + FrameLength(wire[..4])
  }

  function Payloads(wire: Text): (r: seq<Text>)
    decreases |wire|
  {
    if Stuck(wire) then [] else
      var n := FrameLength(wire[..4]);
      [wire[4..4 + n]] + Payloads(wire[4 + n..])
  }

  /** The bytes after the last complete frame. */
  function Tail(wire: Text): (r: Text)
    decreases |wire|
  {
    if Stuck(wire) then wire else Tail(wire[4 + FrameLength(wire[..4])..])
  }

  /** A length prefix is consumed before its payload is waited for. */
  function Unread(tail: Text): Text { if |tail| < 4 then tail else tail[4..] }

  predicate Refused(tail: Text) { |tail| >= 4 && !Acceptable(FrameLength(tail[..4])) }

  lemma FrontFrame(wire: Text)
    requires !Stuck(wire)
    ensures wire == Wrap(wire[4..4 + FrameLength(wire[..4])]) + wire[4 + FrameLength(wire[..4])..]
  {
    HeaderRoundTrip(wire[..4]);
    var n := FrameLength(wire[..4]);
    assert wire == wire[..4] + wire[4..4 + n] + wire[4 + n..];
  }

  /** Every byte string is frames and then a tail with no complete frame at its front. */
  lemma {:induction false} WireSplits(wire: Text)
    ensures wire == Framed(Payloads(wire)) + Tail(wire)
    ensures Sendable(Payloads(wire)) && Stuck(Tail(wire))
    decreases |wire|
  {
    if !Stuck(wire) {
      FrontFrame(wire);
      var n := FrameLength(wire[..4]);
      var p, rest := wire[4..4 + n], wire[4 + n..];
      WireSplits(rest);
      assert ([p] + Payloads(rest))[1..] == Payloads(rest);
      assert wire == (Wrap(p) + Framed(Payloads(rest))) + Tail(rest);
    }
  }

  lemma WrapShape(p: Text, rest: Text)
    ensures (Wrap(p) + rest)[..4] == BigEndian(|p|)
    ensures (Wrap(p) + rest)[4..4 + |p|] == p && (Wrap(p) + rest)[4 + |p|..] == rest
  {
  }

  lemma FrameInFront(p: Text, rest: Text, wire: Text)
    requires Acceptable(|p|) && wire == Wrap(p) + rest
    ensures Payloads(wire) == [p] + Payloads(rest)
    ensures Tail(wire) == Tail(rest)
  {
    LengthRoundTrip(|p|);
    WrapShape(p, rest);
    var n := FrameLength(wire[..4]);
    assert n == |p|;
    assert !Stuck(wire);
  }

  lemma Regroup<T>(a: seq<T>, b: seq<T>, c: seq<T>)
    ensures (a + b) + c == a + (b + c)
  {
  }

  lemma {:induction false} FramesInFront(payloads: seq<Text>, rest: Text)
    requires Sendable(payloads)
    ensures Payloads(Framed(payloads) + rest) == payloads + Payloads(rest)
    ensures Tail(Framed(payloads) + rest) == Tail(rest)
  {
    if payloads == [] {
      assert [] + rest == rest && [] + Payloads(rest) == Payloads(rest);
    } else {
      var p, others := payloads[0], payloads[1..];
      FramesInFront(others, rest);
      OneInFront(p, Framed(others), rest, others);
      assert payloads == [p] + others;
    }
  }

  lemma OneInFront(p: Text, framed: Text, rest: Text, others: seq<Text>)
    requires Acceptable(|p|) && Payloads(framed + rest) == others + Payloads(rest)
    ensures Payloads((Wrap(p) + framed) + rest) == ([p] + others) + Payloads(rest)
    ensures Tail((Wrap(p) + framed) + rest) == Tail(framed + rest)
  {
    Regroup(Wrap(p), framed, rest);
    FrameInFront(p, framed + rest, (Wrap(p) + framed) + rest);
    Regroup([p], others, Payloads(rest));
  }

  /** The split is the only one: no other frames and stuck tail give the same bytes. */
  lemma SplitIsUnique(payloads: seq<Text>, tail: Text)
    requires Sendable(payloads) && Stuck(tail)
    ensures Payloads(Framed(payloads) + tail) == payloads
    ensures Tail(Framed(payloads) + tail) == tail
  {
    FramesInFront(payloads, tail);
  }

  /** What was sent whole is found whole, with nothing left over. */
  lemma SentIsFound(payloads: seq<Text>)
    requires Sendable(payloads)
    ensures Payloads(Framed(payloads)) == payloads && Tail(Framed(payloads)) == []
  {
    SplitIsUnique(payloads, []);
    assert Framed(payloads) + [] == Framed(payloads);
  }

  /** More bytes never take back or alter a payload already found. */
  lemma DeliveryGrows(early: Text, late: Text)
    ensures Payloads(early + late) == Payloads(early) + Payloads(Tail(early) + late)
  {
    WireSplits(early);
    assert early + late == Framed(Payloads(early)) + (Tail(early) + late);
    FramesInFront(Payloads(early), Tail(early) + late);
  }

  // ----- the client's read loop

  /** The bytes a stream still gives: an empty chunk, or none, is the end. */
  function Wire(chunks: seq<Text>): Text {
    if chunks == [] || chunks[0] == [] then [] else chunks[0] + Wire(chunks[1..])
  }

  /** The bytes at hand are the unread ones, but perhaps for a length prefix already consumed. */
  predicate UpToPrefix(unread: Text, ahead: Text) {
    ahead == unread || (|unread| >= 4 && ahead == unread[4..])
  }

  class ControlReader {
    var buffer: Text
    var chunks: seq<Text>
    /** How many more cancellation checks pass; None: the task is never cancelled. */
    var patience: Option<nat>
    var cancelled: bool

    constructor (chunks: seq<Text>, patience: Option<nat>)
      ensures buffer == [] && this.chunks == chunks && this.patience == patience && !cancelled
    {
      this.buffer, this.chunks, this.patience, this.cancelled := [], chunks, patience, false;
    }

    ghost function Ahead(): Text
      reads this`buffer, this`chunks
    {
      buffer + Wire(chunks)
    }

    method CheckCancellation()
      requires !cancelled
      modifies this`patience, this`cancelled
      ensures old(patience).None? ==> patience.None? && !cancelled
    {
      if patience.Some? {
        cancelled := patience.value == 0;
        patience := Some(if patience.value == 0 then 0 else patience.value - 1);
      }
    }

    /** readExactly: fails when cancelled, or when the stream ends before count bytes are there. */
    method ReadExactly(count: nat) returns (r: Option<Text>)
      requires !cancelled
      modifies this
      ensures old(patience).None? ==> patience.None? && !cancelled
      ensures r.Some? ==> !cancelled && |old(Ahead())| >= count
      ensures r.Some? ==> r.value == old(Ahead())[..count] && Ahead() == old(Ahead())[count..]
      ensures r.None? ==> Ahead() == old(Ahead())
      ensures r.None? && !cancelled ==> |old(Ahead())| < count && buffer == old(Ahead())
    {
      while |buffer| < count
        invariant Ahead() == old(Ahead()) && !cancelled
        invariant old(patience).None? ==> patience.None?
        decreases |chunks|
      {
        CheckCancellation();
        if cancelled || chunks == [] {
          return None;
        }
        var chunk := chunks[0];
        if chunk == [] {
          return None;
        }
        Regroup(buffer, chunk, Wire(chunks[1..]));
        chunks := chunks[1..];
        buffer := buffer + chunk;
      }
      assert Ahead()[..count] == buffer[..count];
      assert Ahead()[count..] == buffer[count..] + Wire(chunks);
      r := Some(buffer[..count]);
      buffer := buffer[count..];
    }

    /**
     controlReadLoop: unless the task is cancelled, all payloads are handed on, whatever
     the chunks were. A cancelled one has handed on the payloads in front of `unread`.
     */
    method ReadLoop() returns (delivered: seq<Text>, refused: bool, ghost unread: Text)
      requires !cancelled
      modifies this
      ensures old(patience).None? ==> !cancelled
      ensures !cancelled ==> delivered == Payloads(old(Ahead())) && unread == Tail(old(Ahead()))
      ensures !cancelled ==> refused == Refused(unread) && Ahead() == Unread(unread) && (!refused ==> buffer == Ahead())
      ensures cancelled ==> delivered + Payloads(unread) == Payloads(old(Ahead())) && UpToPrefix(unread, Ahead())
    {
      delivered, refused, unread := [], false, Ahead();
      while true
        invariant !cancelled && unread == Ahead() && (old(patience).None? ==> patience.None?)
        invariant delivered + Payloads(unread) == Payloads(old(Ahead()))
        invariant Tail(unread) == Tail(old(Ahead()))
        decreases |unread|
      {
        CheckCancellation();
        if cancelled {
          return;
        }
        var payload;
        payload, refused := ReadFrame();
        if payload == None {
          return;
        }
        delivered := delivered + [payload.value];
        unread := Ahead();
      }
    }

    /** One turn of the loop: the length, and the payload if the length is accepted. */
    method ReadFrame() returns (payload: Option<Text>, refused: bool)
      requires !cancelled
      modifies this
      ensures old(patience).None? ==> patience.None? && !cancelled
      ensures cancelled ==> payload == None && UpToPrefix(old(Ahead()), Ahead())
      ensures
        var wire := old(Ahead());
        !cancelled ==>
          if Stuck(wire)
          then payload == None && refused == Refused(wire) && Ahead() == Unread(wire) && (!refused ==> buffer == Ahead())
          else
            var n := FrameLength(wire[..4]);
            payload == Some(wire[4..4 + n]) && Ahead() == wire[4 + n..]
    {
      ghost var wire := Ahead();
      var header := ReadExactly(4);
      if header == None {
        return None, false;
      }
      var length := FrameLength(header.value);
      if !(length > 0 && length < 65536) {
        return None, true;
      }
      payload := ReadExactly(length);
      refused := false;
      if payload != None {
        assert payload.value == wire[4..4 + length];
        assert wire[4..][length..] == wire[4 + length..];
      }
    }
  }

  /** Sent by the agent, cut up anyhow, read by a client that is not cancelled. */
  method Transfer(payloads: seq<Text>, chunks: seq<Text>) returns (delivered: seq<Text>)
    requires Sendable(payloads) && Wire(chunks) == Framed(payloads)
    ensures delivered == payloads
  {
    var reader := new ControlReader(chunks, None);
    assert [] + Wire(chunks) == Framed(payloads);
    SentIsFound(payloads);
    var refused;
    ghost var unread;
    delivered, refused, unread := reader.ReadLoop();
  }
}
