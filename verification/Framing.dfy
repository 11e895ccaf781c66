/**
 The length-prefixed messages of the display and audio protocols, sent over a stream socket whose
 reads and writes may be cut short, interrupted or refused at any point.
 */
module Framing {

  datatype Option<+T> = None | Some(value: T)

  type Byte = x | 0 <= x < 256
  type Word = x | 0 <= x < 0x1_0000_0000

  const CDP_MAX_PAYLOAD := 4352
  const AUDIO_MAX_PAYLOAD := 32768
  const DISCARD := 256

  // ---------------------------------------------------------------- the format

  function Encode(v: Word): (r: seq<Byte>)
    ensures |r| == 4
  {
    [v % 0x100, v / 0x100 % 0x100, v / 0x1_0000 % 0x100, v / 0x100_0000]
  }

  function Decode(b: seq<Byte>): Word
    requires |b| == 4
  {
    var b0: int, b1: int, b2: int, b3: int := b[0], b[1], b[2], b[3];
    b0 + 0x100 * b1 + 0x1_0000 * b2 + 0x100_0000 * b3
  }

  lemma DecodeEncode(v: Word)
    ensures Decode(Encode(v)) == v
  {
    var a, b := v / 0x100, v / 0x1_0000;
    assert v == v % 0x100 + 0x100 * a;
    assert a == a % 0x100 + 0x100 * b;
    assert b == b % 0x100 + 0x100 * (v / 0x100_0000);
  }

  function Header(kind: Word, size: Word): (r: seq<Byte>)
    ensures |r| == 8
  {
    Encode(kind) + Encode(size)
  }

  /** A payload's length fits the header's 32-bit size field. */
  type Payload = p: seq<Byte> | |p| < 0x1_0000_0000

  datatype Message = Message(kind: Word, payload: Payload)

  predicate Fits(m: Message, limit: nat)
  {
    |m.payload| <= limit
  }

  function Frame(m: Message): seq<Byte>
  {
    Header(m.kind, |m.payload|) + m.payload
  }

  function Frames(ms: seq<Message>): seq<Byte>
  {
    if ms == [] then [] else Frame(ms[0]) + Frames(ms[1..])
  }

  /** A number from its bytes, lowest first. */
  function Number(b: seq<Byte>): nat
  {
    if b == [] then 0 else b[0] + 256 * Number(b[1..])
  }

  /** On the wire: the kind in four bytes, the payload's length in four, both lowest byte first, then the payload. */
  lemma FrameLayout(m: Message)
    ensures var b := Frame(m); |b| == 8 + |m.payload| && Number(b[..4]) == m.kind && Number(b[4..8]) == |m.payload| && b[8..] == m.payload
  {
    var b := Frame(m);
    assert b[..4] == Encode(m.kind) && b[4..8] == Encode(|m.payload|) && b[8..] == m.payload;
    NumberOfEncoded(m.kind);
    NumberOfEncoded(|m.payload|);
  }

  lemma NumberOfEncoded(v: Word)
    ensures Number(Encode(v)) == v
  {
    var b := Encode(v);
    NumberOfFour(b);
    DecodeEncode(v);
  }

  lemma NumberOfFour(b: seq<Byte>)
    requires |b| == 4
    ensures Number(b) == Decode(b)
  {
    assert b[1..][1..] == b[2..] && b[2..][1..] == b[3..] && b[3..][1..] == [];
    assert Number(b[3..]) == b[3] && Number(b[2..]) == b[2] + 256 * Number(b[3..]) && Number(b[1..]) == b[1] + 256 * Number(b[2..]);
  }

  function Min(a: nat, b: nat): nat
  {
    if a < b then a else b
  }

  datatype Outcome =
    | Got(kind: Word, size: Word, payload: seq<Byte>, rest: seq<Byte>)
    | TooBig(rest: seq<Byte>)
    | Short

  /** What a receiver with room for `max` payload bytes makes of a byte stream. */
  function Receive(b: seq<Byte>, limit: nat, max: nat): Outcome
  {
    if |b| < 8 then Short
    else
      var size := Decode(b[4..8]);
      if size > limit then TooBig(b[8..])
      else if |b| < 8 + size then Short
      else Got(Decode(b[..4]), size, b[8..8 + Min(size, max)], b[8 + size..])
  }

  function Truncated(m: Message, max: nat): Outcome
  {
    Got(m.kind, |m.payload|, m.payload[..Min(|m.payload|, max)], [])
  }

  /** One frame is read back whole, whatever follows it. */
  lemma FrameRoundTrip(m: Message, rest: seq<Byte>, limit: nat, max: nat)
    requires Fits(m, limit)
    ensures Receive(Frame(m) + rest, limit, max) ==
      Got(m.kind, |m.payload|, m.payload[..Min(|m.payload|, max)], rest)
  {
    var b, n := Frame(m) + rest, |m.payload|;
    DecodeEncode(m.kind);
    DecodeEncode(n);
    assert b[..4] == Encode(m.kind) && b[4..8] == Encode(n);
    assert b[8..8 + Min(n, max)] == m.payload[..Min(n, max)];
    assert b[8 + n..] == rest;
  }

  lemma EncodeDecode(b: seq<Byte>)
    requires |b| == 4
    ensures Encode(Decode(b)) == b
  {
    var b0: int, b1: int, b2: int, b3: int := b[0], b[1], b[2], b[3];
    var v, a, c := Decode(b), b1 + 0x100 * (b2 + 0x100 * b3), b2 + 0x100 * b3;
    assert v == b0 + 0x100 * a && a == b1 + 0x100 * c;
    assert v / 0x100 == a && v % 0x100 == b0;
    assert v / 0x1_0000 == c && v / 0x100_0000 == b3;
  }

  /** The converse: a message delivered whole was framed exactly so, and nothing else was consumed. */
  lemma DeliveredWasFramed(b: seq<Byte>, limit: nat, max: nat)
    requires Receive(b, limit, max).Got? && Receive(b, limit, max).size <= max
    ensures var o := Receive(b, limit, max);
      |o.payload| == o.size && b == Frame(Message(o.kind, o.payload)) + o.rest
  {
    EncodeDecode(b[..4]);
    EncodeDecode(b[4..8]);
    var size := Decode(b[4..8]);
    assert b == b[..4] + b[4..8] + b[8..8 + size] + b[8 + size..];
  }

  /** A header sent with a null payload makes the receiver take the bytes that follow it for the payload. */
  lemma NullPayloadTakesWhatFollows(kind: Word, size: Word, rest: seq<Byte>, limit: nat, max: nat)
    ensures Receive(Header(kind, size) + rest, limit, max) ==
      if size > limit then TooBig(rest)
      else if |rest| < size then Short
      else Got(kind, size, rest[..Min(size, max)], rest[size..])
  {
    var b := Header(kind, size) + rest;
    DecodeEncode(kind);
    DecodeEncode(size);
    assert b[..4] == Encode(kind) && b[4..8] == Encode(size) && b[8..] == rest;
    if size <= |rest| {
      assert b[8..8 + Min(size, max)] == rest[..Min(size, max)] && b[8 + size..] == rest[size..];
    }
  }

  lemma {:induction false} FramesAppend(ms: seq<Message>, m: Message)
    ensures Frames(ms + [m]) == Frames(ms) + Frame(m)
  {
    if ms == [] {
      assert ms + [m] == [m];
    } else {
      assert (ms + [m])[1..] == ms[1..] + [m];
      FramesAppend(ms[1..], m);
    }
  }

  /** The receivers return the kind as a signed word. */
  function AsInt32(v: Word): int
  {
    if v < 0x8000_0000 then v else v - 0x1_0000_0000
  }

  /** A message is refused exactly when it is over the limit, and its payload then stays in the stream. */
  lemma OversizeLosesTheBoundary(m: Message, rest: seq<Byte>, limit: nat, max: nat)
    ensures Receive(Frame(m) + rest, limit, max).TooBig? <==> |m.payload| > limit
    ensures |m.payload| > limit ==> Receive(Frame(m) + rest, limit, max) == TooBig(m.payload + rest)
  {
    var b, n := Frame(m) + rest, |m.payload|;
    DecodeEncode(n);
    assert b[4..8] == Encode(n);
    assert b[8..] == m.payload + rest;
  }

  // ---------------------------------------------------------------- the socket

  /** What the operating system does with one call: interrupt it, refuse it, end it, or move some bytes. */
  datatype Io = Interrupted | Refused | Ended | Moves(count: nat)

  class Socket {
    /** Bytes written and not yet read. */
    var pending: seq<Byte>
    /** The outcomes still to come; every call uses one, and a call beyond the last is refused. */
    var script: seq<Io>
    /** Whether some call has failed for good. */
    ghost var failed: bool

    constructor (script: seq<Io>)
      ensures pending == [] && this.script == script && !failed
    {
      pending, failed := [], false;
      this.script := script;
    }

    /** One write call. */
    method Write(p: seq<Byte>) returns (n: int, again: bool)
      requires p != []
      modifies this
      ensures n > 0 || again ==> |script| < |old(script)| && failed == old(failed)
      ensures n > 0 ==> n <= |p| && pending == old(pending) + p[..n]
      ensures n <= 0 ==> pending == old(pending) && (again ==> n < 0) && (!again ==> failed)
    {
      if script == [] {
        failed := true;
        return -1, false;
      }
      var io := script[0];
      script := script[1..];
      match io
      case Interrupted => return -1, true;
      case Refused =>
        failed := true;
        return -1, false;
      case Ended =>
        failed := true;
        return 0, false;
      case Moves(count) =>
        n := if count == 0 then 1 else Min(count, |p|);
        again := false;
        pending := pending + p[..n];
    }

    /** One read call for up to `want` bytes; no byte left means the peer is gone. */
    method Read(want: nat) returns (n: int, again: bool, got: seq<Byte>)
      requires want > 0
      modifies this
      ensures n > 0 || again ==> |script| < |old(script)| && failed == old(failed)
      ensures n > 0 ==> n <= want && n <= |old(pending)| && got == old(pending)[..n] && pending == old(pending)[n..]
      ensures n <= 0 ==> pending == old(pending) && (again ==> n < 0) && (!again ==> failed)
    {
      got := [];
      if script == [] || pending == [] {
        failed := true;
        return 0, false, [];
      }
      var io := script[0];
      script := script[1..];
      match io
      case Interrupted => return -1, true, [];
      case Refused =>
        failed := true;
        return -1, false, [];
      case Ended =>
        failed := true;
        return 0, false, [];
      case Moves(count) =>
        n := if count == 0 then 1 else Min(count, Min(want, |pending|));
        again := false;
        got, pending := pending[..n], pending[n..];
    }

    /** write_all: every byte in order, unless a call fails for good. */
    method WriteAll(buf: seq<Byte>) returns (ok: bool)
      requires !failed
      modifies this
      ensures ok == !failed
      ensures ok ==> pending == old(pending) + buf
      ensures exists k | 0 <= k <= |buf| :: pending == old(pending) + buf[..k]
    {
      var done := 0;
      while done < |buf|
        invariant done <= |buf| && !failed
        invariant pending == old(pending) + buf[..done]
        decreases |script|
      {
        var n, again := Write(buf[done..]);
        if n < 0 {
          if again {
            continue;
          }
          return false;
        }
        if n == 0 {
          return false;
        }
        assert buf[..done] + buf[done..][..n] == buf[..done + n];
        done := done + n;
      }
      assert buf[..done] == buf;
      return true;
    }

    /** read_all: exactly the next `len` bytes, unless a call fails for good. */
    method ReadAll(len: nat) returns (ok: bool, buf: seq<Byte>)
      requires !failed
      modifies this
      ensures ok == !failed
      ensures ok ==> len <= |old(pending)| && buf == old(pending)[..len] && pending == old(pending)[len..]
    {
      buf := [];
      while |buf| < len
        invariant |buf| <= len && |buf| <= |old(pending)| && !failed
        invariant buf == old(pending)[..|buf|] && pending == old(pending)[|buf|..]
        decreases |script|
      {
        var n, again, got := Read(len - |buf|);
        if n < 0 {
          if again {
            continue;
          }
          return false, buf;
        }
        if n == 0 {
          return false, buf;
        }
        buf := buf + got;
      }
      return true, buf;
    }

    /** send_msg: a header, then `size` payload bytes unless the pointer is null. */
    method SendMsg(kind: Word, size: Word, payload: Option<seq<Byte>>) returns (ok: bool)
      requires !failed && (payload.Some? ==> |payload.value| == size)
      modifies this
      ensures ok == !failed
      ensures ok ==> pending == old(pending) + Header(kind, size) + (if payload.Some? then payload.value else [])
    {
      ok := WriteAll(Header(kind, size));
      if !ok {
        return;
      }
      if size > 0 && payload.Some? {
        ok := WriteAll(payload.value);
      }
    }

    /** The header read shared by both receivers. */
    method ReadHeader() returns (ok: bool, kind: Word, size: Word)
      requires !failed
      modifies this
      ensures ok == !failed
      ensures ok ==> |old(pending)| >= 8 && pending == old(pending)[8..]
      ensures ok ==> kind == Decode(old(pending)[..4]) && size == Decode(old(pending)[4..8])
    {
      kind, size := 0, 0;
      var b;
      ok, b := ReadAll(8);
      if ok {
        assert b[4..8] == old(pending)[4..8];
        kind, size := Decode(b[..4]), Decode(b[4..8]);
      }
    }

    /** cdp_recv_msg: a payload larger than the buffer is read whole and cut. */
    method CdpRecv(max: nat) returns (ret: int, kind: Word, size: Word, payload: seq<Byte>, ghost ok: bool)
      requires !failed
      modifies this
      ensures ret == if ok then AsInt32(kind) else -1
      ensures ok ==> !failed && Receive(old(pending), CDP_MAX_PAYLOAD, max) == Got(kind, size, payload, pending)
      ensures !ok && !failed ==> Receive(old(pending), CDP_MAX_PAYLOAD, max) == TooBig(pending)
    {
      payload, ret, ok := [], -1, false;
      var done;
      done, kind, size := ReadHeader();
      if !done {
        return;
      }
      if size > 0 {
        if size > CDP_MAX_PAYLOAD {
          return;
        }
        if size > max {
          var discard;
          done, discard := ReadAll(size);
          if !done {
            return;
          }
          payload := discard[..max];
        } else {
          done, payload := ReadAll(size);
          if !done {
            return;
          }
        }
      }
      ret, ok := AsInt32(kind), true;
    }

    /** The chunked discard of the audio receiver. */
    method Skip(count: nat) returns (ok: bool)
      requires !failed
      modifies this
      ensures ok == !failed
      ensures ok ==> count <= |old(pending)| && pending == old(pending)[count..]
    {
      var skip := count;
      ok := true;
      while skip > 0
        invariant 0 <= skip <= count && count - skip <= |old(pending)| && !failed
        invariant pending == old(pending)[count - skip..]
      {
        var chunk := if skip > DISCARD then DISCARD else skip;
        var b;
        ok, b := ReadAll(chunk);
        if !ok {
          return;
        }
        skip := skip - chunk;
      }
    }

    /** audio_recv_msg: a payload larger than the buffer is read as far as it fits and the rest thrown away. */
    method AudioRecv(max: nat) returns (ret: int, kind: Word, size: Word, payload: seq<Byte>, ghost ok: bool)
      requires !failed
      modifies this
      ensures ret == if ok then AsInt32(kind) else -1
      ensures ok ==> !failed && Receive(old(pending), AUDIO_MAX_PAYLOAD, max) == Got(kind, size, payload, pending)
      ensures !ok && !failed ==> Receive(old(pending), AUDIO_MAX_PAYLOAD, max) == TooBig(pending)
    {
      payload, ret, ok := [], -1, false;
      var done;
      done, kind, size := ReadHeader();
      if !done {
        return;
      }
      if size > 0 {
        if size > AUDIO_MAX_PAYLOAD {
          return;
        }
        if size <= max {
          done, payload := ReadAll(size);
          if !done {
            return;
          }
        } else {
          if max > 0 {
            done, payload := ReadAll(max);
            if !done {
              return;
            }
          }
          done := Skip(size - max);
          if !done {
            return;
          }
        }
      }
      ret, ok := AsInt32(kind), true;
    }

    // -------------------------------------------------------------- a whole conversation

    /** Sends a list of messages, unless a call fails for good. */
    method SendList(ms: seq<Message>) returns (ok: bool)
      requires !failed && pending == []
      modifies this
      ensures ok == !failed
      ensures ok ==> pending == Frames(ms)
    {
      for i := 0 to |ms|
        invariant !failed && pending == Frames(ms[..i])
      {
        ok := SendMsg(ms[i].kind, |ms[i].payload|, Some(ms[i].payload));
        if !ok {
          return;
        }
        FramesAppend(ms[..i], ms[i]);
        assert ms[..i + 1] == ms[..i] + [ms[i]];
      }
      assert ms[..|ms|] == ms;
      ok := true;
    }

    /**
     A list of messages sent and then received with cdp_recv_msg, a negative result counting as an
     error. Under any pattern of partial and interrupted calls all of it arrives, in order, and the
     stream ends at the last boundary, exactly if no call fails and no kind looks negative. Without
     a failing call it stops behind the first message whose kind does.
     */
    method CdpExchange(ms: seq<Message>, max: nat) returns (ok: bool, got: seq<Outcome>)
      requires !failed && pending == [] && forall m | m in ms :: Fits(m, CDP_MAX_PAYLOAD)
      modifies this
      ensures ok <==> !failed && forall m | m in ms :: AsInt32(m.kind) >= 0
      ensures |got| <= |ms| && forall i | 0 <= i < |got| :: got[i] == Truncated(ms[i], max)
      ensures ok ==> pending == [] && |got| == |ms|
      ensures !ok && !failed ==> |got| < |ms| && AsInt32(ms[|got|].kind) < 0 && pending == Frames(ms[|got| + 1..])
    {
      got := [];
      ok := SendList(ms);
      if !ok {
        return;
      }
      assert ms[0..] == ms;
      for i := 0 to |ms|
        invariant !failed && pending == Frames(ms[i..]) && |got| == i
        invariant forall k | 0 <= k < i :: AsInt32(ms[k].kind) >= 0 && got[k] == Truncated(ms[k], max)
      {
        FrameRoundTrip(ms[i], Frames(ms[i..][1..]), CDP_MAX_PAYLOAD, max);
        assert ms[i..][1..] == ms[i + 1..];
        var ret, kind, size, payload, received := CdpRecv(max);
        if ret < 0 {
          assert ms[i] in ms;
          return false, got;
        }
        got := got + [Got(kind, size, payload, [])];
      }
    }

    /** The same conversation with audio_recv_msg. */
    method AudioExchange(ms: seq<Message>, max: nat) returns (ok: bool, got: seq<Outcome>)
      requires !failed && pending == [] && forall m | m in ms :: Fits(m, AUDIO_MAX_PAYLOAD)
      modifies this
      ensures ok <==> !failed && forall m | m in ms :: AsInt32(m.kind) >= 0
      ensures |got| <= |ms| && forall i | 0 <= i < |got| :: got[i] == Truncated(ms[i], max)
      ensures ok ==> pending == [] && |got| == |ms|
      ensures !ok && !failed ==> |got| < |ms| && AsInt32(ms[|got|].kind) < 0 && pending == Frames(ms[|got| + 1..])
    {
      got := [];
      ok := SendList(ms);
      if !ok {
        return;
      }
      assert ms[0..] == ms;
      for i := 0 to |ms|
        invariant !failed && pending == Frames(ms[i..]) && |got| == i
        invariant forall k | 0 <= k < i :: AsInt32(ms[k].kind) >= 0 && got[k] == Truncated(ms[k], max)
      {
        FrameRoundTrip(ms[i], Frames(ms[i..][1..]), AUDIO_MAX_PAYLOAD, max);
        assert ms[i..][1..] == ms[i + 1..];
        var ret, kind, size, payload, received := AudioRecv(max);
        if ret < 0 {
          assert ms[i] in ms;
          return false, got;
        }
        got := got + [Got(kind, size, payload, [])];
      }
    }
  }
}
