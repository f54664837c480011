/**
  Kafka wire framing: a four-byte big-endian length and that many bytes. The
  buffer is cut into frames as bytes arrive, in whatever chunks they arrive.
 */
module KafkaFrames {

  type Byte = b: int | 0 <= b < 256

  const MIN_FRAME := 4
  const MAX_FRAME := 64 * 1024 * 1024

  function Length(header: seq<Byte>): (n: nat)
    requires |header| >= 4
  {
    var a: int, b: int, c: int, d: int := header[0], header[1], header[2], header[3];
    ((a * 256 + b) * 256 + c) * 256 + d
  }

  function Header(n: nat): (h: seq<Byte>)
    requires n < 256 * 256 * 256 * 256
    ensures |h| == 4 && Length(h) == n
  {
    [n / 256 / 256 / 256, n / 256 / 256 % 256, n / 256 % 256, n % 256]
  }

  lemma HeaderOfLength(h: seq<Byte>)
    requires |h| == 4
    ensures Length(h) < 256 * 256 * 256 * 256 && Header(Length(h)) == h
  {
    var n := Length(h);
    var a: int, b: int, c: int, d: int := h[0], h[1], h[2], h[3];
    assert n / 256 == (a * 256 + b) * 256 + c && n % 256 == d;
    assert n / 256 / 256 == a * 256 + b && n / 256 % 256 == c;
  }

  // What a visitor makes of a frame: its new state, and whether it accepted the frame.
  type Visitor<!S> = (S, seq<Byte>) -> (S, bool)

  datatype Fed<S> = Fed(state: S, rest: seq<Byte>, failed: bool)

  predicate BadLength(n: nat) {
    n < MIN_FRAME || n > MAX_FRAME
  }

  function Feed<S>(visit: Visitor<S>, state: S, buffer: seq<Byte>): Fed<S>
    decreases |buffer|
  {
    if |buffer| < 4 then Fed(state, buffer, false)
    else
      var size := Length(buffer);
      if BadLength(size) then Fed(state, buffer, true)
      else if |buffer| < size + 4 then Fed(state, buffer, false)
      else
        var (next, ok) := visit(state, buffer[4..4 + size]);
        if !ok then Fed(next, buffer, true) else Feed(visit, next, buffer[4 + size..])
  }

  method Frames<S>(visit: Visitor<S>, initial: S, buffer: seq<Byte>, data: seq<Byte>) returns (fed: Fed<S>)
    ensures fed == Feed(visit, initial, buffer + data)
  {
    var state, rest := initial, buffer + data;
    while |rest| >= 4
      invariant Feed(visit, state, rest) == Feed(visit, initial, buffer + data)
      decreases |rest|
    {
      var size := Length(rest);
      if size < 4 || size > 64 * 1024 * 1024 {
        return Fed(state, rest, true);
      }
      if |rest| < size + 4 {
        break;
      }
      var frame := rest[4..4 + size];
      var (next, ok) := visit(state, frame);
      if !ok {
        return Fed(next, rest, true);
      }
      state, rest := next, rest[4 + size..];
    }
    return Fed(state, rest, false);
  }

  // --------------------------------------------------------------- chunking

  lemma {:induction false} FeedAppend<S>(visit: Visitor<S>, state: S, a: seq<Byte>, b: seq<Byte>)
    ensures var first := Feed(visit, state, a);
      Feed(visit, state, a + b) ==
      if first.failed then Fed(first.state, first.rest + b, true) else Feed(visit, first.state, first.rest + b)
    decreases |a|
  {
    if |a| >= 4 {
      var size := Length(a);
      assert Length(a + b) == size;
      if !BadLength(size) && |a| >= size + 4 {
        var (next, ok) := visit(state, a[4..4 + size]);
        assert (a + b)[4..4 + size] == a[4..4 + size];
        if ok {
          assert (a + b)[4 + size..] == a[4 + size..] + b;
          FeedAppend(visit, next, a[4 + size..], b);
        }
      }
    }
  }

  function Flatten(chunks: seq<seq<Byte>>): seq<Byte> {
    if |chunks| == 0 then [] else chunks[0] + Flatten(chunks[1..])
  }

  // Feeds the chunks one call at a time and stops at the first error.
  function FeedChunks<S>(visit: Visitor<S>, state: S, buffer: seq<Byte>, chunks: seq<seq<Byte>>): Fed<S>
    decreases |chunks|
  {
    if |chunks| == 0 then Fed(state, buffer, false)
    else
      var first := Feed(visit, state, buffer + chunks[0]);
      if first.failed then first else FeedChunks(visit, first.state, first.rest, chunks[1..])
  }

  // A buffer that a successful call left behind.
  predicate Incomplete(rest: seq<Byte>) {
    |rest| < 4 || (!BadLength(Length(rest)) && |rest| < Length(rest) + 4)
  }

  lemma {:induction false} RestIncomplete<S>(visit: Visitor<S>, state: S, buffer: seq<Byte>)
    ensures var fed := Feed(visit, state, buffer);
      !fed.failed ==> Incomplete(fed.rest) && Feed(visit, fed.state, fed.rest) == fed
    decreases |buffer|
  {
    if |buffer| >= 4 && !BadLength(Length(buffer)) && |buffer| >= Length(buffer) + 4 {
      var (next, ok) := visit(state, buffer[4..4 + Length(buffer)]);
      if ok {
        RestIncomplete(visit, next, buffer[4 + Length(buffer)..]);
      }
    }
  }

  /**
    Any chunking of a byte stream leaves the visitor in the same state as the stream
    fed at once, and succeeds exactly when that does; then the remainders are equal.
    After an error the chunked remainder is the prefix of the other that had arrived.
   */
  lemma {:induction false} ChunkingIsIrrelevant<S>(visit: Visitor<S>, state: S, buffer: seq<Byte>, chunks: seq<seq<Byte>>)
    requires Incomplete(buffer)
    ensures var whole, parts := Feed(visit, state, buffer + Flatten(chunks)), FeedChunks(visit, state, buffer, chunks);
      && parts.failed == whole.failed && parts.state == whole.state
      && (if parts.failed then parts.rest <= whole.rest else parts.rest == whole.rest)
    decreases |chunks|
  {
    if |chunks| == 0 {
      assert buffer + [] == buffer;
    } else {
      var first := Feed(visit, state, buffer + chunks[0]);
      FeedAppend(visit, state, buffer + chunks[0], Flatten(chunks[1..]));
      RestIncomplete(visit, state, buffer + chunks[0]);
      assert buffer + Flatten(chunks) == buffer + chunks[0] + Flatten(chunks[1..]);
      if !first.failed {
        ChunkingIsIrrelevant(visit, first.state, first.rest, chunks[1..]);
      }
    }
  }

  /** A length below 4 bytes or above 64 MiB fails the stream as soon as its header is there; any other waits for its frame. */
  lemma LengthLimits<S>(visit: Visitor<S>, state: S, n: nat, tail: seq<Byte>)
    requires n < 256 * 256 * 256 * 256
    ensures n < 4 || n > 67_108_864 ==> Feed(visit, state, Header(n) + tail) == Fed(state, Header(n) + tail, true)
    ensures 4 <= n <= 67_108_864 && |tail| < n ==> Feed(visit, state, Header(n) + tail) == Fed(state, Header(n) + tail, false)
  {
    assert Length(Header(n) + tail) == Length(Header(n));
  }

  // --------------------------------------------------------------- which frames are visited

  predicate ValidFrame(frame: seq<Byte>) {
    MIN_FRAME <= |frame| <= MAX_FRAME
  }

  function Wire(frame: seq<Byte>): seq<Byte>
    requires ValidFrame(frame)
  {
    Header(|frame|) + frame
  }

  function WireAll(frames: seq<seq<Byte>>): seq<Byte>
    requires forall i :: 0 <= i < |frames| ==> ValidFrame(frames[i])
  {
    if |frames| == 0 then [] else WireAll(frames[..|frames| - 1]) + Wire(frames[|frames| - 1])
  }

  // Visitor states reached by accepting the frames in order.
  ghost predicate Accepts<S>(visit: Visitor<S>, state: S, frames: seq<seq<Byte>>, last: S)
  {
    if |frames| == 0 then state == last
    else visit(state, frames[0]).1 && Accepts(visit, visit(state, frames[0]).0, frames[1..], last)
  }

  /** Cutting inverts framing: the frames of a stream are visited in order and only the unframed tail remains. */
  lemma {:induction false} FramesRoundTrip<S>(visit: Visitor<S>, state: S, frames: seq<seq<Byte>>, tail: seq<Byte>, last: S)
    requires forall i :: 0 <= i < |frames| ==> ValidFrame(frames[i])
    requires Accepts(visit, state, frames, last) && Incomplete(tail)
    ensures Feed(visit, state, WireAll(frames) + tail) == Fed(last, tail, false)
    decreases |frames|
  {
    if |frames| == 0 {
      assert WireAll(frames) + tail == tail;
    } else {
      var f := frames[0];
      WireAllCons(frames);
      var buffer := WireAll(frames) + tail;
      assert buffer == Header(|f|) + f + (WireAll(frames[1..]) + tail);
      assert buffer[..4] == Header(|f|);
      assert Length(buffer) == Length(buffer[..4]) == |f|;
      assert buffer[4..4 + |f|] == f && buffer[4 + |f|..] == WireAll(frames[1..]) + tail;
      FramesRoundTrip(visit, visit(state, f).0, frames[1..], tail, last);
    }
  }

  lemma {:induction false} WireAllCons(frames: seq<seq<Byte>>)
    requires |frames| > 0 && forall i :: 0 <= i < |frames| ==> ValidFrame(frames[i])
    ensures WireAll(frames) == Wire(frames[0]) + WireAll(frames[1..])
  {
    if |frames| > 1 {
      var init := frames[..|frames| - 1];
      WireAllCons(init);
      assert frames[1..][..|frames| - 2] == init[1..];
      assert WireAll(frames[1..]) == WireAll(init[1..]) + Wire(frames[|frames| - 1]);
    } else {
      assert frames[..0] == [] && frames[1..] == [];
    }
  }

  // --------------------------------------------------------------- writing downstream

  // How the downstream connection answers its k-th write: bytes taken, and whether it failed.
  datatype Accepted = Accepted(n: nat, err: bool)

  type Downstream = nat -> Accepted

  datatype Sink = Sink(sent: seq<Byte>, calls: nat)

  function Min(a: nat, b: nat): nat {
    if a < b then a else b
  }

  // Writes until everything is taken, a write fails, or a write takes nothing.
  function Send(down: Downstream, sink: Sink, wire: seq<Byte>): (Sink, bool)
    decreases |wire|
  {
    if |wire| == 0 then (sink, true)
    else
      var n := Min(down(sink.calls).n, |wire|);
      var next := Sink(sink.sent + wire[..n], sink.calls + 1);
      if down(sink.calls).err || n == 0 then (next, false) else Send(down, next, wire[n..])
  }

  method SendLoop(down: Downstream, sink: Sink, wire: seq<Byte>) returns (result: (Sink, bool))
    ensures result == Send(down, sink, wire)
  {
    var at, left := sink, wire;
    while |left| > 0
      invariant Send(down, at, left) == Send(down, sink, wire)
      decreases |left|
    {
      var n := Min(down(at.calls).n, |left|);
      var failed := down(at.calls).err;
      at := Sink(at.sent + left[..n], at.calls + 1);
      if failed || n == 0 {
        return (at, false);
      }
      left := left[n..];
    }
    return (at, true);
  }

  lemma {:induction false} SendSendsPrefix(down: Downstream, sink: Sink, wire: seq<Byte>)
    ensures var (next, ok) := Send(down, sink, wire);
      if ok then next.sent == sink.sent + wire else sink.sent <= next.sent <= sink.sent + wire
    decreases |wire|
  {
    if |wire| > 0 {
      var n := Min(down(sink.calls).n, |wire|);
      assert sink.sent + wire[..n] + wire[n..] == sink.sent + wire;
      if !down(sink.calls).err && n > 0 {
        SendSendsPrefix(down, Sink(sink.sent + wire[..n], sink.calls + 1), wire[n..]);
      }
    }
  }

  ghost predicate Stalls(down: Downstream, call: nat) {
    down(call).err || down(call).n == 0
  }

  /** Short writes are carried on: sending fails exactly when one of its writes fails or takes nothing. */
  lemma {:induction false} SendFailsExactly(down: Downstream, sink: Sink, wire: seq<Byte>)
    ensures var (next, ok) := Send(down, sink, wire);
      && sink.calls <= next.calls
      && (ok <==> forall call: nat :: sink.calls <= call < next.calls ==> !Stalls(down, call))
    decreases |wire|
  {
    if |wire| > 0 {
      var n := Min(down(sink.calls).n, |wire|);
      if down(sink.calls).err || n == 0 {
        assert Stalls(down, sink.calls);
      } else {
        SendFailsExactly(down, Sink(sink.sent + wire[..n], sink.calls + 1), wire[n..]);
        assert !Stalls(down, sink.calls);
      }
    }
  }

  // The visitor of Write when no response is rewritten: the frame goes out as it came.
  function Forward(down: Downstream): Visitor<Sink> {
    (sink: Sink, frame: seq<Byte>) =>
      if |frame| < 256 * 256 * 256 * 256 then Send(down, sink, Header(|frame|) + frame) else (sink, false)
  }

  /**
    Despite short writes, writing sends downstream exactly the bytes it consumes from
    its buffer, the complete-frame prefix; on an error, no more than a prefix of its input.
   */
  lemma {:induction false} WriteSendsFrames(down: Downstream, sink: Sink, buffer: seq<Byte>)
    ensures var fed := Feed(Forward(down), sink, buffer);
      if fed.failed then sink.sent <= fed.state.sent <= sink.sent + buffer
      else fed.state.sent + fed.rest == sink.sent + buffer && Incomplete(fed.rest)
    decreases |buffer|
  {
    if |buffer| >= 4 && !BadLength(Length(buffer)) && |buffer| >= Length(buffer) + 4 {
      var size := Length(buffer);
      var wire := Header(size) + buffer[4..4 + size];
      HeaderOfLength(buffer[..4]);
      assert wire == buffer[..4 + size];
      assert sink.sent + buffer == sink.sent + wire + buffer[4 + size..];
      SendSendsPrefix(down, sink, wire);
      var (next, ok) := Send(down, sink, wire);
      assert Forward(down)(sink, buffer[4..4 + size]) == (next, ok);
      if ok {
        WriteSendsFrames(down, next, buffer[4 + size..]);
      }
    }
  }

  /** Writing fails only when a write downstream fails or takes nothing, or the next frame's length is out of range. */
  lemma {:induction false} WriteFailsOnlyWhen(down: Downstream, sink: Sink, buffer: seq<Byte>)
    requires Feed(Forward(down), sink, buffer).failed
    ensures var fed := Feed(Forward(down), sink, buffer);
      || (|fed.rest| >= 4 && !(4 <= Length(fed.rest) <= 67_108_864))
      || exists call: nat :: sink.calls <= call < fed.state.calls && Stalls(down, call)
    decreases |buffer|
  {
    if !BadLength(Length(buffer)) {
      var size := Length(buffer);
      var wire := Header(size) + buffer[4..4 + size];
      var (next, ok) := Send(down, sink, wire);
      assert Forward(down)(sink, buffer[4..4 + size]) == (next, ok);
      SendFailsExactly(down, sink, wire);
      if ok {
        WriteFailsOnlyWhen(down, next, buffer[4 + size..]);
      }
    }
  }

  /** An observed connection's write side. */
  class Connection {
    var output: seq<Byte>
    var sink: Sink

    constructor ()
      ensures output == [] && sink == Sink([], 0)
    {
      output, sink := [], Sink([], 0);
    }

    method Write(down: Downstream, b: seq<Byte>) returns (n: nat, failed: bool)
      modifies this
      ensures failed ==> n == 0 && old(sink.sent) <= sink.sent <= old(sink.sent) + old(output) + b
      ensures !failed ==> n == |b| && sink.sent + output == old(sink.sent) + old(output) + b && Incomplete(output)
      ensures failed ==>
                || (|output| >= 4 && !(4 <= Length(output) <= 67_108_864))
                || exists call: nat :: old(sink.calls) <= call < sink.calls && Stalls(down, call)
    {
      if Feed(Forward(down), sink, output + b).failed {
        WriteFailsOnlyWhen(down, sink, output + b);
      }
      ghost var all := old(sink.sent) + old(output) + b;
      assert all == old(sink.sent) + (old(output) + b);
      WriteSendsFrames(down, sink, output + b);
      var fed := Frames(Forward(down), sink, output, b);
      sink, output, failed := fed.state, fed.rest, fed.failed;
      n := if failed then 0 else |b|;
    }
  }
}
