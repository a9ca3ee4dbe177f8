/** Length-prefixed frames: encoding, the server's single-writer queue and the client's stream reassembly
    (protocol/src/protocol.cpp, server/src/client_session.cpp, client/src/network_manager.cpp). */
module Framing {
  import opened Operations

  const MAX_PAYLOAD_SIZE := 16 * 1024 * 1024

  /** The length is cast to uint32_t and written in network byte order. */
  function Header(length: nat): Text {
    var len := length % 0x1_0000_0000;
    [len / 0x100_0000, len / 0x1_0000 % 0x100, len / 0x100 % 0x100, len % 0x100]
  }

  function Frame(payload: Text): Text {
    Header(|payload|) + payload
  }

  method EncodeFrame(payload: Text) returns (frame: array<byte>)
    ensures fresh(frame) && frame[..] == Frame(payload)
  {
    var len := |payload| % 0x1_0000_0000;
    frame := new byte[4 + |payload|](_ => 0);
    frame[0] := len / 0x100_0000;
    frame[1] := len / 0x1_0000 % 0x100;
    frame[2] := len / 0x100 % 0x100;
    frame[3] := len % 0x100;
    ghost var header := Header(|payload|);
    assert frame[..4] == header;
    hide Header;
    for i := 0 to |payload|
      invariant frame[..4] == header && frame[4..4 + i] == payload[..i]
    {
      frame[4 + i] := payload[i];
    }
    assert frame[..] == frame[..4] + frame[4..4 + |payload|];
  }

  function HeaderValue(buffer: Text): nat
    requires |buffer| >= 4
  {
    var (b0: int, b1: int, b2: int, b3: int) := (buffer[0], buffer[1], buffer[2], buffer[3]);
    b0 * 0x100_0000 + b1 * 0x1_0000 + b2 * 0x100 + b3
  }

  function DecodeHeader(buffer: Text): Option<nat>
    requires |buffer| >= 4
  {
    if HeaderValue(buffer) > MAX_PAYLOAD_SIZE then None else Some(HeaderValue(buffer))
  }

  lemma FourDigits(n: nat)
    requires n < 0x1_0000_0000
    ensures n == n / 0x100_0000 * 0x100_0000 + n / 0x1_0000 % 0x100 * 0x1_0000 + n / 0x100 % 0x100 * 0x100 + n % 0x100
  {
    var a := n / 0x100;
    var b := n / 0x1_0000;
    assert n == a * 0x100 + n % 0x100;
    assert b == a / 0x100 && a == b * 0x100 + a % 0x100;
    assert n / 0x100_0000 == b / 0x100 && b == b / 0x100 * 0x100 + b % 0x100;
  }

  /** Decoding gives back every length up to the limit and refuses every other. */
  lemma HeaderRoundTrip(length: nat, rest: Text)
    requires length < 0x1_0000_0000
    ensures HeaderValue(Header(length) + rest) == length
    ensures DecodeHeader(Header(length) + rest) == if length <= MAX_PAYLOAD_SIZE then Some(length) else None
  {
    hide Header;
    var h := Header(length);
    HeaderBytes(length);
    FourDigits(length);
    var s := h + rest;
    assert s[0] == h[0] && s[1] == h[1] && s[2] == h[2] && s[3] == h[3];
  }

  lemma HeaderBytes(n: nat)
    requires n < 0x1_0000_0000
    ensures Header(n) == [n / 0x100_0000, n / 0x1_0000 % 0x100, n / 0x100 % 0x100, n % 0x100]
  {
  }

  // ---- reassembly

  /** What the parse loop makes of a buffer: complete payloads, what is left, and whether it stopped at a
      header above the limit. */
  datatype Parsed = Parsed(payloads: seq<Text>, rest: Text, oversized: bool)

  function Parse(buffer: Text): Parsed
    decreases |buffer|
  {
    if |buffer| < 4 then Parsed([], buffer, false)
    else if DecodeHeader(buffer).None? then Parsed([], buffer, true)
    else
      var end := 4 + DecodeHeader(buffer).value;
      if |buffer| < end then Parsed([], buffer, false)
      else
        var more := Parse(buffer[end..]);
        more.(payloads := [buffer[4..end]] + more.payloads)
  }

  /** No complete frame is at the front. */
  predicate Incomplete(buffer: Text) {
    |buffer| < 4 || DecodeHeader(buffer).None? || |buffer| < 4 + DecodeHeader(buffer).value
  }

  /** The loop stops only when the rest holds no complete frame, and calls it oversized for its header. */
  lemma {:induction false} RestIsIncomplete(buffer: Text)
    ensures var p := Parse(buffer);
            Incomplete(p.rest) && (p.oversized <==> |p.rest| >= 4 && DecodeHeader(p.rest).None?)
    decreases |buffer|
  {
    hide DecodeHeader;
    if !Incomplete(buffer) {
      RestIsIncomplete(buffer[4 + DecodeHeader(buffer).value..]);
    }
  }

  class FrameReader {
    var rxBuffer: Text
    /** The payloads handed on so far. */
    var received: seq<Text>
    var disconnecting: bool

    constructor ()
      ensures rxBuffer == [] && received == [] && !disconnecting
    {
      rxBuffer, received, disconnecting := [], [], false;
    }

    method OnReadyRead(chunk: Text)
      modifies this
      ensures var parsed := Parse(old(rxBuffer) + chunk);
              && received == old(received) + parsed.payloads
              && rxBuffer == parsed.rest
              && disconnecting == (old(disconnecting) || parsed.oversized)
      ensures Incomplete(rxBuffer)
    {
      hide DecodeHeader;
      rxBuffer := rxBuffer + chunk;
      ghost var all := Parse(rxBuffer);
      RestIsIncomplete(rxBuffer);
      while |rxBuffer| >= 4
        invariant received + Parse(rxBuffer).payloads == old(received) + all.payloads
        invariant Parse(rxBuffer).rest == all.rest && Parse(rxBuffer).oversized == all.oversized
        invariant disconnecting == old(disconnecting)
        decreases |rxBuffer|
      {
        var length := DecodeHeader(rxBuffer);
        if length.None? {
          disconnecting := true;
          return;
        }
        if |rxBuffer| < 4 + length.value {
          return;
        }
        var payload := rxBuffer[4..4 + length.value];
        rxBuffer := rxBuffer[4 + length.value..];
        assert received + ([payload] + Parse(rxBuffer).payloads) == received + [payload] + Parse(rxBuffer).payloads;
        received := received + [payload];
      }
    }
  }

  lemma HeaderOfPrefix(a: Text, b: Text)
    requires |a| >= 4
    ensures DecodeHeader(a + b) == DecodeHeader(a)
  {
    assert (a + b)[0] == a[0] && (a + b)[1] == a[1] && (a + b)[2] == a[2] && (a + b)[3] == a[3];
  }

  lemma ParseStep(buffer: Text, end: nat)
    requires |buffer| >= 4 && DecodeHeader(buffer).Some? && end == 4 + DecodeHeader(buffer).value <= |buffer|
    ensures Parse(buffer) == Parse(buffer[end..]).(payloads := [buffer[4..end]] + Parse(buffer[end..]).payloads)
  {
  }

  /** Parsing a first part and then what it left together with a second part is parsing both at once. */
  lemma {:induction false} ParseInTwo(a: Text, b: Text)
    ensures var (first, second) := (Parse(a), Parse(Parse(a).rest + b));
            Parse(a + b) == Parsed(first.payloads + second.payloads, second.rest, second.oversized)
    decreases |a|
  {
    hide DecodeHeader, Parse;
    if Incomplete(a) {
      IncompleteStays(a);
      assert [] + Parse(a + b).payloads == Parse(a + b).payloads;
    } else {
      HeaderOfPrefix(a, b);
      var end := 4 + DecodeHeader(a).value;
      ParseStep(a, end);
      ParseStep(a + b, end);
      assert (a + b)[end..] == a[end..] + b;
      assert (a + b)[4..end] == a[4..end];
      ParseInTwo(a[end..], b);
      var more := Parse(a[end..]);
      var second := Parse(more.rest + b);
      assert [a[4..end]] + (more.payloads + second.payloads) == ([a[4..end]] + more.payloads) + second.payloads;
    }
  }

  lemma IncompleteStays(buffer: Text)
    requires Incomplete(buffer)
    ensures Parse(buffer).payloads == [] && Parse(buffer).rest == buffer
  {
  }

  function Concat(chunks: seq<Text>): Text
    decreases |chunks|
  {
    if chunks == [] then [] else chunks[0] + Concat(chunks[1..])
  }

  /** A whole sequence of reads. */
  function ReadAll(buffer: Text, chunks: seq<Text>): Parsed
    decreases |chunks|
  {
    if chunks == [] then Parse(buffer)
    else
      var now := Parse(buffer + chunks[0]);
      var later := ReadAll(now.rest, chunks[1..]);
      later.(payloads := now.payloads + later.payloads)
  }

  /** The result does not depend on how the stream is cut into chunks. */
  lemma {:induction false} ChunkingIrrelevant(buffer: Text, chunks: seq<Text>)
    ensures ReadAll(buffer, chunks) == Parse(buffer + Concat(chunks))
    decreases |chunks|
  {
    hide Parse;
    if chunks == [] {
      assert buffer + Concat(chunks) == buffer;
    } else {
      var now := Parse(buffer + chunks[0]);
      ChunkingIrrelevant(now.rest, chunks[1..]);
      ParseInTwo(buffer + chunks[0], Concat(chunks[1..]));
      assert buffer + Concat(chunks) == (buffer + chunks[0]) + Concat(chunks[1..]);
    }
  }

  function Frames(payloads: seq<Text>): Text
    decreases |payloads|
  {
    if payloads == [] then [] else Frame(payloads[0]) + Frames(payloads[1..])
  }

  predicate AllFit(payloads: seq<Text>) {
    forall i :: 0 <= i < |payloads| ==> |payloads[i]| <= MAX_PAYLOAD_SIZE
  }

  lemma FrameThenRest(payload: Text, rest: Text)
    requires |payload| <= MAX_PAYLOAD_SIZE
    ensures Parse(Frame(payload) + rest) == Parse(rest).(payloads := [payload] + Parse(rest).payloads)
  {
    var buffer := Frame(payload) + rest;
    assert buffer == Header(|payload|) + (payload + rest);
    HeaderRoundTrip(|payload|, payload + rest);
    assert buffer[4..4 + |payload|] == payload && buffer[4 + |payload|..] == rest;
  }

  /** A frame that is not there in full yields nothing yet. */
  lemma PartOfFrame(payload: Text, n: nat)
    requires |payload| <= MAX_PAYLOAD_SIZE && n < |Frame(payload)|
    ensures Parse(Frame(payload)[..n]) == Parsed([], Frame(payload)[..n], false)
  {
    if n >= 4 {
      assert Frame(payload)[..n] == Header(|payload|) + payload[..n - 4];
      HeaderRoundTrip(|payload|, payload[..n - 4]);
    }
  }

  /** What has arrived of a stream of frames: the first k payloads, and a proper prefix of the next frame. */
  predicate Arrived(payloads: seq<Text>, stream: Text, p: Parsed, k: nat) {
    && k <= |payloads|
    && p.payloads == payloads[..k] && !p.oversized
    && stream == Frames(payloads[..k]) + p.rest
    && (if k == |payloads| then p.rest == []
        else |p.rest| < |Frame(payloads[k])| && p.rest == Frame(payloads[k])[..|p.rest|])
  }

  /** However much of the stream has arrived: exactly the payloads that are complete, in order, and a
      proper prefix of the next frame is kept. */
  lemma {:induction false} ArrivedPayloads(payloads: seq<Text>, n: nat) returns (k: nat)
    requires AllFit(payloads) && n <= |Frames(payloads)|
    ensures Arrived(payloads, Frames(payloads)[..n], Parse(Frames(payloads)[..n]), k)
    decreases |payloads|
  {
    hide Parse, Frame, Arrived;
    if payloads == [] {
      k := 0;
      NothingArrived();
    } else {
      var f := Frame(payloads[0]);
      if n < |f| {
        k := 0;
        FirstIsPartial(payloads, n);
      } else {
        var j := ArrivedPayloads(payloads[1..], n - |f|);
        k := j + 1;
        FirstHasArrived(payloads, Frames(payloads[1..])[..n - |f|], j);
        assert Frames(payloads)[..n] == f + Frames(payloads[1..])[..n - |f|];
      }
    }
  }

  lemma NothingArrived()
    ensures Arrived([], [], Parse([]), 0)
  {
  }

  lemma FirstIsPartial(payloads: seq<Text>, n: nat)
    requires AllFit(payloads) && payloads != [] && n < |Frame(payloads[0])|
    ensures n <= |Frames(payloads)| && Arrived(payloads, Frames(payloads)[..n], Parse(Frames(payloads)[..n]), 0)
  {
    hide Parse, Header;
    var f := Frame(payloads[0]);
    assert Frames(payloads)[..n] == f[..n];
    PartOfFrame(payloads[0], n);
  }

  lemma FirstHasArrived(payloads: seq<Text>, rest: Text, j: nat)
    requires AllFit(payloads) && payloads != [] && Arrived(payloads[1..], rest, Parse(rest), j)
    ensures Arrived(payloads, Frame(payloads[0]) + rest, Parse(Frame(payloads[0]) + rest), j + 1)
  {
    hide Parse, Frame, Frames;
    var (f, p) := (Frame(payloads[0]), Parse(rest));
    FrameThenRest(payloads[0], rest);
    FramesOfPrefix(payloads, j);
    assert payloads[..j + 1] == [payloads[0]] + payloads[1..][..j];
    assert f + (Frames(payloads[1..][..j]) + p.rest) == (f + Frames(payloads[1..][..j])) + p.rest;
  }

  lemma FramesOfPrefix(payloads: seq<Text>, j: nat)
    requires j < |payloads|
    ensures Frames(payloads[..j + 1]) == Frame(payloads[0]) + Frames(payloads[1..][..j])
  {
    hide Frame;
    assert payloads[..j + 1][1..] == payloads[1..][..j];
  }

  lemma {:induction false} FramesThenRest(payloads: seq<Text>, rest: Text)
    requires AllFit(payloads)
    ensures Parse(Frames(payloads) + rest) == Parse(rest).(payloads := payloads + Parse(rest).payloads)
    decreases |payloads|
  {
    hide Parse, Frame;
    if payloads == [] {
      assert [] + rest == rest && [] + Parse(rest).payloads == Parse(rest).payloads;
    } else {
      var (f, more) := (Frame(payloads[0]), Frames(payloads[1..]));
      assert (f + more) + rest == f + (more + rest);
      FrameThenRest(payloads[0], more + rest);
      FramesThenRest(payloads[1..], rest);
      assert payloads == [payloads[0]] + payloads[1..];
      assert [payloads[0]] + (payloads[1..] + Parse(rest).payloads) == payloads + Parse(rest).payloads;
    }
  }

  lemma HeaderTooBig(length: nat, later: Text)
    requires MAX_PAYLOAD_SIZE < length < 0x1_0000_0000
    ensures Parse(Header(length) + later) == Parsed([], Header(length) + later, true)
  {
    hide Header, HeaderValue;
    HeaderRoundTrip(length, later);
    HeaderBytes(length);
  }

  /** A header above the limit stops the reader for good: of whatever comes, in whatever chunks, exactly the
      payloads in front of that header are handed on, and the reader asks to disconnect. */
  lemma OversizedStops(payloads: seq<Text>, length: nat, later: Text, chunks: seq<Text>)
    requires AllFit(payloads) && MAX_PAYLOAD_SIZE < length < 0x1_0000_0000
    requires Concat(chunks) == Frames(payloads) + (Header(length) + later)
    ensures ReadAll([], chunks) == Parsed(payloads, Header(length) + later, true)
  {
    hide Header, Parse, ReadAll, Frames;
    ChunkingIrrelevant([], chunks);
    assert [] + Concat(chunks) == Concat(chunks);
    FramesThenRest(payloads, Header(length) + later);
    HeaderTooBig(length, later);
    assert payloads + [] == payloads;
  }

  // ---- the single-writer queue

  /** The sending half of a server connection. wire holds the bytes of completed writes; outstanding counts
      the asynchronous writes in progress, each of the frame at the front of the queue. */
  class FrameWriter {
    var writeQueue: seq<Text>
    var writing: bool
    var disconnected: bool
    var outstanding: nat
    var wire: Text
    /** Set when a write fails; the queue is then stuck. */
    var failed: bool
    ghost var accepted: seq<Text>

    ghost predicate Valid()
      reads this
    {
      && (writing <==> writeQueue != [])
      && outstanding == (if writing && !failed then 1 else 0)
      && (failed ==> disconnected)
      && wire + Concat(writeQueue) == Frames(accepted)
    }

    constructor ()
      ensures Valid() && accepted == [] && wire == [] && !disconnected
    {
      writeQueue, writing, disconnected, outstanding, wire, failed := [], false, false, 0, [], false;
      accepted := [];
    }

    method Send(payload: Text)
      requires Valid()
      modifies this
      ensures Valid() && wire == old(wire) && disconnected == old(disconnected)
      ensures accepted == if old(disconnected) then old(accepted) else old(accepted) + [payload]
    {
      hide Frames, Concat;
      if disconnected {
        return;
      }
      var frame := EncodeFrame(payload);
      ConcatAppend(writeQueue, Frame(payload));
      FramesAppend(accepted, payload);
      assert wire + Concat(writeQueue) + Frame(payload) == wire + (Concat(writeQueue) + Frame(payload));
      writeQueue := writeQueue + [frame[..]];
      accepted := accepted + [payload];
      if !writing {
        writing := true;
        DoWrite();
      }
    }

    /** Starts the write of the front frame; there must be none in progress. */
    method DoWrite()
      requires outstanding == 0 && writeQueue != [] && writing
      modifies this`outstanding
      ensures outstanding == 1
    {
      outstanding := outstanding + 1;
    }

    method OnDisconnected()
      requires Valid()
      modifies this`disconnected
      ensures Valid() && disconnected
    {
      disconnected := true;
    }

    /** Completion of the write in progress. */
    method OnWritten(error: bool)
      requires Valid() && outstanding > 0
      modifies this
      ensures Valid() && accepted == old(accepted)
      ensures error ==> disconnected && wire == old(wire) && outstanding == 0
      ensures !error ==> wire == old(wire) + old(writeQueue)[0] && writeQueue == old(writeQueue)[1..]
    {
      hide Frames;
      outstanding := outstanding - 1;
      if error {
        disconnected, failed := true, true;
        return;
      }
      assert wire + (writeQueue[0] + Concat(writeQueue[1..])) == (wire + writeQueue[0]) + Concat(writeQueue[1..]);
      wire := wire + writeQueue[0];
      writeQueue := writeQueue[1..];
      if writeQueue != [] {
        DoWrite();
      } else {
        writing := false;
      }
    }
  }

  lemma {:induction false} ConcatAppend(chunks: seq<Text>, last: Text)
    ensures Concat(chunks + [last]) == Concat(chunks) + last
    decreases |chunks|
  {
    if chunks == [] {
      assert chunks + [last] == [last];
    } else {
      assert (chunks + [last])[1..] == chunks[1..] + [last];
      ConcatAppend(chunks[1..], last);
    }
  }

  lemma {:induction false} FramesAppend(payloads: seq<Text>, last: Text)
    ensures Frames(payloads + [last]) == Frames(payloads) + Frame(last)
    decreases |payloads|
  {
    hide Frame;
    if payloads == [] {
      assert payloads + [last] == [last];
    } else {
      assert (payloads + [last])[1..] == payloads[1..] + [last];
      FramesAppend(payloads[1..], last);
    }
  }

  /** From one end to the other: whatever has arrived of what a valid writer accepted, in whatever chunks,
      the reader has handed on a prefix of the accepted payloads, and all of them once everything is there. */
  lemma InOrderDelivery(payloads: seq<Text>, chunks: seq<Text>)
    requires AllFit(payloads) && Concat(chunks) <= Frames(payloads)
    ensures var r := ReadAll([], chunks);
            && r.payloads <= payloads && !r.oversized
            && Concat(chunks) == Frames(r.payloads) + r.rest
            && (Concat(chunks) == Frames(payloads) ==> r.payloads == payloads && r.rest == [])
  {
    hide Parse, Frame;
    ChunkingIrrelevant([], chunks);
    var n := |Concat(chunks)|;
    assert [] + Concat(chunks) == Frames(payloads)[..n];
    var k := ArrivedPayloads(payloads, n);
    if n == |Frames(payloads)| && k < |payloads| {
      FramesSplit(payloads, k);
    }
  }

  lemma {:induction false} FramesSplit(payloads: seq<Text>, k: nat)
    requires k < |payloads|
    ensures |Frames(payloads)| >= |Frames(payloads[..k])| + |Frame(payloads[k])|
    decreases k
  {
    hide Frame;
    if k > 0 {
      FramesSplit(payloads[1..], k - 1);
      assert payloads[..k][1..] == payloads[1..][..k - 1];
    }
  }
}
