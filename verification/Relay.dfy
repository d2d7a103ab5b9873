/** The two directions of the proxy loop of client_proxy/threads/ws_thread.c:
    from the game server to the browser and back. */
module Relay {
  import opened Protocol
  import opened Framing
  import opened Envelope
  import opened Parser
  import opened WebSocket
  import opened Stream
  import opened Sequences

  // ----- Server to browser: one recv -----

  /** The largest payload that the encoder's buffer takes. */
  const RELAY_LIMIT: nat := BUFFER_SIZE - 10

  /** What the browser is sent for these frames of the server, one text frame for
      each payload that fits and nothing for the others. */
  function Relayed(frames: seq<seq<byte>>): seq<seq<byte>> {
    if frames == [] then []
    else RelayedOne(frames[0]) + Relayed(frames[1..])
  }

  function RelayedOne(frame: seq<byte>): (sent: seq<seq<byte>>)
    ensures |sent| <= 1
  {
    if 4 <= |frame| <= 4 + RELAY_LIMIT then [ServerFrame(frame[4..])] else []
  }

  lemma {:induction false} RelayedConcat(a: seq<seq<byte>>, b: seq<seq<byte>>)
    ensures Relayed(a + b) == Relayed(a) + Relayed(b)
  {
    if a == [] {
      NothingConcat(b);
      NothingConcat(Relayed(b));
    } else {
      assert (a + b)[1..] == a[1..] + b;
      RelayedConcat(a[1..], b);
      ConcatAssociative(RelayedOne(a[0]), Relayed(a[1..]), Relayed(b));
    }
  }

  /** Relaying the payload at the cursor leaves the rest of the chunk. */
  lemma RelayStep(chunk: seq<byte>, offset: nat, next: nat, sent: seq<seq<byte>>, one: seq<seq<byte>>)
    requires offset + 4 <= next <= |chunk| && next == offset + 4 + Be32(chunk[offset..])
    requires one == if next - offset - 4 <= RELAY_LIMIT then [ServerFrame(chunk[offset + 4..next])] else []
    ensures (sent + one) + Relayed(Frames(chunk[next..])) == sent + Relayed(Frames(chunk[offset..]))
    ensures Sane(chunk[offset..]) ==> Sane(chunk[next..])
  {
    var s := chunk[offset..];
    var n := next - offset;
    assert s[..n] == chunk[offset..next] && s[n..] == chunk[next..];
    assert s[..n][4..] == chunk[offset + 4..next];
    assert Frames(s)[0] == s[..n] && Frames(s)[1..] == Frames(s[n..]);
    ConcatAssociative(sent, one, Relayed(Frames(chunk[next..])));
  }

  /** One payload, encoded into a buffer of its own. */
  method RelayOne(payload: seq<byte>) returns (sent: seq<seq<byte>>)
    ensures sent == if |payload| <= RELAY_LIMIT then [ServerFrame(payload)] else []
  {
    sent := [];
    var frame := new byte[BUFFER_SIZE];
    var n := EncodeInto(payload, frame);
    if n > 0 {
      sent := [frame[..n]];
    }
  }

  /** The relay loop over the bytes of one recv. What follows the last whole frame
      is dropped. */
  method RelayChunk(chunk: seq<byte>) returns (sent: seq<seq<byte>>)
    requires Sane(chunk)
    ensures sent == Relayed(Frames(chunk))
  {
    sent := [];
    var offset := 0;
    assert chunk[0..] == chunk;
    NothingConcat(Relayed(Frames(chunk)));
    while offset + 4 <= |chunk|
      invariant offset <= |chunk| && Sane(chunk[offset..])
      invariant sent + Relayed(Frames(chunk[offset..])) == Relayed(Frames(chunk))
    {
      PrefixAt(chunk, offset);
      var jsonLen := Be32(chunk[offset..offset + 4]);
      if offset + 4 + jsonLen > |chunk| {
        break;
      }
      var next := offset + 4 + jsonLen;
      var one := RelayOne(chunk[offset + 4..next]);
      RelayStep(chunk, offset, next, sent, one);
      sent := sent + one;
      offset := next;
    }
    ConcatNothing(sent);
  }

  // ----- Server to browser: the stream -----

  /** Every recv is relayed on its own: nothing is kept between two of them. */
  function RelayAll(chunks: seq<seq<byte>>): seq<seq<byte>> {
    if chunks == [] then [] else Relayed(Frames(chunks[0])) + RelayAll(chunks[1..])
  }

  predicate Relayable(payloads: seq<seq<byte>>) {
    forall i :: 0 <= i < |payloads| ==> |payloads[i]| <= RELAY_LIMIT
  }

  function ServerFrames(payloads: seq<seq<byte>>): seq<seq<byte>>
    requires Relayable(payloads)
  {
    if payloads == [] then [] else [ServerFrame(payloads[0])] + ServerFrames(payloads[1..])
  }

  /** The payloads that the relay does not drop. */
  function Fitting(payloads: seq<seq<byte>>): (r: seq<seq<byte>>)
    ensures Relayable(r)
    ensures Relayable(payloads) ==> r == payloads
  {
    if payloads == [] then []
    else if |payloads[0]| <= RELAY_LIMIT then [payloads[0]] + Fitting(payloads[1..])
    else Fitting(payloads[1..])
  }

  lemma {:induction false} WireRelayed(payloads: seq<seq<byte>>)
    requires Sendable(payloads)
    ensures Relayed(WireFrames(payloads)) == ServerFrames(Fitting(payloads))
  {
    if payloads != [] {
      var first := payloads[0];
      assert Wire(first)[4..] == first;
      assert WireFrames(payloads)[1..] == WireFrames(payloads[1..]);
      WireRelayed(payloads[1..]);
      if |first| <= RELAY_LIMIT {
        assert Fitting(payloads)[1..] == Fitting(payloads[1..]);
      }
    }
  }

  /** No recv ends inside a frame. */
  ghost predicate CutAtFrames(chunks: seq<seq<byte>>) {
    forall i :: 0 <= i < |chunks| ==> Residue(chunks[i]) == []
  }

  lemma {:induction false} WholeChunksRelay(chunks: seq<seq<byte>>)
    requires CutAtFrames(chunks)
    ensures RelayAll(chunks) == Relayed(Frames(Flatten(chunks)))
  {
    if chunks != [] {
      var rest := Flatten(chunks[1..]);
      ParseResumes(chunks[0], rest);
      NothingConcat(rest);
      RelayedConcat(Frames(chunks[0]), Frames(rest));
      WholeChunksRelay(chunks[1..]);
    }
  }

  // ----- Counting the bytes carried -----

  function PayloadSize(frame: seq<byte>): int {
    if |frame| < 128 then |frame| - 2 else |frame| - 4
  }

  /** The bytes that the relayed messages took on the server's stream. */
  function Carried(sent: seq<seq<byte>>): int {
    if sent == [] then 0 else 4 + PayloadSize(sent[0]) + Carried(sent[1..])
  }

  lemma {:induction false} CarriedConcat(a: seq<seq<byte>>, b: seq<seq<byte>>)
    ensures Carried(a + b) == Carried(a) + Carried(b)
  {
    if a == [] {
      NothingConcat(b);
    } else {
      assert (a + b)[1..] == a[1..] + b;
      CarriedConcat(a[1..], b);
    }
  }

  lemma CarriedOne(frame: seq<byte>)
    ensures Carried(RelayedOne(frame)) <= |frame|
  {
    if RelayedOne(frame) != [] {
      FrameSize(frame[4..]);
    }
  }

  lemma FrameSize(payload: seq<byte>)
    requires |payload| <= RELAY_LIMIT
    ensures PayloadSize(ServerFrame(payload)) == |payload|
  {
  }

  lemma {:induction false} CarriedByChunk(s: seq<byte>)
    ensures Carried(Relayed(Frames(s))) <= |s| - |Residue(s)|
    decreases |s|
  {
    if Complete(s) {
      var n := 4 + Be32(s);
      CarriedByChunk(s[n..]);
      CarriedOne(s[..n]);
      CarriedConcat(RelayedOne(s[..n]), Relayed(Frames(s[n..])));
      assert Frames(s)[1..] == Frames(s[n..]);
    }
  }

  function Lost(chunks: seq<seq<byte>>): (n: nat)
    ensures n == 0 ==> CutAtFrames(chunks)
  {
    if chunks == [] then 0 else |Residue(chunks[0])| + Lost(chunks[1..])
  }

  lemma {:induction false} CarriedByAll(chunks: seq<seq<byte>>)
    ensures Carried(RelayAll(chunks)) <= |Flatten(chunks)| - Lost(chunks)
  {
    if chunks != [] {
      CarriedByChunk(chunks[0]);
      CarriedByAll(chunks[1..]);
      CarriedConcat(Relayed(Frames(chunks[0])), RelayAll(chunks[1..]));
    }
  }

  lemma {:induction false} CarriedWhole(payloads: seq<seq<byte>>)
    requires Sendable(payloads) && Relayable(payloads)
    ensures Carried(ServerFrames(payloads)) == |WireAll(payloads)|
  {
    if payloads != [] {
      FrameSize(payloads[0]);
      CarriedWhole(payloads[1..]);
      CarriedConcat([ServerFrame(payloads[0])], ServerFrames(payloads[1..]));
    }
  }

  /** While no recv ends inside a frame, the browser gets every message that fits,
      in order, and nothing else. */
  lemma RelayAtFrames(payloads: seq<seq<byte>>, chunks: seq<seq<byte>>)
    requires Sendable(payloads) && Flatten(chunks) == WireAll(payloads) && CutAtFrames(chunks)
    ensures RelayAll(chunks) == ServerFrames(Fitting(payloads))
  {
    WholeChunksRelay(chunks);
    WireParses(payloads);
    WireRelayed(payloads);
  }

  /** When all messages fit, this is also the only case in which the browser gets
      them: a recv that ends inside a frame loses something. The bytes at the
      front of a recv must be a length that the relay loop can handle, even where
      they are none. */
  lemma RelayExact(payloads: seq<seq<byte>>, chunks: seq<seq<byte>>)
    requires Sendable(payloads) && Relayable(payloads) && Flatten(chunks) == WireAll(payloads)
    requires forall i :: 0 <= i < |chunks| ==> Sane(chunks[i])
    ensures RelayAll(chunks) == ServerFrames(payloads) <==> CutAtFrames(chunks)
  {
    if CutAtFrames(chunks) {
      RelayAtFrames(payloads, chunks);
    }
    CarriedByAll(chunks);
    CarriedWhole(payloads);
  }

  // ----- Browser to server -----

  lemma {:induction false} TextIsText(b: seq<byte>)
    ensures IsText(Text(b)) && |Text(b)| <= |b|
  {
    if b != [] && b[0] != 0 {
      TextIsText(b[1..]);
    }
  }

  lemma {:induction false} TextStops(p: seq<byte>, rest: seq<byte>)
    ensures Text(p + [0] + rest) == Text(p)
  {
    if p != [] {
      assert (p + [0] + rest)[1..] == p[1..] + [0] + rest;
      TextStops(p[1..], rest);
    }
  }

  /** What becomes of one recv: bytes for the game server, possibly none, or no
      behaviour that the C language defines. */
  datatype Forwarding = Sends(bytes: seq<byte>) | Undefined

  /** One recv from the browser, at most BUFFER_SIZE bytes: the text of the frame
      at its front goes on if the frame is there whole and the text fits. A
      length misread as negative is harmless only if the result is not above
      zero; an unmasked frame has its payload copied before that is known. */
  function Forwarded(signed: bool, chunk: seq<byte>): Forwarding
    requires |chunk| <= BUFFER_SIZE
  {
    match Decode(signed, chunk)
    case Ignored => Sends([])
    case Frame(p, _) =>
      TextIsText(p);
      if |Text(p)| + 4 <= BUFFER_SIZE then Sends(Wire(Bytes(Text(p)))) else Sends([])
    case BadLength(_, result) => if chunk[1] >= 128 && result <= 0 then Sends([]) else Undefined
  }

  method ForwardChunk(signed: bool, buffer: array<byte>, bytes: nat) returns (sent: seq<byte>)
    requires bytes <= buffer.Length == BUFFER_SIZE && Forwarded(signed, buffer[..bytes]).Sends?
    ensures Sends(sent) == Forwarded(signed, buffer[..bytes])
  {
    sent := [];
    var payload := new byte[BUFFER_SIZE];
    var n, payloadLen := DecodeInto(signed, buffer, bytes, payload);
    if n > 0 {
      assert Decode(signed, buffer[..bytes]).Frame?;
      ghost var p := payload[..payloadLen];
      payload[payloadLen] := 0;
      assert payload[..] == p + [0] + payload[payloadLen + 1..];
      TextStops(p, payload[payloadLen + 1..]);
      TextIsText(p);
      sent := SendText(Text(payload[..]));
    }
  }

  method SendText(text: string) returns (sent: seq<byte>)
    requires IsText(text) && |text| <= BUFFER_SIZE
    ensures sent == if |text| + 4 <= BUFFER_SIZE then Wire(Bytes(text)) else []
  {
    sent := [];
    var tcpBuffer := new byte[BUFFER_SIZE];
    var m := SerializeTcpMessage(text, tcpBuffer);
    if m > 0 {
      sent := tcpBuffer[..m];
    }
  }

  /** A text in a readable masked frame goes on as one message, and nothing that
      follows the frame in the same recv does. */
  lemma OnlyFirstForwarded(signed: bool, text: string, key: seq<byte>, rest: seq<byte>)
    requires IsText(text) && |text| < 0x1_0000 && |key| == 4 && Readable(signed, |text|)
    requires |ClientFrame(Bytes(text), key) + rest| <= BUFFER_SIZE
    ensures Forwarded(signed, ClientFrame(Bytes(text), key) + rest) == Sends(Wire(Bytes(text)))
  {
    ClientFrameComesBack(signed, Bytes(text), key, rest);
    FrameParts(key, Mask(Bytes(text), key), rest);
    TextOfBytes(text);
  }

  /** A text in a frame whose length is misread does not go on. */
  lemma UnreadableLost(signed: bool, text: string, key: seq<byte>, rest: seq<byte>)
    requires IsText(text) && |text| < 0x1_0000 && |key| == 4 && !Readable(signed, |text|)
    requires |ClientFrame(Bytes(text), key) + rest| <= BUFFER_SIZE
    ensures Forwarded(signed, ClientFrame(Bytes(text), key) + rest) in {Sends([]), Undefined}
  {
    ClientFrameComesBack(signed, Bytes(text), key, rest);
  }

  /** What happens instead: nothing, unless the length modulo 256 is 249 or more; then
      the result is above zero although the length is negative. */
  lemma MisreadOutcome(signed: bool, text: string, key: seq<byte>, rest: seq<byte>)
    requires IsText(text) && |text| < 0x1_0000 && |key| == 4 && !Readable(signed, |text|)
    requires |ClientFrame(Bytes(text), key) + rest| <= BUFFER_SIZE
    ensures Forwarded(signed, ClientFrame(Bytes(text), key) + rest)
            == if |text| % 256 < 249 then Sends([]) else Undefined
  {
    var buf := ClientFrame(Bytes(text), key) + rest;
    FrameLength(key, Mask(Bytes(text), key), rest);
    FrameParts(key, Mask(Bytes(text), key), rest);
    JoinMeetsRfc(signed, buf[2], buf[3]);
  }

  /** A text that one recv delivers always fits the message to the server. */
  lemma TextAlwaysFits(signed: bool, chunk: seq<byte>)
    requires |chunk| <= BUFFER_SIZE && Decode(signed, chunk).Frame?
    ensures IsText(Text(Decode(signed, chunk).payload)) && |Text(Decode(signed, chunk).payload)| + 4 <= BUFFER_SIZE
    ensures Forwarded(signed, chunk) == Sends(Wire(Bytes(Text(Decode(signed, chunk).payload))))
  {
    TextIsText(Decode(signed, chunk).payload);
    TextLength(Decode(signed, chunk).payload);
  }

  lemma {:induction false} TextLength(p: seq<byte>)
    ensures |Text(p)| <= |p|
  {
    if p != [] && p[0] != 0 {
      TextLength(p[1..]);
    }
  }

  /** Nor does any part that one recv can deliver of a frame larger than the
      receive buffer. */
  lemma OversizeLost(signed: bool, text: string, key: seq<byte>, n: nat)
    requires IsText(text) && |text| < 0x1_0000 && |key| == 4 && Readable(signed, |text|)
    requires n <= BUFFER_SIZE < |ClientFrame(Bytes(text), key)|
    ensures Forwarded(signed, ClientFrame(Bytes(text), key)[..n]) == Sends([])
  {
    PartIgnored(signed, Bytes(text), key, ClientFrame(Bytes(text), key)[..n]);
  }

  /** Every recv is forwarded on its own. */
  function ForwardedAll(signed: bool, chunks: seq<seq<byte>>): Forwarding
    requires forall i :: 0 <= i < |chunks| ==> |chunks[i]| <= BUFFER_SIZE
  {
    if chunks == [] then Sends([])
    else
      var first, rest := Forwarded(signed, chunks[0]), ForwardedAll(signed, chunks[1..]);
      if first.Sends? && rest.Sends? then Sends(first.bytes + rest.bytes) else Undefined
  }
}
