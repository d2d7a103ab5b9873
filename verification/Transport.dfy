/** Messages from end to end: browser, proxy, game server, and back. */
module Transport {
  import opened Protocol
  import opened Framing
  import opened Parser
  import opened WebSocket
  import opened Stream
  import opened Relay
  import opened Sequences

  // ----- Server to browser -----

  /** What a browser that follows the standard reads from a stream of frames. */
  function BrowserReads(s: seq<byte>): seq<seq<byte>>
    decreases |s|
  {
    match RfcDecode(s)
    case Frame(p, n) => if 0 < n <= |s| then [p] + BrowserReads(s[n..]) else []
    case _ => []
  }

  lemma {:induction false} BrowserReadsFrames(payloads: seq<seq<byte>>)
    requires Relayable(payloads)
    ensures BrowserReads(Flatten(ServerFrames(payloads))) == payloads
  {
    if payloads != [] {
      var first, rest := ServerFrame(payloads[0]), Flatten(ServerFrames(payloads[1..]));
      assert ServerFrames(payloads)[1..] == ServerFrames(payloads[1..]);
      RfcReadsServer(payloads[0], rest);
      assert (first + rest)[|first|..] == rest;
      BrowserReadsFrames(payloads[1..]);
    }
  }

  /** The browser reads exactly the messages that the server sent, in order, as
      long as each fits the relay and no recv of the proxy ends inside one. */
  lemma ServerToBrowser(payloads: seq<seq<byte>>, chunks: seq<seq<byte>>)
    requires Sendable(payloads) && Flatten(chunks) == WireAll(payloads)
    requires Relayable(payloads) && CutAtFrames(chunks)
    ensures BrowserReads(Flatten(RelayAll(chunks))) == payloads
  {
    RelayAtFrames(payloads, chunks);
    BrowserReadsFrames(payloads);
  }

  // ----- Browser to server -----

  /** A text message and the key that the browser masks it with. */
  datatype Outgoing = Outgoing(text: string, key: seq<byte>)

  predicate Proper(m: Outgoing) {
    IsText(m.text) && |m.text| < 0x1_0000 && |m.key| == 4
  }

  function FrameOf(m: Outgoing): seq<byte>
    requires Proper(m)
  {
    ClientFrame(Bytes(m.text), m.key)
  }

  /** The bytes of a recv that holds the frames of these messages, whole. */
  function Recv(group: seq<Outgoing>): seq<byte>
    requires forall i :: 0 <= i < |group| ==> Proper(group[i])
  {
    if group == [] then [] else FrameOf(group[0]) + Recv(group[1..])
  }

  /** The messages of one recv: at least one, and no more bytes than the receive
      buffer has. */
  predicate Receivable(group: seq<Outgoing>) {
    group != [] && (forall i :: 0 <= i < |group| ==> Proper(group[i])) && |Recv(group)| <= BUFFER_SIZE
  }

  predicate AllReceivable(groups: seq<seq<Outgoing>>) {
    forall j :: 0 <= j < |groups| ==> Receivable(groups[j])
  }

  function Recvs(groups: seq<seq<Outgoing>>): (chunks: seq<seq<byte>>)
    requires AllReceivable(groups)
    ensures |chunks| == |groups|
    ensures forall j :: 0 <= j < |groups| ==> chunks[j] == Recv(groups[j]) && |chunks[j]| <= BUFFER_SIZE
  {
    seq(|groups|, j requires 0 <= j < |groups| => Recv(groups[j]))
  }

  /** Everything the browser sent. */
  function Written(groups: seq<seq<Outgoing>>): seq<Outgoing> {
    if groups == [] then [] else groups[0] + Written(groups[1..])
  }

  /** What gets through: the first message of each recv, if its length is read
      right. */
  function Arriving(signed: bool, groups: seq<seq<Outgoing>>): (ms: seq<Outgoing>)
    requires AllReceivable(groups)
    ensures forall i :: 0 <= i < |ms| ==> Proper(ms[i]) && 4 + |ms[i].text| <= BUFFER_SIZE
  {
    if groups == [] then []
    else
      FitsBuffer(groups[0]);
      (if Readable(signed, |groups[0][0].text|) then [groups[0][0]] else []) + Arriving(signed, groups[1..])
  }

  lemma FitsBuffer(group: seq<Outgoing>)
    requires Receivable(group)
    ensures 4 + |group[0].text| <= BUFFER_SIZE
  {
    FrameParts(group[0].key, Mask(Bytes(group[0].text), group[0].key), Recv(group[1..]));
  }

  /** Each recv holds one message, and its length is read right. */
  predicate OneByOne(signed: bool, groups: seq<seq<Outgoing>>)
    requires AllReceivable(groups)
  {
    forall j :: 0 <= j < |groups| ==> |groups[j]| == 1 && Readable(signed, |groups[j][0].text|)
  }

  lemma {:induction false} ArrivingCount(signed: bool, groups: seq<seq<Outgoing>>)
    requires AllReceivable(groups)
    ensures |Arriving(signed, groups)| <= |groups| <= |Written(groups)|
    ensures |Arriving(signed, groups)| == |Written(groups)| <==> OneByOne(signed, groups)
  {
    if groups != [] {
      ArrivingCount(signed, groups[1..]);
      assert OneByOne(signed, groups) <==>
        |groups[0]| == 1 && Readable(signed, |groups[0][0].text|) && OneByOne(signed, groups[1..]);
    }
  }

  lemma {:induction false} OneByOneArrives(signed: bool, groups: seq<seq<Outgoing>>)
    requires AllReceivable(groups) && OneByOne(signed, groups)
    ensures Arriving(signed, groups) == Written(groups)
  {
    if groups != [] {
      OneByOneArrives(signed, groups[1..]);
      assert groups[0] == [groups[0][0]];
    }
  }

  function PayloadOf(m: Outgoing): (p: seq<byte>)
    requires Proper(m)
    ensures p == Bytes(m.text)
  {
    Bytes(m.text)
  }

  function Payloads(ms: seq<Outgoing>): (ps: seq<seq<byte>>)
    requires forall i :: 0 <= i < |ms| ==> Proper(ms[i]) && 4 + |ms[i].text| <= BUFFER_SIZE
    ensures |ps| == |ms|
    ensures forall i :: 0 <= i < |ms| ==> ps[i] == PayloadOf(ms[i])
    ensures Sendable(ps) && FitBuffer(ps)
  {
    seq(|ms|, i requires 0 <= i < |ms| => PayloadOf(ms[i]))
  }

  lemma GroupForwarded(signed: bool, group: seq<Outgoing>)
    requires Receivable(group)
    ensures Readable(signed, |group[0].text|) ==> Forwarded(signed, Recv(group)) == Sends(Wire(Bytes(group[0].text)))
    ensures !Readable(signed, |group[0].text|) ==> Forwarded(signed, Recv(group)) in {Sends([]), Undefined}
  {
    if Readable(signed, |group[0].text|) {
      OnlyFirstForwarded(signed, group[0].text, group[0].key, Recv(group[1..]));
    } else {
      UnreadableLost(signed, group[0].text, group[0].key, Recv(group[1..]));
    }
  }

  /** If all recvs have a defined outcome, the server is sent the messages that get
      through, and nothing else. */
  lemma {:induction false} ForwardedIsWire(signed: bool, groups: seq<seq<Outgoing>>)
    requires AllReceivable(groups)
    ensures var f := ForwardedAll(signed, Recvs(groups));
            && (f.Sends? ==> f.bytes == WireAll(Payloads(Arriving(signed, groups))))
            && (OneByOne(signed, groups) ==> f.Sends?)
  {
    if groups != [] {
      GroupForwarded(signed, groups[0]);
      ForwardedIsWire(signed, groups[1..]);
      assert Recvs(groups)[1..] == Recvs(groups[1..]);
      FirstPayload(signed, groups);
    }
  }

  lemma FirstPayload(signed: bool, groups: seq<seq<Outgoing>>)
    requires AllReceivable(groups) && groups != []
    ensures WireAll(Payloads(Arriving(signed, groups)))
            == (if Readable(signed, |groups[0][0].text|) then Wire(Bytes(groups[0][0].text)) else [])
               + WireAll(Payloads(Arriving(signed, groups[1..])))
  {
    FitsBuffer(groups[0]);
    var all, rest := Arriving(signed, groups), Arriving(signed, groups[1..]);
    if Readable(signed, |groups[0][0].text|) {
      assert Payloads(all)[1..] == Payloads(rest);
    } else {
      NothingConcat(rest);
      NothingConcat(WireAll(Payloads(rest)));
    }
  }

  /** The texts of what the server's parser reads. */
  ghost predicate Reads(frames: seq<seq<byte>>, ms: seq<Outgoing>) {
    |frames| == |ms| && forall i :: 0 <= i < |ms| ==> |frames[i]| >= 4 && Received(frames[i]) == ms[i].text
  }

  lemma WireReads(ms: seq<Outgoing>)
    requires forall i :: 0 <= i < |ms| ==> Proper(ms[i]) && 4 + |ms[i].text| <= BUFFER_SIZE
    ensures Reads(WireFrames(Payloads(ms)), ms)
  {
    var frames := WireFrames(Payloads(ms));
    forall i | 0 <= i < |ms| ensures |frames[i]| >= 4 && Received(frames[i]) == ms[i].text {
      assert frames[i][4..] == Bytes(ms[i].text);
      TextOfBytes(ms[i].text);
    }
  }

  /** When every recv of the proxy holds whole frames, the server reads the first
      readable text of each recv, in order, however the stream behind the proxy is
      cut, and the connection survives. So it reads all that the browser wrote
      exactly when each recv holds one frame whose length is read right. */
  lemma BrowserToServer(signed: bool, groups: seq<seq<Outgoing>>, chunks: seq<seq<byte>>)
    requires AllReceivable(groups) && Deliverable([], chunks)
    requires ForwardedAll(signed, Recvs(groups)) == Sends(Flatten(chunks))
    ensures var (frames, end, alive) := ReceiveAll([], chunks);
            && alive && end == []
            && Reads(frames, Arriving(signed, groups))
            && (Reads(frames, Written(groups)) <==> OneByOne(signed, groups))
  {
    var ms := Arriving(signed, groups);
    ForwardedIsWire(signed, groups);
    ClientDelivery(Payloads(ms), chunks);
    WireReads(ms);
    ArrivingCount(signed, groups);
    if OneByOne(signed, groups) {
      OneByOneArrives(signed, groups);
    }
  }

  /** And the bytes that leave the proxy are all that the browser wrote, as
      length-prefixed messages, exactly in that case. */
  lemma ProxyForwardsAll(signed: bool, groups: seq<seq<Outgoing>>)
    requires AllReceivable(groups)
    requires forall i :: 0 <= i < |Written(groups)| ==>
      Proper(Written(groups)[i]) && 4 + |Written(groups)[i].text| <= BUFFER_SIZE
    ensures ForwardedAll(signed, Recvs(groups)) == Sends(WireAll(Payloads(Written(groups)))) <==>
            OneByOne(signed, groups)
  {
    var arriving, written := Arriving(signed, groups), Written(groups);
    ForwardedIsWire(signed, groups);
    ArrivingCount(signed, groups);
    if OneByOne(signed, groups) {
      OneByOneArrives(signed, groups);
    }
    WireParses(Payloads(arriving));
    WireParses(Payloads(written));
  }
}
