/** Messages between text and bytes: server/tcp/tcp_parser.c. */
module Parser {
  import opened Protocol
  import opened Framing
  import opened Envelope
  import opened Sequences

  // ----- Text as bytes -----

  /** A C string: bytes, none of them the terminator. */
  predicate IsText(s: string) {
    forall i :: 0 <= i < |s| ==> 0 < s[i] as int < 256
  }

  function Bytes(s: string): (b: seq<byte>)
    requires IsText(s)
    ensures |b| == |s|
    ensures forall i :: 0 <= i < |s| ==> b[i] == s[i] as int
  {
    seq(|s|, i requires 0 <= i < |s| => s[i] as int)
  }

  /** The C string that starts at the front of b. */
  function Text(b: seq<byte>): (s: string) {
    if b == [] || b[0] == 0 then [] else [b[0] as char] + Text(b[1..])
  }

  lemma {:induction false} TextOfBytes(s: string)
    requires IsText(s)
    ensures Text(Bytes(s)) == s
  {
    if s != [] {
      assert Bytes(s)[1..] == Bytes(s[1..]);
      TextOfBytes(s[1..]);
    }
  }

  // ----- The two functions -----

  method SerializeTcpMessage(json: string, buffer: array<byte>) returns (n: int)
    requires IsText(json) && |json| < LENGTH_LIMIT
    modifies buffer
    ensures n == -1 <==> 4 + |json| > buffer.Length
    ensures n == -1 ==> buffer[..] == old(buffer[..])
    ensures n != -1 ==> n == 4 + |json| && buffer[..n] == Wire(Bytes(json)) && buffer[n..] == old(buffer[n..])
  {
    var total := 4 + |json|;
    if total > buffer.Length {
      return -1;
    }
    ghost var wire := Wire(Bytes(json));
    var prefix := Be32Bytes(|json|);
    buffer[0], buffer[1], buffer[2], buffer[3] := prefix[0], prefix[1], prefix[2], prefix[3];
    for i := 0 to |json|
      invariant forall j :: 0 <= j < 4 + i ==> buffer[j] == wire[j]
      invariant forall j :: total <= j < buffer.Length ==> buffer[j] == old(buffer[j])
    {
      buffer[4 + i] := json[i] as int;
    }
    return total;
  }

  method DeserializeTcpMessage(buffer: array<byte>, len: nat) returns (n: int, json: string)
    requires len <= buffer.Length && Sane(buffer[..len])
    ensures n == -1 <==> !Complete(buffer[..len])
    ensures n != -1 ==> n == 4 + Be32(buffer[..len]) && json == Text(buffer[4..n])
  {
    json := "";
    if len < 4 {
      return -1, json;
    }
    var msgLen := Be32(buffer[..4]);
    assert buffer[..4] == buffer[..len][..4];
    if len < 4 + msgLen {
      return -1, json;
    }
    json := Text(buffer[4..4 + msgLen]);
    return 4 + msgLen, json;
  }

  /** What a receiver makes of one frame. */
  function Received(frame: seq<byte>): string
    requires 4 <= |frame|
  {
    Text(frame[4..])
  }

  // ----- Round trips -----

  lemma MessageText(t: int, data: string)
    requires IsText(data)
    ensures IsText(FullMessage(t, data))
  {
    ShowText(t);
  }

  lemma ShowText(t: int)
    ensures IsText(Show(t)) && IsText(Head(t)) && IsText(DATA_KEY)
  {
  }

  /** A message that was cut to the buffer never fits the socket buffer: whatever
      is sent is whole. */
  lemma NothingCutIsSent(t: int, data: string)
    ensures 4 + |CreateMessage(t, data)| <= BUFFER_SIZE <==> 4 + |FullMessage(t, data)| <= BUFFER_SIZE
    ensures 4 + |CreateMessage(t, data)| <= BUFFER_SIZE ==> CreateMessage(t, data) == FullMessage(t, data)
    ensures CreateMessage(t, data) <= FullMessage(t, data)
    ensures |CreateMessage(t, data)| == if |FullMessage(t, data)| < 4096 then |FullMessage(t, data)| else 4095
  {
  }

  /** Create, serialize, deserialize, read: the type comes back whenever the
      message fits, and so does a quote-free string of the data. */
  lemma MessageComesBack(t: int, data: string)
    requires IsText(data) && 4 + |FullMessage(t, data)| <= BUFFER_SIZE
    ensures IsText(CreateMessage(t, data))
    ensures var frame := Wire(Bytes(CreateMessage(t, data)));
            && Frames(frame) == [frame] && Residue(frame) == []
            && Received(frame) == FullMessage(t, data)
            && GetType(Received(frame)) == Some(t)
  {
    MessageText(t, data);
    var json := FullMessage(t, data);
    var frame := Wire(Bytes(json));
    WireParses([Bytes(json)]);
    ConcatNothing(frame);
    ConcatNothing([frame]);
    assert frame[4..] == Bytes(json);
    TextOfBytes(json);
    TypeComesBack(t, data);
  }

  lemma FieldComesBack(t: int, key: string, v: string, rest: string, outSize: nat)
    requires QuoteFree(key) && QuoteFree(v) && |key| + 4 < 128 && 0 < outSize
    requires var data := "{" + Pattern(key) + v + QUOTE + rest;
             IsText(data) && 4 + |FullMessage(t, data)| <= BUFFER_SIZE
    ensures var message := CreateMessage(t, "{" + Pattern(key) + v + QUOTE + rest);
            && IsText(message)
            && GetDataString(Received(Wire(Bytes(message))), key, outSize) == Some(Fit(v, outSize))
  {
    MessageComesBack(t, "{" + Pattern(key) + v + QUOTE + rest);
    StringComesBack(t, key, v, rest, outSize);
  }
}
