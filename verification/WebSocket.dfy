/** The frame codec of client_proxy/threads/ws_thread.c against sections 5.2 and
    5.3 of RFC 6455. */
module WebSocket {
  import opened Protocol
  import opened Framing
  import opened Sequences

  // ----- Masking -----

  /** Exclusive or of the lowest bits of a and b. */
  function XorBits(a: nat, b: nat, bits: nat): nat {
    if bits == 0 then 0
    else (if a % 2 == b % 2 then 0 else 1) + 2 * XorBits(a / 2, b / 2, bits - 1)
  }

  function Pow2(n: nat): nat {
    if n == 0 then 1 else 2 * Pow2(n - 1)
  }

  lemma {:induction false} XorBelow(a: nat, b: nat, bits: nat)
    ensures XorBits(a, b, bits) < Pow2(bits)
  {
    if bits > 0 {
      XorBelow(a / 2, b / 2, bits - 1);
    }
  }

  lemma {:induction false} XorTwice(a: nat, b: nat, bits: nat)
    requires a < Pow2(bits)
    ensures XorBits(XorBits(a, b, bits), b, bits) == a
  {
    if bits > 0 {
      var low, rest := if a % 2 == b % 2 then 0 else 1, XorBits(a / 2, b / 2, bits - 1);
      assert (low + 2 * rest) % 2 == low && (low + 2 * rest) / 2 == rest;
      XorTwice(a / 2, b / 2, bits - 1);
    }
  }

  lemma Pow2Of8()
    ensures Pow2(8) == 256
  {
    assert Pow2(4) == 16;
  }

  function Xor(a: byte, b: byte): byte {
    XorBelow(a, b, 8);
    Pow2Of8();
    XorBits(a, b, 8)
  }

  lemma XorUndone(a: byte, b: byte)
    ensures Xor(Xor(a, b), b) == a
  {
    Pow2Of8();
    XorTwice(a, b, 8);
  }

  /** Bit i, counted from the lowest. */
  predicate Bit(n: nat, i: nat) {
    if i == 0 then n % 2 == 1 else Bit(n / 2, i - 1)
  }

  lemma {:induction false} BitOfXor(a: nat, b: nat, bits: nat, i: nat)
    requires i < bits
    ensures Bit(XorBits(a, b, bits), i) <==> Bit(a, i) != Bit(b, i)
  {
    var rest := XorBits(a / 2, b / 2, bits - 1);
    assert XorBits(a, b, bits) / 2 == rest && (XorBits(a, b, bits) % 2 == 1 <==> a % 2 != b % 2);
    if i > 0 {
      BitOfXor(a / 2, b / 2, bits - 1, i - 1);
    }
  }

  /** A bit of the result is set exactly if that bit is set in one of the two and not
      in the other. */
  lemma XorIsExclusive(a: byte, b: byte, i: nat)
    requires i < 8
    ensures Bit(Xor(a, b), i) <==> Bit(a, i) != Bit(b, i)
  {
    BitOfXor(a, b, 8, i);
  }

  lemma {:induction false} XorNothing(a: nat, bits: nat)
    requires a < Pow2(bits)
    ensures XorBits(a, 0, bits) == a
  {
    if bits > 0 {
      XorNothing(a / 2, bits - 1);
    }
  }

  /** Section 5.3 of RFC 6455: byte i is combined with byte i mod 4 of the key. */
  function Mask(p: seq<byte>, key: seq<byte>): (m: seq<byte>)
    requires |key| == 4
    ensures |m| == |p|
    ensures forall i :: 0 <= i < |p| ==> m[i] == Xor(p[i], key[i % 4])
  {
    seq(|p|, i requires 0 <= i < |p| => Xor(p[i], key[i % 4]))
  }

  lemma MaskUndone(p: seq<byte>, key: seq<byte>)
    requires |key| == 4
    ensures Mask(Mask(p, key), key) == p
  {
    forall i | 0 <= i < |p| ensures Mask(Mask(p, key), key)[i] == p[i] {
      XorUndone(p[i], key[i % 4]);
    }
  }

  /** Masking with the zero key changes nothing. */
  lemma ZeroKey(p: seq<byte>)
    ensures Mask(p, [0, 0, 0, 0]) == p
  {
    forall i | 0 <= i < |p| ensures Mask(p, [0, 0, 0, 0])[i] == p[i] {
      Pow2Of8();
      XorNothing(p[i], 8);
    }
  }

  /** Over zero bytes the key appears from its first byte on, again and again. */
  lemma KeyRepeats(p: seq<byte>, key: seq<byte>, i: nat)
    requires |key| == 4 && i < |p| && p[i] == 0
    ensures Mask(p, key)[i] == key[i % 4]
  {
    Pow2Of8();
    XorNothing(key[i % 4], 8);
    XorSymmetric(0, key[i % 4], 8);
  }

  lemma {:induction false} XorSymmetric(a: nat, b: nat, bits: nat)
    ensures XorBits(a, b, bits) == XorBits(b, a, bits)
  {
    if bits > 0 {
      XorSymmetric(a / 2, b / 2, bits - 1);
    }
  }

  // ----- Frames by the standard -----

  /** The length field for payloads of up to 16 bits of length, in its shortest form. */
  function LengthField(n: nat, masked: bool): (f: seq<byte>)
    requires n < 0x1_0000
    ensures |f| == if n < 126 then 1 else 3
  {
    var m := if masked then 128 else 0;
    if n < 126 then [m + n] else [m + 126, n / 256, n % 256]
  }

  /** A final text frame; the key is empty for a server and four bytes for a client. */
  function TextFrame(key: seq<byte>, body: seq<byte>): seq<byte>
    requires |body| < 0x1_0000 && (|key| == 0 || |key| == 4)
  {
    [0x81] + LengthField(|body|, key != []) + key + body
  }

  function ServerFrame(p: seq<byte>): seq<byte>
    requires |p| < 0x1_0000
  {
    TextFrame([], p)
  }

  function ClientFrame(p: seq<byte>, key: seq<byte>): seq<byte>
    requires |p| < 0x1_0000 && |key| == 4
  {
    TextFrame(key, Mask(p, key))
  }

  /** What a decoder makes of the bytes it has: nothing; the payload of a data
      frame and the size of the frame; or a length below zero and the value
      returned for it. */
  datatype Decoded = Ignored | Frame(payload: seq<byte>, size: nat) | BadLength(length: int, result: int)

  /** The declared payload length and where the length field ends. */
  function RfcLength(buf: seq<byte>): (r: Option<(nat, nat)>)
    requires 2 <= |buf|
    ensures r.Some? ==> 2 <= r.value.1 <= |buf|
  {
    var short := buf[1] % 128;
    if short < 126 then Some((short as nat, 2))
    else if short == 126 then
      if |buf| < 4 then None else Some((buf[2] as int * 256 + buf[3] as int, 4))
    else
      if |buf| < 10 then None else Some((Be32(buf[2..]) * 0x1_0000_0000 + Be32(buf[6..]), 10))
  }

  /** A data frame at the front of buf as sections 5.2 and 5.3 read it. */
  function RfcDecode(buf: seq<byte>): Decoded {
    if |buf| < 2 || buf[0] % 16 > 1 then Ignored
    else match RfcLength(buf)
      case None => Ignored
      case Some((n, at)) => Unmasked(buf, at, n)
  }

  /** The payload of n bytes behind a header of `at` bytes, once it is all there. */
  function Unmasked(buf: seq<byte>, at: nat, n: nat): Decoded
    requires 2 <= at <= |buf|
  {
    var data := if buf[1] >= 128 then at + 4 else at;
    if |buf| < data + n then Ignored
    else if buf[1] >= 128 then Frame(Mask(buf[data..data + n], buf[at..data]), data + n)
    else Frame(buf[data..data + n], data + n)
  }

  /** The first bytes of a text frame. */
  lemma FrameLength(key: seq<byte>, body: seq<byte>, rest: seq<byte>)
    requires |body| < 0x1_0000 && (|key| == 0 || |key| == 4)
    ensures var buf := TextFrame(key, body) + rest;
            && buf[0] == 0x81
            && (buf[1] >= 128 <==> key != [])
            && buf[1] % 128 == (if |body| < 126 then |body| else 126)
            && (|body| >= 126 ==> buf[2] == |body| / 256 && buf[3] == |body| % 256)
  {
    var field := LengthField(|body|, key != []);
    var buf := TextFrame(key, body) + rest;
    assert buf == [0x81] + field + (key + body + rest);
    assert forall i :: 0 <= i < |field| ==> buf[1 + i] == field[i];
  }

  /** Key and body behind them. */
  lemma FrameParts(key: seq<byte>, body: seq<byte>, rest: seq<byte>)
    requires |body| < 0x1_0000 && (|key| == 0 || |key| == 4)
    ensures var buf := TextFrame(key, body) + rest;
            var at := if |body| < 126 then 2 else 4;
            var data := at + |key|;
            && |TextFrame(key, body)| == data + |body| <= |buf|
            && buf[at..data] == key
            && buf[data..data + |body|] == body
  {
    var field := LengthField(|body|, key != []);
    var buf := TextFrame(key, body) + rest;
    assert buf == [0x81] + field + (key + body + rest);
  }

  lemma FrameDecoded(key: seq<byte>, body: seq<byte>, rest: seq<byte>)
    requires |body| < 0x1_0000 && (|key| == 0 || |key| == 4)
    ensures RfcDecode(TextFrame(key, body) + rest)
            == Frame(if key == [] then body else Mask(body, key), |TextFrame(key, body)|)
  {
    FrameLength(key, body, rest);
    FrameParts(key, body, rest);
  }

  /** The standard reads its own frames back. */
  lemma RfcReadsClient(p: seq<byte>, key: seq<byte>, rest: seq<byte>)
    requires |p| < 0x1_0000 && |key| == 4
    ensures RfcDecode(ClientFrame(p, key) + rest) == Frame(p, |ClientFrame(p, key)|)
  {
    FrameDecoded(key, Mask(p, key), rest);
    MaskUndone(p, key);
  }

  lemma RfcReadsServer(p: seq<byte>, rest: seq<byte>)
    requires |p| < 0x1_0000
    ensures RfcDecode(ServerFrame(p) + rest) == Frame(p, |ServerFrame(p)|)
  {
    FrameDecoded([], p, rest);
  }

  /** The layout of section 5.2, byte by byte, for a text of 256 h + l bytes: the zero
      key leaves it readable in a browser's frame. */
  lemma FrameBytes(p: seq<byte>, h: byte, l: byte)
    requires |p| == h * 256 + l
    ensures |p| < 126 ==> ServerFrame(p) == [0x81, |p|] + p
    ensures |p| < 126 ==> ClientFrame(p, [0, 0, 0, 0]) == [0x81, 0x80 + |p|, 0, 0, 0, 0] + p
    ensures |p| >= 126 ==> ServerFrame(p) == [0x81, 0x7E, h, l] + p
    ensures |p| >= 126 ==> ClientFrame(p, [0, 0, 0, 0]) == [0x81, 0xFE, h, l, 0, 0, 0, 0] + p
  {
    ZeroKey(p);
  }

  // ----- The decoder of the proxy -----

  /** The value of a byte in a plain char, which may be signed. */
  function Char(signed: bool, b: byte): int {
    if signed && b >= 128 then b - 256 else b
  }

  /** (hi << 8) | lo: a negative lo has all its upper bits set. */
  function Join(hi: int, lo: int): int {
    if lo < 0 then lo else hi * 256 + lo
  }

  /** ws_decode_frame. */
  function Decode(signed: bool, buf: seq<byte>): Decoded {
    if |buf| < 2 then Ignored
    else
      var opcode, masked, short := buf[0] % 16, buf[1] >= 128, buf[1] % 128;
      if opcode != 1 && opcode != 0 then Ignored
      else if short == 127 || (short == 126 && |buf| < 4) then Ignored
      else
        var length := if short == 126 then Join(Char(signed, buf[2]), Char(signed, buf[3])) else short;
        var at := if short == 126 then 4 else 2;
        if masked && |buf| < at + 4 then Ignored
        else if length < 0 then BadLength(length, (if masked then at + 4 else at) + length)
        else Unmasked(buf, at, length)
  }

  /** A 16-bit length is read with a byte of 128 or more through a signed char. */
  predicate Misread(signed: bool, buf: seq<byte>) {
    && signed
    && 4 <= |buf|
    && buf[0] % 16 <= 1
    && buf[1] % 128 == 126
    && (buf[1] >= 128 ==> 8 <= |buf|)
    && (buf[2] >= 128 || buf[3] >= 128)
  }

  /** On every input whose length field has at most 16 bits, the proxy decodes as
      the standard does exactly when it does not misread the length. */
  lemma DecodeMeetsRfc(signed: bool, buf: seq<byte>)
    requires 2 <= |buf| ==> buf[1] % 128 != 127
    ensures Decode(signed, buf) == RfcDecode(buf) <==> !Misread(signed, buf)
    ensures Misread(signed, buf) ==> Decode(signed, buf).BadLength?
  {
    if 2 <= |buf| && buf[0] % 16 <= 1 && buf[1] % 128 == 126 && 4 <= |buf| {
      JoinMeetsRfc(signed, buf[2], buf[3]);
    }
  }

  /** The final bit and the reserved bits of the first byte are not looked at, and of
      the opcodes only text and continuation are taken. */
  lemma FirstByte(signed: bool, b: byte, tail: seq<byte>)
    ensures Decode(signed, [b] + tail)
            == if b % 16 == 0 || b % 16 == 1 then Decode(signed, [0x81] + tail) else Ignored
  {
    var x, y := [b] + tail, [0x81] + tail;
    forall at: nat, n: nat | 2 <= at <= |x| ensures Unmasked(x, at, n) == Unmasked(y, at, n) {
      SameBehind(b, 0x81, tail, at, n);
    }
    assert forall i :: 1 <= i < |x| ==> x[i] == y[i];
  }

  /** A frame with a 64-bit length field is ignored, whatever it holds. */
  lemma LongIgnored(signed: bool, buf: seq<byte>)
    requires 2 <= |buf| && buf[1] % 128 == 127
    ensures Decode(signed, buf) == Ignored
  {
  }

  lemma SameBehind(a: byte, b: byte, tail: seq<byte>, at: nat, n: nat)
    requires 2 <= at <= |tail| + 1
    ensures Unmasked([a] + tail, at, n) == Unmasked([b] + tail, at, n)
  {
    var x, y := [a] + tail, [b] + tail;
    var data := if x[1] >= 128 then at + 4 else at;
    assert x[1] == tail[0] == y[1];
    if data + n <= |x| {
      SliceBehind(a, tail, data, data + n);
      SliceBehind(b, tail, data, data + n);
      SliceBehind(a, tail, at, data);
      SliceBehind(b, tail, at, data);
    }
  }

  lemma SliceBehind(a: byte, tail: seq<byte>, i: nat, j: nat)
    requires 1 <= i <= j <= |tail| + 1
    ensures ([a] + tail)[i..j] == tail[i - 1..j - 1]
  {
  }

  lemma JoinMeetsRfc(signed: bool, hi: byte, lo: byte)
    ensures var n := Join(Char(signed, hi), Char(signed, lo));
            if signed && (hi >= 128 || lo >= 128) then n < 0 else n == hi * 256 + lo
  {
  }

  /** Both bytes of a 16-bit length are below 128, or nothing can go wrong. */
  predicate Readable(signed: bool, n: nat) {
    !signed || n < 126 || (n / 256 < 128 && n % 256 < 128)
  }

  /** The text frame of a browser comes back, whole, exactly when its length is
      readable, whatever follows it. */
  lemma ClientFrameComesBack(signed: bool, p: seq<byte>, key: seq<byte>, rest: seq<byte>)
    requires |p| < 0x1_0000 && |key| == 4
    ensures Decode(signed, ClientFrame(p, key) + rest) == Frame(p, |ClientFrame(p, key)|) <==> Readable(signed, |p|)
    ensures !Readable(signed, |p|) ==> Decode(signed, ClientFrame(p, key) + rest).BadLength?
  {
    FrameParts(key, Mask(p, key), rest);
    RfcReadsClient(p, key, rest);
    FrameLength(key, Mask(p, key), rest);
    DecodeMeetsRfc(signed, ClientFrame(p, key) + rest);
  }

  /** The proxy reads its own frames back under the same condition. */
  lemma ServerFrameComesBack(signed: bool, p: seq<byte>, rest: seq<byte>)
    requires |p| < 0x1_0000
    ensures Decode(signed, ServerFrame(p) + rest) == Frame(p, |ServerFrame(p)|) <==> Readable(signed, |p|)
  {
    FrameParts([], p, rest);
    RfcReadsServer(p, rest);
    FrameLength([], p, rest);
    DecodeMeetsRfc(signed, ServerFrame(p) + rest);
  }

  /** A part of a browser's frame is ignored. */
  lemma PartIgnored(signed: bool, p: seq<byte>, key: seq<byte>, part: seq<byte>)
    requires |p| < 0x1_0000 && |key| == 4 && Readable(signed, |p|)
    requires part <= ClientFrame(p, key) && part != ClientFrame(p, key)
    ensures Decode(signed, part) == Ignored
  {
    var whole := ClientFrame(p, key);
    FrameParts(key, Mask(p, key), []);
    FrameLength(key, Mask(p, key), []);
    ConcatNothing(whole);
    assert forall i :: 0 <= i < |part| ==> part[i] == whole[i];
    if 4 <= |part| && |p| >= 126 {
      JoinMeetsRfc(signed, part[2], part[3]);
    }
  }

  /** ws_decode_frame as it fills the payload buffer. */
  method DecodeInto(signed: bool, buffer: array<byte>, len: nat, payload: array<byte>)
    returns (n: int, payloadLen: int)
    requires len <= buffer.Length && len <= payload.Length && buffer != payload
    modifies payload
    ensures match Decode(signed, buffer[..len])
            case Ignored => n == -1
            case Frame(p, size) => n == size && payloadLen == |p| && payload[..|p|] == p
            case BadLength(length, result) =>
              n == result && payloadLen == length && payload[..] == old(payload[..])
  {
    n, payloadLen := -1, 0;
    if len < 2 {
      return;
    }
    var opcode, masked := buffer[0] % 16, buffer[1] >= 128;
    var length: int := buffer[1] % 128;
    if opcode != 1 && opcode != 0 {
      return;
    }
    var offset := 2;
    if length == 126 {
      if len < 4 {
        return;
      }
      length := Join(Char(signed, buffer[2]), Char(signed, buffer[3]));
      offset := 4;
    } else if length == 127 {
      return;
    }
    if masked && len < offset + 4 {
      return;
    }
    var data := if masked then offset + 4 else offset;
    if len < data + length {
      return;
    }
    if length >= 0 {
      Fill(masked, buffer, len, offset, length, payload);
    }
    payloadLen := length;
    n := data + length;
  }

  /** The payload, once all of it is there. */
  method Fill(masked: bool, buffer: array<byte>, len: nat, offset: nat, length: nat, payload: array<byte>)
    requires 2 <= offset <= len <= buffer.Length && len <= payload.Length && buffer != payload
    requires masked == (buffer[1] >= 128) && (if masked then offset + 4 else offset) + length <= len
    modifies payload
    ensures var data := if masked then offset + 4 else offset;
            Unmasked(buffer[..len], offset, length) == Frame(payload[..length], data + length)
  {
    var data := if masked then offset + 4 else offset;
    SliceOfTake(buffer[..], len, data, data + length);
    if masked {
      SliceOfTake(buffer[..], len, offset, data);
      Unmask(buffer, data, length, buffer[offset..data], payload);
    } else {
      Copy(buffer, data, length, payload);
    }
  }

  lemma SliceOfTake<T>(s: seq<T>, len: nat, i: nat, j: nat)
    requires i <= j <= len <= |s|
    ensures s[..len][i..j] == s[i..j]
  {
  }

  method Unmask(buffer: array<byte>, data: nat, length: nat, key: seq<byte>, payload: array<byte>)
    requires data + length <= buffer.Length && length <= payload.Length && buffer != payload && |key| == 4
    modifies payload
    ensures payload[..length] == Mask(buffer[data..data + length], key)
    ensures payload[length..] == old(payload[length..])
  {
    for i := 0 to length
      invariant forall k :: 0 <= k < i ==> payload[k] == Xor(buffer[data + k], key[k % 4])
      invariant payload[length..] == old(payload[length..])
    {
      payload[i] := Xor(buffer[data + i], key[i % 4]);
    }
  }

  /** memcpy. */
  method Copy(buffer: array<byte>, data: nat, length: nat, payload: array<byte>)
    requires data + length <= buffer.Length && length <= payload.Length && buffer != payload
    modifies payload
    ensures payload[..length] == buffer[data..data + length]
    ensures payload[length..] == old(payload[length..])
  {
    for i := 0 to length
      invariant forall k :: 0 <= k < i ==> payload[k] == buffer[data + k]
      invariant payload[length..] == old(payload[length..])
    {
      payload[i] := buffer[data + i];
    }
  }

  // ----- The encoder of the proxy -----

  /** ws_encode_frame: a standard text frame, or -1 when the buffer does not have
      ten bytes to spare or the length does not fit 16 bits. */
  method EncodeInto(payload: seq<byte>, frame: array<byte>) returns (n: int)
    modifies frame
    ensures n == -1 <==> frame.Length < |payload| + 10 || |payload| >= 0x1_0000
    ensures n != -1 ==> n == |ServerFrame(payload)| <= frame.Length && frame[..n] == ServerFrame(payload)
  {
    if frame.Length < |payload| + 10 {
      return -1;
    }
    var offset := 1;
    frame[0] := 0x81;
    if |payload| < 126 {
      frame[1] := |payload|;
      offset := 2;
    } else if |payload| < 65536 {
      frame[1], frame[2], frame[3] := 126, |payload| / 256, |payload| % 256;
      offset := 4;
    } else {
      return -1;
    }
    ghost var header := [0x81] + LengthField(|payload|, false);
    for i := 0 to |payload|
      invariant frame[..offset] == header
      invariant forall k :: 0 <= k < i ==> frame[offset + k] == payload[k]
    {
      frame[offset + i] := payload[i];
    }
    FrameLayout(frame[..], offset, payload);
    n := offset + |payload|;
  }

  lemma FrameLayout(frame: seq<byte>, offset: nat, p: seq<byte>)
    requires |p| < 0x1_0000 && offset + |p| <= |frame|
    requires frame[..offset] == [0x81] + LengthField(|p|, false)
    requires forall k :: 0 <= k < |p| ==> frame[offset + k] == p[k]
    ensures |ServerFrame(p)| == offset + |p| && frame[..offset + |p|] == ServerFrame(p)
  {
    assert frame[offset..offset + |p|] == p;
    assert frame[..offset + |p|] == frame[..offset] + frame[offset..offset + |p|];
  }
}
