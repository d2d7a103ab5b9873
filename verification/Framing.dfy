/** Bytes, the four-byte big-endian length prefix, and the parse of a byte stream
    into length-prefixed frames. */
module Framing {
  import opened Protocol
  import opened Sequences

  type byte = x: int | 0 <= x < 256

  /** ntohl over four bytes as they arrive. */
  function Be32(b: seq<byte>): (n: nat)
    requires 4 <= |b|
    ensures n < 0x1_0000_0000
  {
    b[0] as int * 0x100_0000 + b[1] as int * 0x1_0000 + b[2] as int * 0x100 + b[3] as int
  }

  /** htonl. */
  function Be32Bytes(n: nat): (b: seq<byte>)
    requires n < 0x1_0000_0000
    ensures |b| == 4
  {
    [n / 0x100_0000, n / 0x1_0000 % 0x100, n / 0x100 % 0x100, n % 0x100]
  }

  lemma Be32RoundTrip(n: nat, rest: seq<byte>)
    requires n < 0x1_0000_0000
    ensures Be32(Be32Bytes(n) + rest) == n
  {
    var b := Be32Bytes(n) + rest;
    assert b[0] == n / 0x100_0000 && b[1] == n / 0x1_0000 % 0x100 && b[2] == n / 0x100 % 0x100 && b[3] == n % 0x100;
    assert n / 0x1_0000 == n / 0x100_0000 * 0x100 + n / 0x1_0000 % 0x100;
    assert n / 0x100 == n / 0x1_0000 * 0x100 + n / 0x100 % 0x100;
  }

  /** a comes before b: the first byte that differs is smaller. */
  ghost predicate Before(a: seq<byte>, b: seq<byte>)
    requires |a| == |b|
  {
    exists k :: 0 <= k < |a| && a[..k] == b[..k] && a[k] < b[k]
  }

  /** Network byte order: numbers compare as their bytes do from the first one on, and
      a number below 256 is the last byte. */
  lemma NetworkOrder(a: seq<byte>, b: seq<byte>)
    requires |a| == |b| == 4
    ensures Be32(a) < Be32(b) <==> Before(a, b)
    ensures a[..3] == [0, 0, 0] ==> Be32(a) == a[3]
  {
    if Before(a, b) {
      var k :| 0 <= k < 4 && a[..k] == b[..k] && a[k] < b[k];
      assert forall i :: 0 <= i < k ==> a[i] == a[..k][i] == b[i];
    } else if a != b {
      FirstDifference(a, b);
    }
    if a[..3] == [0, 0, 0] {
      assert a[0] == a[..3][0] && a[1] == a[..3][1] && a[2] == a[..3][2];
    }
  }

  lemma {:induction false} FirstDifference(a: seq<byte>, b: seq<byte>)
    requires |a| == |b| && a != b && !Before(a, b)
    ensures exists k :: 0 <= k < |a| && a[..k] == b[..k] && b[k] < a[k]
  {
    if a[0] == b[0] {
      var x, y := a[1..], b[1..];
      forall k | 0 <= k < |x| && x[..k] == y[..k] ensures x[k] >= y[k] {
        assert a[..k + 1] == [a[0]] + x[..k] && b[..k + 1] == [b[0]] + y[..k];
      }
      assert a == [a[0]] + x && b == [b[0]] + y;
      FirstDifference(x, y);
      var k :| 0 <= k < |x| && x[..k] == y[..k] && y[k] < x[k];
      assert a[..k + 1] == [a[0]] + x[..k] && b[..k + 1] == [b[0]] + y[..k];
    } else {
      assert a[..0] == b[..0];
    }
  }

  /** A length prefix read out of the middle of a stream. */
  lemma PrefixAt(s: seq<byte>, offset: nat)
    requires offset + 4 <= |s|
    ensures Be32(s[offset..offset + 4]) == Be32(s[offset..])
  {
  }

  /** Lengths from here on do not fit the int arithmetic of the receive loops. */
  const LENGTH_LIMIT: nat := 0x7FFF_FFFC

  // ----- Frames of a stream -----

  /** A whole frame, prefix and payload, is at the front. */
  predicate Complete(s: seq<byte>) {
    4 <= |s| && 4 + Be32(s) <= |s|
  }

  function Frames(s: seq<byte>): seq<seq<byte>>
    decreases |s|
  {
    if !Complete(s) then [] else [s[..4 + Be32(s)]] + Frames(s[4 + Be32(s)..])
  }

  /** What is left after the last whole frame. */
  function Residue(s: seq<byte>): (r: seq<byte>)
    ensures |r| <= |s|
    ensures !Complete(r)
    decreases |s|
  {
    if !Complete(s) then s else Residue(s[4 + Be32(s)..])
  }

  /** Every declared length that a parse of s reads fits the int arithmetic. */
  predicate Sane(s: seq<byte>)
    decreases |s|
  {
    4 <= |s| ==>
      && Be32(s) < LENGTH_LIMIT
      && (Complete(s) ==> Sane(s[4 + Be32(s)..]))
  }

  // ----- Extending a stream -----

  lemma CompleteGrows(a: seq<byte>, b: seq<byte>)
    requires Complete(a)
    ensures Complete(a + b) && Be32(a + b) == Be32(a)
    ensures (a + b)[..4 + Be32(a)] == a[..4 + Be32(a)]
    ensures (a + b)[4 + Be32(a)..] == a[4 + Be32(a)..] + b
  {
  }

  /** Parsing on from the residue is the same as parsing everything at once. */
  lemma {:induction false} ParseResumes(a: seq<byte>, b: seq<byte>)
    ensures Frames(a + b) == Frames(a) + Frames(Residue(a) + b)
    ensures Residue(a + b) == Residue(Residue(a) + b)
    decreases |a|
  {
    if Complete(a) {
      var first, rest := a[..4 + Be32(a)], a[4 + Be32(a)..];
      CompleteGrows(a, b);
      ParseResumes(rest, b);
      ConcatAssociative([first], Frames(rest), Frames(Residue(rest) + b));
    }
  }

  lemma {:induction false} SanePrefix(a: seq<byte>, b: seq<byte>)
    requires Sane(a + b)
    ensures Sane(a) && Sane(Residue(a) + b)
    decreases |a|
  {
    if Complete(a) {
      CompleteGrows(a, b);
      SanePrefix(a[4 + Be32(a)..], b);
    } else if 4 <= |a| {
      assert Be32(a + b) == Be32(a);
    }
  }

  // ----- Frames of a sender -----

  /** What a sender puts on the wire for one payload. */
  function Wire(payload: seq<byte>): seq<byte>
    requires |payload| < LENGTH_LIMIT
  {
    Be32Bytes(|payload|) + payload
  }

  /** The frames a receiver should see. */
  function WireFrames(payloads: seq<seq<byte>>): (frames: seq<seq<byte>>)
    requires Sendable(payloads)
    ensures |frames| == |payloads|
    ensures forall i :: 0 <= i < |payloads| ==> frames[i] == Wire(payloads[i])
  {
    if payloads == [] then [] else [Wire(payloads[0])] + WireFrames(payloads[1..])
  }

  predicate Sendable(payloads: seq<seq<byte>>) {
    forall i :: 0 <= i < |payloads| ==> |payloads[i]| < LENGTH_LIMIT
  }

  function WireAll(payloads: seq<seq<byte>>): seq<byte>
    requires Sendable(payloads)
  {
    if payloads == [] then [] else Wire(payloads[0]) + WireAll(payloads[1..])
  }

  lemma WireComplete(payload: seq<byte>, rest: seq<byte>)
    requires |payload| < LENGTH_LIMIT
    ensures Complete(Wire(payload) + rest) && Be32(Wire(payload) + rest) == |payload|
    ensures (Wire(payload) + rest)[..4 + |payload|] == Wire(payload)
    ensures (Wire(payload) + rest)[4 + |payload|..] == rest
  {
    Be32RoundTrip(|payload|, payload + rest);
    assert Wire(payload) + rest == Be32Bytes(|payload|) + (payload + rest);
  }

  /** A payload of less than 256 bytes goes out behind three zero bytes and its
      length, and these bytes are read as one frame. */
  lemma ShortWire(p: seq<byte>)
    requires |p| < 256
    ensures Wire(p) == [0, 0, 0, |p|] + p
    ensures Frames([0, 0, 0, |p|] + p) == [[0, 0, 0, |p|] + p]
  {
    ShortPrefix(|p|);
    WireParses([p]);
    ConcatNothing(Wire(p));
  }

  lemma ShortPrefix(n: nat)
    requires n < 256
    ensures Be32Bytes(n) == [0, 0, 0, n]
  {
  }

  /** The wire form of all payloads parses into exactly these frames. */
  lemma {:induction false} WireParses(payloads: seq<seq<byte>>)
    requires Sendable(payloads)
    ensures Frames(WireAll(payloads)) == WireFrames(payloads)
    ensures Residue(WireAll(payloads)) == [] && Sane(WireAll(payloads))
  {
    if payloads != [] {
      WireComplete(payloads[0], WireAll(payloads[1..]));
      WireParses(payloads[1..]);
    }
  }

  /** The receiver has seen a part of what was sent: then it has the first few
      frames whole, and what is left is a proper part of the next one. */
  ghost predicate Underway(payloads: seq<seq<byte>>, frames: seq<seq<byte>>, rest: seq<byte>)
    requires Sendable(payloads)
  {
    && |frames| <= |payloads|
    && (forall i :: 0 <= i < |frames| ==> frames[i] == Wire(payloads[i]))
    && (if |frames| == |payloads| then rest == []
        else |rest| < 4 + |payloads[|frames|]| && rest == Wire(payloads[|frames|])[..|rest|])
  }

  lemma {:induction false} PartParses(payloads: seq<seq<byte>>, s: seq<byte>)
    requires Sendable(payloads) && s <= WireAll(payloads)
    ensures Sane(s) && Underway(payloads, Frames(s), Residue(s))
    decreases |payloads|
  {
    if payloads == [] {
    } else {
      var first, rest := Wire(payloads[0]), WireAll(payloads[1..]);
      if |s| < |first| {
        PartOfFirst(payloads[0], rest, s);
      } else {
        var later := s[|first|..];
        assert s == first + later;
        WireComplete(payloads[0], later);
        PartParses(payloads[1..], later);
        assert Frames(s) == [first] + Frames(later);
      }
    }
  }

  lemma PartOfFirst(payload: seq<byte>, rest: seq<byte>, s: seq<byte>)
    requires |payload| < LENGTH_LIMIT && |s| < 4 + |payload| && s <= Wire(payload) + rest
    ensures !Complete(s) && Sane(s) && s == Wire(payload)[..|s|]
  {
    WireComplete(payload, rest);
    if 4 <= |s| {
      assert Be32(s) == Be32(Wire(payload) + rest);
    }
  }
}
