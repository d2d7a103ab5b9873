/** The Base64 encoder of client_proxy/threads/ws_thread.c against section 4 of
    RFC 4648. Masks and shifts of bytes are written as quotients and remainders. */
module Base64 {
  import opened Framing
  import opened Sequences

  // ----- Specification -----

  function Alphabet(n: nat): (c: char)
    requires n < 64
    ensures c != '='
  {
    if n < 26 then 'A' + n as char
    else if n < 52 then 'a' + (n - 26) as char
    else if n < 62 then '0' + (n - 52) as char
    else if n == 62 then '+'
    else '/'
  }

  /** The four sextets of a 24-bit group. */
  function Group(a: byte, b: byte, c: byte): (g: string)
    ensures |g| == 4
  {
    var n := a * 0x1_0000 + b * 0x100 + c;
    [Alphabet(n / 0x4_0000), Alphabet(n / 0x1000 % 64), Alphabet(n / 64 % 64), Alphabet(n % 64)]
  }

  /** Section 4 of RFC 4648: groups of three bytes, zero bits and '=' filling up
      the last. */
  function Encode(s: seq<byte>): string {
    if |s| == 0 then ""
    else if |s| == 1 then Group(s[0], 0, 0)[..2] + "=="
    else if |s| == 2 then Group(s[0], s[1], 0)[..3] + "="
    else Group(s[0], s[1], s[2]) + Encode(s[3..])
  }

  /** Table 1 of RFC 4648: the capital letters in order, the small letters, the digits,
      '+' and '/'. */
  lemma AlphabetTable(n: nat)
    requires n < 64
    ensures Alphabet(0) == 'A' && Alphabet(25) == 'Z' && Alphabet(26) == 'a' && Alphabet(51) == 'z'
    ensures Alphabet(52) == '0' && Alphabet(61) == '9' && Alphabet(62) == '+' && Alphabet(63) == '/'
    ensures n < 61 && n != 25 && n != 51 ==> Alphabet(n + 1) as int == Alphabet(n) as int + 1
  {
  }

  function Value(c: char): (n: nat)
    ensures n < 64
  {
    if 'A' <= c <= 'Z' then (c - 'A') as nat
    else if 'a' <= c <= 'z' then (c - 'a') as nat + 26
    else if '0' <= c <= '9' then (c - '0') as nat + 52
    else if c == '+' then 62
    else 63
  }

  function Bits(s: string): (n: nat)
    requires |s| == 4
    ensures n < 0x100_0000
  {
    Value(s[0]) * 0x4_0000 + Value(s[1]) * 0x1000 + Value(s[2]) * 64 + Value(s[3])
  }

  function Split(n: nat): (b: seq<byte>)
    requires n < 0x100_0000
    ensures |b| == 3
  {
    [n / 0x1_0000, n / 0x100 % 0x100, n % 0x100]
  }

  /** A decoder for well-formed encodings. */
  function Decode(s: string): seq<byte> {
    if |s| < 4 then []
    else if s[2] == '=' then Split(Bits([s[0], s[1], 'A', 'A']))[..1]
    else if s[3] == '=' then Split(Bits([s[0], s[1], s[2], 'A']))[..2]
    else Split(Bits(s[..4])) + Decode(s[4..])
  }

  // ----- Arithmetic of one group -----

  /** The four table indices that the code computes from its three bytes. */
  function Sextets(a: byte, b: byte, c: byte): (r: seq<nat>)
    ensures |r| == 4 && forall i :: 0 <= i < 4 ==> r[i] < 64
  {
    [a / 4, a % 4 * 16 + b / 16, b % 16 * 4 + c / 64, c % 64]
  }

  lemma Sextet0(a: nat, b: nat, c: nat)
    requires b < 256 && c < 256
    ensures (a * 0x1_0000 + b * 0x100 + c) / 0x4_0000 == a / 4
  {
  }

  lemma Sextet1(a: nat, b: nat, c: nat)
    requires b < 256 && c < 256
    ensures (a * 0x1_0000 + b * 0x100 + c) / 0x1000 % 64 == a % 4 * 16 + b / 16
  {
    assert (a * 0x1_0000 + b * 0x100 + c) / 0x1000 == a * 16 + b / 16;
  }

  lemma Sextet2(a: nat, b: nat, c: nat)
    requires b < 256 && c < 256
    ensures (a * 0x1_0000 + b * 0x100 + c) / 64 % 64 == b % 16 * 4 + c / 64
  {
    ShiftedBySix(a, b, c);
    LowSextet(a * 16 + b / 16, b % 16 * 4 + c / 64);
  }

  lemma ShiftedBySix(a: nat, b: nat, c: nat)
    requires b < 256 && c < 256
    ensures (a * 0x1_0000 + b * 0x100 + c) / 64 == (a * 16 + b / 16) * 64 + (b % 16 * 4 + c / 64)
  {
  }

  lemma LowSextet(q: nat, r: nat)
    requires r < 64
    ensures (q * 64 + r) % 64 == r
  {
  }

  lemma Sextet3(a: nat, b: nat, c: nat)
    ensures (a * 0x1_0000 + b * 0x100 + c) % 64 == c % 64
  {
  }

  lemma SextetsAreGroup(a: byte, b: byte, c: byte)
    ensures var r := Sextets(a, b, c);
            Group(a, b, c) == [Alphabet(r[0]), Alphabet(r[1]), Alphabet(r[2]), Alphabet(r[3])]
  {
    Sextet0(a, b, c);
    Sextet1(a, b, c);
    Sextet2(a, b, c);
    Sextet3(a, b, c);
  }

  lemma Reassemble(a: nat, b: nat, c: nat)
    ensures a / 4 * 0x4_0000 + (a % 4 * 16 + b / 16) * 0x1000 + (b % 16 * 4 + c / 64) * 64 + c % 64
            == a * 0x1_0000 + b * 0x100 + c
  {
  }

  lemma SplitBytes(a: nat, b: nat, c: nat)
    requires b < 256 && c < 256
    ensures var n := a * 0x1_0000 + b * 0x100 + c;
            n / 0x1_0000 == a && n / 0x100 % 0x100 == b && n % 0x100 == c
  {
    assert (a * 0x1_0000 + b * 0x100 + c) / 0x100 == a * 0x100 + b;
  }

  lemma AlphabetInverse(n: nat)
    requires n < 64
    ensures Value(Alphabet(n)) == n
  {
  }

  lemma GroupBits(a: byte, b: byte, c: byte)
    ensures Bits(Group(a, b, c)) == a * 0x1_0000 + b * 0x100 + c
    ensures Split(Bits(Group(a, b, c))) == [a, b, c]
  {
    var r := Sextets(a, b, c);
    SextetsAreGroup(a, b, c);
    AlphabetInverse(r[0]);
    AlphabetInverse(r[1]);
    AlphabetInverse(r[2]);
    AlphabetInverse(r[3]);
    Reassemble(a, b, c);
    SplitBytes(a, b, c);
  }

  lemma PaddingSextets(a: byte, b: byte)
    ensures Group(a, 0, 0)[2] == Group(a, 0, 0)[3] == 'A'
    ensures Group(a, b, 0)[3] == 'A'
  {
    SextetsAreGroup(a, 0, 0);
    SextetsAreGroup(a, b, 0);
  }

  /** Decoding undoes encoding. */
  lemma {:induction false} DecodeEncode(s: seq<byte>)
    ensures Decode(Encode(s)) == s
  {
    if |s| == 0 {
    } else if |s| == 1 {
      GroupBits(s[0], 0, 0);
      PaddingSextets(s[0], 0);
      var g := Group(s[0], 0, 0);
      assert [g[0], g[1], 'A', 'A'] == g;
    } else if |s| == 2 {
      GroupBits(s[0], s[1], 0);
      PaddingSextets(s[0], s[1]);
      var g := Group(s[0], s[1], 0);
      assert [g[0], g[1], g[2], 'A'] == g;
    } else {
      var g := Group(s[0], s[1], s[2]);
      GroupBits(s[0], s[1], s[2]);
      assert Encode(s)[..4] == g && Encode(s)[4..] == Encode(s[3..]);
      DecodeEncode(s[3..]);
    }
  }

  /** Four characters for every three bytes begun. */
  lemma {:induction false} EncodeLength(s: seq<byte>)
    ensures |Encode(s)| == (|s| + 2) / 3 * 4
  {
    if |s| >= 3 {
      EncodeLength(s[3..]);
      assert (|s| + 2) / 3 == (|s| - 3 + 2) / 3 + 1;
    }
  }

  /** Padding fills the last group of four, and appears nowhere else. */
  ghost predicate PaddedBy(r: string, count: nat) {
    count <= |r| && forall i :: 0 <= i < |r| ==> (r[i] == '=' <==> i >= |r| - count)
  }

  /** How many characters of padding an input of n bytes gets. */
  function Padding(n: nat): nat {
    if n % 3 == 0 then 0 else 3 - n % 3
  }

  lemma PaddingLater(n: nat)
    requires n >= 3
    ensures Padding(n) == Padding(n - 3)
  {
  }

  lemma PaddedTail(g: string)
    requires |g| == 4 && forall i :: 0 <= i < 4 ==> g[i] != '='
    ensures PaddedBy(g[..2] + "==", 2) && PaddedBy(g[..3] + "=", 1)
  {
  }

  lemma PaddingOfOne(a: byte)
    ensures PaddedBy(Encode([a]), 2)
  {
    GroupUnpadded(a, 0, 0);
    PaddedTail(Group(a, 0, 0));
  }

  lemma PaddingOfTwo(a: byte, b: byte)
    ensures PaddedBy(Encode([a, b]), 1)
  {
    GroupUnpadded(a, b, 0);
    PaddedTail(Group(a, b, 0));
  }

  lemma {:induction false} PaddingOnlyAtEnd(s: seq<byte>)
    ensures PaddedBy(Encode(s), Padding(|s|))
  {
    if |s| == 0 {
    } else if |s| == 1 {
      PaddingOfOne(s[0]);
      assert s == [s[0]];
    } else if |s| == 2 {
      PaddingOfTwo(s[0], s[1]);
      assert s == [s[0], s[1]];
    } else {
      PaddingOnlyAtEnd(s[3..]);
      PaddingLater(|s|);
      GroupUnpadded(s[0], s[1], s[2]);
      PaddedAfter(Group(s[0], s[1], s[2]), Encode(s[3..]), Padding(|s|));
    }
  }

  lemma GroupUnpadded(a: byte, b: byte, c: byte)
    ensures forall i :: 0 <= i < 4 ==> Group(a, b, c)[i] != '='
  {
  }

  lemma PaddedAfter(g: string, r: string, count: nat)
    requires PaddedBy(r, count) && forall i :: 0 <= i < |g| ==> g[i] != '='
    ensures PaddedBy(g + r, count)
  {
  }

  /** n bytes are a number of whole groups. */
  predicate Whole(n: nat) {
    n == 0 || (n >= 3 && Whole(n - 3))
  }

  lemma {:induction false} EncodeConcat(a: seq<byte>, b: seq<byte>)
    requires Whole(|a|)
    ensures Encode(a + b) == Encode(a) + Encode(b)
  {
    if a == [] {
      assert a + b == b;
    } else {
      assert (a + b)[3..] == a[3..] + b;
      EncodeConcat(a[3..], b);
    }
  }

  /** While input is left over, the output has room for one more group. */
  lemma RoomForGroup(input: seq<byte>, n: nat)
    requires n < |input| && Whole(n)
    ensures |Encode(input[..n])| + 4 <= |Encode(input)|
  {
    assert input == input[..n] + input[n..];
    EncodeConcat(input[..n], input[n..]);
  }

  lemma TakeMore(input: seq<byte>, n: nat)
    requires n + 3 <= |input|
    ensures input[..n + 3] == input[..n] + [input[n], input[n + 1], input[n + 2]]
  {
  }

  lemma TakeRest(input: seq<byte>, n: nat)
    requires n + 1 <= |input| <= n + 2
    ensures input == input[..n] + (if |input| == n + 1 then [input[n]] else [input[n], input[n + 1]])
  {
  }

  // ----- The accumulator loop -----

  /** Fills the first characters of one group into the output. */
  method Emit(r: seq<nat>, count: nat, output: array<char>, j: nat)
    requires |r| == 4 && (forall i :: 0 <= i < 4 ==> r[i] < 64)
    requires count <= 4 && j + count <= output.Length
    modifies output
    ensures output[..j + count]
            == old(output[..j]) + [Alphabet(r[0]), Alphabet(r[1]), Alphabet(r[2]), Alphabet(r[3])][..count]
  {
    for k := 0 to count
      invariant forall i :: 0 <= i < j ==> output[i] == old(output[i])
      invariant forall i :: 0 <= i < k ==> output[j + i] == Alphabet(r[i])
    {
      output[j + k] := Alphabet(r[k]);
    }
  }

  /** The output holds the encoding of the first n bytes, a number of whole
      groups, in its first j characters. */
  ghost predicate Written(input: seq<byte>, n: nat, output: array<char>, j: nat)
    reads output
  {
    && n <= |input|
    && Whole(n)
    && j == |Encode(input[..n])| <= output.Length
    && output[..j] == Encode(input[..n])
  }

  /** base64_encode: three bytes are collected at a time; what is left over at
      the end is filled up with zero bytes and padding. */
  method EncodeInto(input: seq<byte>, output: array<char>)
    requires |Encode(input)| < output.Length
    modifies output
    ensures output[..|Encode(input)|] == Encode(input)
    ensures output[|Encode(input)|] == '\0'
  {
    var i, j := 0, 0;
    var a, b, c: byte := 0, 0, 0;
    var k := 0;
    ghost var n := 0;
    while k < |input|
      invariant 0 <= i <= 2 && k == n + i <= |input|
      invariant i >= 1 ==> a == input[n]
      invariant i == 2 ==> b == input[n + 1]
      invariant Written(input, n, output, j)
    {
      if i == 0 {
        a := input[k];
      } else if i == 1 {
        b := input[k];
      } else {
        c := input[k];
      }
      i := i + 1;
      k := k + 1;
      if i == 3 {
        EmitGroup(input, n, a, b, c, output, j);
        n := n + 3;
        j := j + 4;
        i := 0;
      }
    }
    if i != 0 {
      EmitRest(input, n, a, b, i, output, j);
      j := j + 4;
    } else {
      assert input[..|input|] == input;
    }
    output[j] := '\0';
  }

  /** A full group behind the groups already written. */
  method EmitGroup(ghost input: seq<byte>, ghost n: nat, a: byte, b: byte, c: byte, output: array<char>, j: nat)
    requires n + 3 <= |input| && input[n] == a && input[n + 1] == b && input[n + 2] == c
    requires |Encode(input)| <= output.Length && Written(input, n, output, j)
    modifies output
    ensures Written(input, n + 3, output, j + 4)
  {
    RoomForGroup(input, n);
    TakeMore(input, n);
    EncodeConcat(input[..n], [a, b, c]);
    EncodeOne(a, b, c);
    SextetsAreGroup(a, b, c);
    Emit(Sextets(a, b, c), 4, output, j);
  }

  lemma EncodeOne(a: byte, b: byte, c: byte)
    ensures Encode([a, b, c]) == Group(a, b, c)
  {
    assert [a, b, c][3..] == [];
  }

  /** One or two bytes behind the groups already written. */
  method EmitRest(ghost input: seq<byte>, ghost n: nat, a: byte, b: byte, i: nat, output: array<char>, j: nat)
    requires 1 <= i <= 2 && n + i == |input| && input[n] == a && (i == 2 ==> input[n + 1] == b)
    requires |Encode(input)| <= output.Length && Written(input, n, output, j)
    modifies output
    ensures j + 4 == |Encode(input)|
    ensures output[..j + 4] == Encode(input)
  {
    var second: byte := if i == 1 then 0 else b;
    RoomForGroup(input, n);
    SextetsAreGroup(a, second, 0);
    Emit(Sextets(a, second, 0), i + 1, output, j);
    Pad(output, j + i + 1, j + 4);
    RestEncoded(input, n, a, b, i);
  }

  /** What the last one or two bytes add. */
  lemma RestEncoded(input: seq<byte>, n: nat, a: byte, b: byte, i: nat)
    requires Whole(n) && 1 <= i <= 2 && n + i == |input| && input[n] == a && (i == 2 ==> input[n + 1] == b)
    ensures Encode(input) == Encode(input[..n]) + Group(a, if i == 1 then 0 else b, 0)[..i + 1] + seq(3 - i, _ => '=')
  {
    var rest := if i == 1 then [a] else [a, b];
    TakeRest(input, n);
    EncodeConcat(input[..n], rest);
    assert seq(1, _ => '=') == "=" && seq(2, _ => '=') == "==";
    assert Encode(rest) == Group(a, if i == 1 then 0 else b, 0)[..i + 1] + seq(3 - i, _ => '=');
    ConcatAssociative(Encode(input[..n]), Group(a, if i == 1 then 0 else b, 0)[..i + 1], seq(3 - i, _ => '='));
  }

  method Pad(output: array<char>, from: nat, to: nat)
    requires from <= to <= output.Length
    modifies output
    ensures output[..to] == old(output[..from]) + seq(to - from, _ => '=')
  {
    for k := from to to
      invariant output[..from] == old(output[..from])
      invariant forall m :: from <= m < k ==> output[m] == '='
    {
      output[k] := '=';
    }
  }
}
