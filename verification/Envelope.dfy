/** The JSON envelope of server/utils/json.c. Strings are the characters before
    the terminator; the search functions are those of the C library. */
module Envelope {
  import opened Protocol

  // ----- Decimal numbers -----

  function Digit(d: nat): (c: char)
    requires d < 10
    ensures '0' <= c <= '9'
  {
    '0' + d as char
  }

  function Dec(n: nat): (s: string)
    ensures s != [] && forall i :: 0 <= i < |s| ==> '0' <= s[i] <= '9'
  {
    if n < 10 then [Digit(n)] else Dec(n / 10) + [Digit(n % 10)]
  }

  /** "%d" */
  function Show(n: int): (s: string) {
    if n < 0 then "-" + Dec(-n) else Dec(n)
  }

  function IsDigit(c: char): bool {
    '0' <= c <= '9'
  }

  /** The number made of the digits at the front, after the digits worth `acc`. */
  function Digits(s: string, acc: nat): nat
    decreases |s|
  {
    if s == [] || !IsDigit(s[0]) then acc else Digits(s[1..], acc * 10 + (s[0] - '0') as nat)
  }

  predicate IsSpace(c: char) {
    c == ' ' || c == '\t' || c == '\n' || c == '\r' || c as int == 11 || c as int == 12
  }

  function SkipSpaces(s: string): string {
    if s != [] && IsSpace(s[0]) then SkipSpaces(s[1..]) else s
  }

  /** atoi: spaces, one sign, digits, and whatever follows is ignored. */
  function Atoi(s: string): int {
    var t := SkipSpaces(s);
    if t != [] && t[0] == '-' then -(Digits(t[1..], 0) as int)
    else if t != [] && t[0] == '+' then Digits(t[1..], 0)
    else Digits(t, 0)
  }

  lemma {:induction false} DigitsOfDec(n: nat, rest: string)
    requires rest == [] || !IsDigit(rest[0])
    ensures Digits(Dec(n) + rest, 0) == n
  {
    DigitsSplit(Dec(n), rest, 0);
    DigitsValue(n);
    assert Dec(n) + [] == Dec(n);
  }

  lemma {:induction false} DigitsSplit(a: string, rest: string, acc: nat)
    requires forall i :: 0 <= i < |a| ==> IsDigit(a[i])
    requires rest == [] || !IsDigit(rest[0])
    ensures Digits(a + rest, acc) == Digits(a, acc)
    decreases |a|
  {
    if a == [] {
      assert a + rest == rest;
    } else {
      assert (a + rest)[1..] == a[1..] + rest;
      DigitsSplit(a[1..], rest, acc * 10 + (a[0] - '0') as nat);
    }
  }

  lemma {:induction false} DigitsConcat(a: string, b: string, acc: nat)
    requires forall i :: 0 <= i < |a| ==> IsDigit(a[i])
    ensures Digits(a + b, acc) == Digits(b, Digits(a, acc))
    decreases |a|
  {
    if a == [] {
      assert a + b == b;
    } else {
      assert (a + b)[1..] == a[1..] + b;
      DigitsConcat(a[1..], b, acc * 10 + (a[0] - '0') as nat);
    }
  }

  lemma {:induction false} DigitsValue(n: nat)
    ensures Digits(Dec(n), 0) == n
  {
    if n >= 10 {
      DigitsValue(n / 10);
      DigitsConcat(Dec(n / 10), [Digit(n % 10)], 0);
      assert Digits([Digit(n % 10)], n / 10) == n / 10 * 10 + n % 10;
    }
  }

  /** Printing and reading a number back, whatever non-digit follows. */
  lemma AtoiOfShow(n: int, rest: string)
    requires rest == [] || !IsDigit(rest[0])
    ensures Atoi(Show(n) + rest) == n
  {
    if n < 0 {
      assert Show(n) + rest == "-" + (Dec(-n) + rest);
      SignedAtoi(Dec(-n) + rest);
      DigitsOfDec(-n, rest);
    } else {
      UnsignedAtoi(Dec(n), rest);
      DigitsOfDec(n, rest);
    }
  }

  lemma UnsignedAtoi(digits: string, rest: string)
    requires digits != [] && IsDigit(digits[0])
    ensures Atoi(digits + rest) == Digits(digits + rest, 0)
  {
    assert (digits + rest)[0] == digits[0];
  }

  lemma SignedAtoi(s: string)
    ensures Atoi("-" + s) == -(Digits(s, 0) as int)
  {
    assert ("-" + s)[1..] == s;
  }

  /** The value of place i, counted from the last digit. */
  function Place(n: nat, i: nat): nat {
    if i == 0 then n % 10 else Place(n / 10, i - 1)
  }

  /** A number is written in decimal: the digit of every place, the last place last,
      and no zero in front. */
  lemma {:induction false} DecIsDecimal(n: nat, i: nat)
    requires i < |Dec(n)|
    ensures Dec(n)[|Dec(n)| - 1 - i] as int == '0' as int + Place(n, i)
    ensures n > 0 ==> Dec(n)[0] != '0'
    ensures n < 10 ==> |Dec(n)| == 1
  {
    if n >= 10 {
      assert Dec(n) == Dec(n / 10) + [Digit(n % 10)];
      DecIsDecimal(n / 10, if i == 0 then 0 else i - 1);
    }
  }

  lemma {:induction false} Spaces(ws: string, s: string)
    requires forall i :: 0 <= i < |ws| ==> IsSpace(ws[i])
    requires s != [] && !IsSpace(s[0])
    ensures SkipSpaces(ws + s) == s
  {
    if ws == [] {
      assert ws + s == s;
    } else {
      assert (ws + s)[1..] == ws[1..] + s;
      Spaces(ws[1..], s);
    }
  }

  /** atoi also takes spaces and a plus sign in front, and without digits it is 0. */
  lemma AtoiReads(ws: string, n: nat, rest: string)
    requires forall i :: 0 <= i < |ws| ==> IsSpace(ws[i])
    requires rest == [] || !IsDigit(rest[0])
    ensures Atoi(ws + (Dec(n) + rest)) == n && Atoi(ws + ("+" + (Dec(n) + rest))) == n
    ensures Atoi(ws + ("-" + (Dec(n) + rest))) == -(n as int)
    ensures rest != [] && !IsSpace(rest[0]) && rest[0] != '-' && rest[0] != '+' ==> Atoi(ws + rest) == 0
  {
    var s := Dec(n) + rest;
    assert s[0] == Dec(n)[0];
    Spaces(ws, s);
    Spaces(ws, "+" + s);
    Spaces(ws, "-" + s);
    assert ("+" + s)[1..] == s && ("-" + s)[1..] == s;
    DigitsOfDec(n, rest);
    if rest != [] && !IsSpace(rest[0]) {
      Spaces(ws, rest);
    }
  }

  // ----- Searching -----

  /** pat stands in s at position i. */
  predicate At(s: string, pat: string, i: nat) {
    i + |pat| <= |s| && s[i..i + |pat|] == pat
  }

  lemma AtIndex(s: string, pat: string, i: nat, k: nat)
    requires k < |pat|
    ensures At(s, pat, i) ==> s[i + k] == pat[k]
  {
    if At(s, pat, i) {
      assert s[i..i + |pat|][k] == s[i + k];
    }
  }

  /** strstr: the first occurrence at or after i. */
  function FindFrom(s: string, pat: string, i: nat): (r: Option<nat>)
    requires i <= |s|
    ensures r.Some? ==> i <= r.value && At(s, pat, r.value) && forall j :: i <= j < r.value ==> !At(s, pat, j)
    ensures r == None ==> forall j :: i <= j <= |s| ==> !At(s, pat, j)
    decreases |s| - i
  {
    if At(s, pat, i) then Some(i) else if i == |s| then None else FindFrom(s, pat, i + 1)
  }

  function Find(s: string, pat: string): Option<nat> {
    FindFrom(s, pat, 0)
  }

  /** The first occurrence is the one that nothing precedes. */
  lemma FindFirst(s: string, pat: string, i: nat)
    requires At(s, pat, i) && forall j :: 0 <= j < i ==> !At(s, pat, j)
    ensures Find(s, pat) == Some(i)
  {
  }

  lemma AtSplit(head: string, pat: string, tail: string)
    ensures At(head + pat + tail, pat, |head|)
    ensures (head + pat + tail)[|head| + |pat|..] == tail
    ensures (head + pat + tail)[|head|..] == pat + tail
  {
  }

  // ----- The functions of json.c -----

  const QUOTE: string := "\""
  const TYPE_KEY: string := "\"type\":"
  const DATA_KEY: string := "\"data\":"

  /** Everything before the data part. */
  function Head(t: int): string {
    "{" + TYPE_KEY + (Show(t) + ",")
  }

  /** {"type":t,"data":data} */
  function FullMessage(t: int, data: string): string {
    Head(t) + DATA_KEY + (data + "}")
  }

  /** snprintf into a buffer of n bytes keeps n - 1 characters. */
  function Fit(s: string, n: nat): (r: string)
    requires 0 < n
    ensures r <= s && |r| == if |s| < n then |s| else n - 1
  {
    if |s| < n then s else s[..n - 1]
  }

  function CreateMessage(t: int, data: string): string {
    Fit(FullMessage(t, data), BUFFER_SIZE)
  }

  /** json_get_int; the search pattern lives in a buffer of 128 bytes. */
  function GetInt(json: string, key: string): Option<int> {
    var search := Fit(QUOTE + key + "\":", 128);
    match Find(json, search)
    case None => None
    case Some(i) => Some(Atoi(json[i + |search|..]))
  }

  function GetType(json: string): Option<int> {
    GetInt(json, "type")
  }

  function Pattern(key: string): string {
    QUOTE + key + "\":\""
  }

  /** json_get_string with room for outSize bytes. */
  function GetString(json: string, key: string, outSize: nat): Option<string>
    requires 0 < outSize
  {
    var search := Fit(Pattern(key), 128);
    match Find(json, search)
    case None => None
    case Some(i) => UpToQuote(json, i + |search|, outSize)
  }

  /** What stands before the next quote. */
  function UpToQuote(json: string, start: nat, outSize: nat): Option<string>
    requires 0 < outSize && start <= |json|
  {
    match FindFrom(json, QUOTE, start)
    case None => None
    case Some(end) => Some(Fit(json[start..end], outSize))
  }

  function GetDataString(json: string, key: string, outSize: nat): Option<string>
    requires 0 < outSize
  {
    match Find(json, DATA_KEY)
    case None => GetString(json, key, outSize)
    case Some(i) => GetString(json[i..], key, outSize)
  }

  // ----- Reading the type back -----

  lemma TypeSplit(t: int, data: string)
    ensures FullMessage(t, data) == "{" + TYPE_KEY + (Show(t) + ("," + DATA_KEY + (data + "}")))
  {
  }

  /** The type comes back whatever the data says, even if it mentions a type. */
  lemma TypeComesBack(t: int, data: string)
    ensures GetType(FullMessage(t, data)) == Some(t)
  {
    var json, rest := FullMessage(t, data), "," + DATA_KEY + (data + "}");
    TypeSplit(t, data);
    AtSplit("{", TYPE_KEY, Show(t) + rest);
    assert !At(json, TYPE_KEY, 0) by {
      assert json[0] == '{';
    }
    FindFirst(json, TYPE_KEY, 1);
    AtoiOfShow(t, rest);
    assert QUOTE + "type" + "\":" == TYPE_KEY;
  }

  // ----- Finding the data -----

  predicate QuoteFree(s: string) {
    forall i :: 0 <= i < |s| ==> s[i] != '"'
  }

  /** The only quotes before the data are those around "type". */
  lemma HeadQuotes(t: int, j: nat)
    requires j < |Head(t)|
    ensures |Head(t)| == 9 + |Show(t)|
    ensures Head(t)[j] == '"' ==> (j == 1 && Head(t)[2] == 't') || (j == 6 && Head(t)[7] == ':')
  {
    if 8 <= j < 8 + |Show(t)| {
      assert Head(t)[j] == Show(t)[j - 8];
    }
  }

  /** The data part starts where the envelope puts it. */
  lemma DataFound(t: int, data: string)
    ensures Find(FullMessage(t, data), DATA_KEY) == Some(|Head(t)|)
    ensures FullMessage(t, data)[|Head(t)|..] == DATA_KEY + (data + "}")
  {
    var json, head := FullMessage(t, data), Head(t);
    AtSplit(head, DATA_KEY, data + "}");
    forall j | 0 <= j < |head| ensures !At(json, DATA_KEY, j) {
      HeadQuotes(t, j);
      AtIndex(json, DATA_KEY, j, 0);
      AtIndex(json, DATA_KEY, j, 1);
    }
    FindFirst(json, DATA_KEY, |head|);
  }

  // ----- Reading a string back -----

  /** No occurrence of the pattern starts in front of the key itself. */
  lemma KeyNotEarlier(key: string, tail: string, j: nat)
    requires QuoteFree(key) && j < 8
    ensures !At(DATA_KEY + "{" + Pattern(key) + tail, Pattern(key), j)
  {
    var text, pat := DATA_KEY + "{" + Pattern(key) + tail, Pattern(key);
    assert pat[|key| + 1] == pat[|key| + 3] == '"' && pat[|key| + 2] == ':';
    assert forall i :: 1 <= i <= |key| ==> pat[i] == key[i - 1];
    AtIndex(text, pat, j, 0);
    AtIndex(text, pat, j, |key| + 1);
    if j == 0 && |key| >= 4 {
      AtIndex(text, pat, 0, 5);
      AtIndex(text, pat, 0, |key| + 3);
    } else if j == 5 && |key| >= 2 {
      AtIndex(text, pat, 5, 3);
      AtIndex(text, pat, 5, 2);
      AtIndex(text, pat, 5, 5);
    }
  }

  lemma GetStringFinds(key: string, v: string, rest: string, outSize: nat)
    requires QuoteFree(key) && QuoteFree(v) && |key| + 4 < 128 && 0 < outSize
    ensures GetString(DATA_KEY + "{" + Pattern(key) + (v + QUOTE + rest), key, outSize) == Some(Fit(v, outSize))
  {
    var pat, tail := Pattern(key), v + QUOTE + rest;
    var json := DATA_KEY + "{" + pat + tail;
    AtSplit(DATA_KEY + "{", pat, tail);
    forall j | 0 <= j < 8 ensures !At(json, pat, j) {
      KeyNotEarlier(key, tail, j);
    }
    FindFirst(json, pat, 8);
    StringAt(json, key, 8, v, rest, outSize);
  }

  lemma ValueEnds(json: string, start: nat, v: string, rest: string)
    requires start <= |json| && json[start..] == v + QUOTE + rest && QuoteFree(v)
    ensures FindFrom(json, QUOTE, start) == Some(start + |v|)
    ensures json[start..start + |v|] == v
  {
    assert forall i :: 0 <= i < |json| - start ==> json[start + i] == json[start..][i];
    forall j | start <= j < start + |v| ensures !At(json, QUOTE, j) {
      assert json[j] == v[j - start];
      AtIndex(json, QUOTE, j, 0);
    }
    assert At(json, QUOTE, start + |v|) by {
      assert json[start + |v|] == '"';
    }
    FindFromFirst(json, QUOTE, start, start + |v|);
  }

  lemma FindFromFirst(s: string, pat: string, i: nat, k: nat)
    requires i <= k && At(s, pat, k) && forall j :: i <= j < k ==> !At(s, pat, j)
    ensures FindFrom(s, pat, i) == Some(k)
  {
  }

  /** Where a message has no data, its fields are looked up in the message itself. */
  lemma FlatStringComesBack(t: int, key: string, v: string, rest: string, outSize: nat)
    requires QuoteFree(key) && QuoteFree(v) && 3 <= |key| && |key| + 4 < 128 && 0 < outSize
    requires Find(Head(t) + Pattern(key) + (v + QUOTE + rest), DATA_KEY) == None
    ensures GetDataString(Head(t) + Pattern(key) + (v + QUOTE + rest), key, outSize) == Some(Fit(v, outSize))
  {
    var json := Head(t) + Pattern(key) + (v + QUOTE + rest);
    FlatStringFound(t, key, v + QUOTE + rest);
    AtSplit(Head(t), Pattern(key), v + QUOTE + rest);
    StringAt(json, key, |Head(t)|, v, rest, outSize);
    NoData(json, key, outSize);
  }

  lemma NoData(json: string, key: string, outSize: nat)
    requires 0 < outSize && Find(json, DATA_KEY) == None
    ensures GetDataString(json, key, outSize) == GetString(json, key, outSize)
  {
  }

  lemma StringAt(json: string, key: string, i: nat, v: string, rest: string, outSize: nat)
    requires 0 < outSize && |Pattern(key)| < 128 && QuoteFree(v) && Find(json, Pattern(key)) == Some(i)
    requires i + |Pattern(key)| <= |json| && json[i + |Pattern(key)|..] == v + QUOTE + rest
    ensures GetString(json, key, outSize) == Some(Fit(v, outSize))
  {
    ReadUpToQuote(json, i + |Pattern(key)|, v, rest, outSize);
    StringBehind(json, key, i, outSize);
  }

  lemma ReadUpToQuote(json: string, start: nat, v: string, rest: string, outSize: nat)
    requires 0 < outSize && start <= |json| && json[start..] == v + QUOTE + rest && QuoteFree(v)
    ensures UpToQuote(json, start, outSize) == Some(Fit(v, outSize))
  {
    ValueEnds(json, start, v, rest);
  }

  lemma StringBehind(json: string, key: string, i: nat, outSize: nat)
    requires 0 < outSize && |Pattern(key)| < 128 && Find(json, Pattern(key)) == Some(i)
    ensures i + |Pattern(key)| <= |json|
    ensures GetString(json, key, outSize) == UpToQuote(json, i + |Pattern(key)|, outSize)
  {
  }

  lemma FlatStringFound(t: int, key: string, tail: string)
    requires QuoteFree(key) && 3 <= |key|
    ensures Find(Head(t) + Pattern(key) + tail, Pattern(key)) == Some(|Head(t)|)
  {
    AtSplit(Head(t), Pattern(key), tail);
    forall j | 0 <= j < |Head(t)| ensures !At(Head(t) + Pattern(key) + tail, Pattern(key), j) {
      NotInHead(t, key, tail, j);
    }
    FindFirst(Head(t) + Pattern(key) + tail, Pattern(key), |Head(t)|);
  }

  lemma NotInHead(t: int, key: string, tail: string, j: nat)
    requires QuoteFree(key) && 3 <= |key| && j < |Head(t)|
    ensures !At(Head(t) + Pattern(key) + tail, Pattern(key), j)
  {
    var head, pat := Head(t), Pattern(key);
    PatternChars(key);
    HeadQuotes(t, j);
    AtIndex(head + pat + tail, pat, j, 0);
    if head[j] == '"' && j == 1 {
      NotTheType(t, key, tail);
    } else if head[j] == '"' && j == 6 {
      NotTheNumber(t, key, tail);
    }
  }

  lemma PatternChars(key: string)
    requires QuoteFree(key)
    ensures var pat := Pattern(key);
            && |pat| == |key| + 4 && pat[0] == '"' && pat[|key| + 1] == '"' && pat[|key| + 3] == '"'
            && forall i :: 1 <= i <= |key| ==> pat[i] == key[i - 1] && pat[i] != '"'
  {
  }

  lemma NotTheType(t: int, key: string, tail: string)
    requires QuoteFree(key) && 3 <= |key|
    ensures !At(Head(t) + Pattern(key) + tail, Pattern(key), 1)
  {
    var json, pat := Head(t) + Pattern(key) + tail, Pattern(key);
    PatternChars(key);
    TypeChars(t, Pattern(key) + tail);
    assert json == Head(t) + (Pattern(key) + tail);
    AtIndex(json, pat, 1, if |key| == 3 then 4 else if |key| == 4 then 7 else 5);
  }

  lemma TypeChars(t: int, rest: string)
    ensures var json := Head(t) + rest;
            9 <= |Head(t)| - 1 && json[5] == 'e' && json[6] == '"' && json[8] != '"'
  {
    assert Show(t) != [] && Head(t)[8] == Show(t)[0];
  }

  lemma NotTheNumber(t: int, key: string, tail: string)
    requires QuoteFree(key) && 3 <= |key|
    ensures !At(Head(t) + Pattern(key) + tail, Pattern(key), 6)
  {
    var head, pat := Head(t), Pattern(key);
    var json := head + pat + tail;
    PatternChars(key);
    assert json[|head|] == pat[0] && json[|head| + 2] == pat[2];
    if 7 + |key| < |head| {
      HeadQuotes(t, 7 + |key|);
      AtIndex(json, pat, 6, |key| + 1);
    } else if 7 + |key| == |head| {
      AtIndex(json, pat, 6, |key| + 3);
    } else {
      AtIndex(json, pat, 6, |head| - 6);
    }
  }

  lemma DataText(pat: string, v: string, rest: string)
    ensures DATA_KEY + (("{" + pat + v + QUOTE + rest) + "}") == DATA_KEY + "{" + pat + (v + QUOTE + (rest + "}"))
  {
  }

  /** A quote-free value in the first field of the data comes back, cut to the
      room there is for it. */
  lemma StringComesBack(t: int, key: string, v: string, rest: string, outSize: nat)
    requires QuoteFree(key) && QuoteFree(v) && |key| + 4 < 128 && 0 < outSize
    ensures var data := "{" + Pattern(key) + v + QUOTE + rest;
            GetDataString(FullMessage(t, data), key, outSize) == Some(Fit(v, outSize))
  {
    DataFound(t, "{" + Pattern(key) + v + QUOTE + rest);
    DataText(Pattern(key), v, rest);
    GetStringFinds(key, v, rest + "}", outSize);
  }
}
