// base64.c: the encoders and the tolerant decoder for the alphabets of sections 4 and 5
// of RFC 4648. A byte is a number below 256; text is a string.

module Base64 {
  import opened Wrappers
  import opened Machine

  type Digit = d: int | 0 <= d < 64

  datatype Charset = STANDARD | URL

  // The 64 entries of the encoding tables, and the pad that follows them.
  function Letter(d: Digit, charset: Charset): char {
    if d < 26 then 'A' + d as char
    else if d < 52 then 'a' + (d - 26) as char
    else if d < 62 then '0' + (d - 52) as char
    else if d == 62 then (if charset.STANDARD? then '+' else '-')
    else if charset.STANDARD? then '/' else '_'
  }

  function Padding(charset: Charset): char {
    if charset.STANDARD? then '=' else '.'
  }

  const INVALID := -1
  const SKIP := -2
  const PAD := -3

  // The 128 entries of the reverse tables.
  function Reverse(c: char, charset: Charset): (r: int)
    requires c as int < 128
    ensures -3 <= r < 64
  {
    if 'A' <= c <= 'Z' then (c - 'A') as int
    else if 'a' <= c <= 'z' then (c - 'a') as int + 26
    else if '0' <= c <= '9' then (c - '0') as int + 52
    else if c == Letter(62, charset) then 62
    else if c == Letter(63, charset) then 63
    else if c == Padding(charset) then PAD
    else if 1 <= c as int <= 32 then SKIP
    else INVALID
  }

  lemma ReverseLetter(d: Digit, charset: Charset)
    ensures 0 < Letter(d, charset) as int < 128 && Reverse(Letter(d, charset), charset) == d
  {
  }

  // The alphabets, in the order of their digits, and their pads.
  lemma Alphabet(d: Digit, charset: Charset)
    ensures d < 26 ==> Letter(d, charset) == "ABCDEFGHIJKLMNOPQRSTUVWXYZ"[d]
    ensures 26 <= d < 52 ==> Letter(d, charset) == "abcdefghijklmnopqrstuvwxyz"[d - 26]
    ensures 52 <= d < 62 ==> Letter(d, charset) == "0123456789"[d - 52]
    ensures Letter(62, STANDARD) == '+' && Letter(63, STANDARD) == '/' && Padding(STANDARD) == '='
    ensures Letter(62, URL) == '-' && Letter(63, URL) == '_' && Padding(URL) == '.'
  {
  }

  // A character is read as the digit it is the letter of; white space and control characters
  // are skipped, and nothing else is.
  lemma ReverseTable(c: char, d: Digit, charset: Charset)
    requires c as int < 128
    ensures Reverse(c, charset) == d <==> c == Letter(d, charset)
    ensures Reverse(c, charset) == PAD <==> c == Padding(charset)
    ensures Reverse(c, charset) == SKIP <==> 1 <= c as int <= 32
  {
  }

  // ---- the encoding as digits ----

  // The four digits of the first three bytes ...
  function Digit1(b: seq<Byte>): Digit
    requires |b| >= 1
  {
    b[0] as int / 4
  }

  function Digit2(b: seq<Byte>): Digit
    requires |b| >= 2
  {
    b[0] as int % 4 * 16 + b[1] as int / 16
  }

  function Digit3(b: seq<Byte>): Digit
    requires |b| >= 3
  {
    b[1] as int % 16 * 4 + b[2] as int / 64
  }

  function Digit4(b: seq<Byte>): Digit
    requires |b| >= 3
  {
    b[2] as int % 64
  }

  // ... and the last digit when only one or two are left.
  function Digit2Last(b: seq<Byte>): Digit
    requires |b| == 1
  {
    b[0] as int % 4 * 16
  }

  function Digit3Last(b: seq<Byte>): Digit
    requires |b| == 2
  {
    b[1] as int % 16 * 4
  }

  // The bytes of the first digits.
  function Byte1(d: seq<Digit>): Byte
    requires |d| >= 2
  {
    d[0] as int * 4 + d[1] as int / 16
  }

  function Byte2(d: seq<Digit>): Byte
    requires |d| >= 3
  {
    d[1] as int % 16 * 16 + d[2] as int / 4
  }

  function Byte3(d: seq<Digit>): Byte
    requires |d| >= 4
  {
    d[2] as int % 4 * 64 + d[3] as int
  }

  // The bits of a last digit that no byte takes are zero.
  predicate NoRest(d: seq<Digit>) {
    (|d| == 2 && d[1] % 16 == 0) || (|d| == 3 && d[2] % 4 == 0)
  }

  lemma BytesBack(b: seq<Byte>, d: seq<Digit>)
    requires |b| >= 3 && |d| >= 4 && d[0] == Digit1(b) && d[1] == Digit2(b) && d[2] == Digit3(b) && d[3] == Digit4(b)
    ensures Byte1(d) == b[0] && Byte2(d) == b[1] && Byte3(d) == b[2]
  {
  }

  lemma BytesBackFew(b: seq<Byte>, d: seq<Digit>)
    requires (|b| == 1 && d == [Digit1(b), Digit2Last(b)]) || (|b| == 2 && d == [Digit1(b), Digit2(b), Digit3Last(b)])
    ensures NoRest(d) && Byte1(d) == b[0] && (|b| == 2 ==> Byte2(d) == b[1])
  {
  }

  lemma DigitsBack(d: seq<Digit>, b: seq<Byte>)
    requires |d| >= 4 && |b| >= 3 && b[0] == Byte1(d) && b[1] == Byte2(d) && b[2] == Byte3(d)
    ensures Digit1(b) == d[0] && Digit2(b) == d[1] && Digit3(b) == d[2] && Digit4(b) == d[3]
  {
  }

  lemma DigitsBackFew(d: seq<Digit>, b: seq<Byte>)
    requires NoRest(d) && ((|d| == 2 && b == [Byte1(d)]) || (|d| == 3 && b == [Byte1(d), Byte2(d)]))
    ensures Digit1(b) == d[0] && if |d| == 2 then Digit2Last(b) == d[1] else Digit2(b) == d[1] && Digit3Last(b) == d[2]
  {
  }

  function Digits(b: seq<Byte>): seq<Digit> {
    if |b| == 0 then []
    else if |b| == 1 then [Digit1(b), Digit2Last(b)]
    else if |b| == 2 then [Digit1(b), Digit2(b), Digit3Last(b)]
    else [Digit1(b), Digit2(b), Digit3(b), Digit4(b)] + Digits(b[3..])
  }

  lemma {:induction false} DigitsLength(b: seq<Byte>)
    ensures |Digits(b)| == |b| / 3 * 4 + if |b| % 3 == 0 then 0 else |b| % 3 + 1
  {
    if |b| >= 3 {
      DigitsLength(b[3..]);
    }
  }

  function Letters(d: seq<Digit>, charset: Charset): (s: string)
    ensures |s| == |d| && forall k :: 0 <= k < |d| ==> s[k] == Letter(d[k], charset)
  {
    seq(|d|, k requires 0 <= k < |d| => Letter(d[k], charset))
  }

  // The octets that digits complete, and what has been begun of the next one.
  function Octets(d: seq<Digit>): seq<Byte> {
    if |d| < 2 then []
    else if |d| == 2 then [Byte1(d)]
    else if |d| == 3 then [Byte1(d), Byte2(d)]
    else [Byte1(d), Byte2(d), Byte3(d)] + Octets(d[4..])
  }

  function Begun(d: seq<Digit>): Byte {
    if |d| == 0 then 0
    else if |d| == 1 then d[0] * 4
    else if |d| == 2 then d[1] % 16 * 16
    else if |d| == 3 then d[2] % 4 * 64
    else Begun(d[4..])
  }

  // Digits that an encoder can have produced.
  predicate Canonical(d: seq<Digit>) {
    if |d| >= 4 then Canonical(d[4..]) else |d| == 0 || NoRest(d)
  }

  // The decoder's test at the end of the digits.
  lemma {:induction false} CanonicalTest(d: seq<Digit>)
    ensures Canonical(d) <==> |d| % 4 != 1 && Begun(d) == 0
  {
    if |d| >= 4 {
      CanonicalTest(d[4..]);
      assert |d| % 4 == |d[4..]| % 4;
    }
  }

  lemma Prefixed<T>(a: seq<T>, b: seq<T>)
    ensures (a + b)[|a|..] == b && (a + b)[..|a|] == a
  {
  }

  lemma {:induction false} OctetsOfDigits(b: seq<Byte>)
    ensures Octets(Digits(b)) == b && Canonical(Digits(b))
  {
    var d := Digits(b);
    if |b| >= 3 {
      OctetsOfDigits(b[3..]);
      Prefixed([Digit1(b), Digit2(b), Digit3(b), Digit4(b)], Digits(b[3..]));
      BytesBack(b, d);
      hide Digit1, Digit2, Digit3, Digit4, Byte1, Byte2, Byte3, NoRest;
      assert Octets(d) == [b[0], b[1], b[2]] + b[3..];
    } else if |b| > 0 {
      BytesBackFew(b, d);
      hide Digit1, Digit2, Digit2Last, Digit3Last, Byte1, Byte2, NoRest;
      assert Octets(d) == if |b| == 1 then [b[0]] else [b[0], b[1]];
    }
  }

  lemma {:induction false} DigitsOfOctets(d: seq<Digit>)
    requires Canonical(d)
    ensures Digits(Octets(d)) == d
  {
    var b := Octets(d);
    if |d| >= 4 {
      DigitsOfOctets(d[4..]);
      Prefixed([Byte1(d), Byte2(d), Byte3(d)], Octets(d[4..]));
      DigitsBack(d, b);
      hide Digit1, Digit2, Digit3, Digit4, Byte1, Byte2, Byte3, NoRest;
      assert Digits(b) == [d[0], d[1], d[2], d[3]] + d[4..];
    } else if |d| > 1 {
      DigitsBackFew(d, b);
      hide Digit1, Digit2, Digit2Last, Digit3Last, Byte1, Byte2, NoRest;
      assert Digits(b) == if |d| == 2 then [d[0], d[1]] else [d[0], d[1], d[2]];
    }
  }

  // What the decoder's switch does with one more digit.
  ghost predicate Stepped(d: seq<Digit>, c: Digit) {
    var g, e := |d| % 4, d + [c];
    && |Octets(d)| == |d| / 4 * 3 + (if g == 0 then 0 else g - 1)
    && (g == 0 ==> Octets(e) == Octets(d) && Begun(e) == c * 4)
    && (g == 1 ==>
      Begun(d) % 4 == 0 && Begun(d) + c / 16 < 256 && Octets(e) == Octets(d) + [Begun(d) + c / 16]
        && Begun(e) == c % 16 * 16)
    && (g == 2 ==>
      Begun(d) % 16 == 0 && Begun(d) + c / 4 < 256 && Octets(e) == Octets(d) + [Begun(d) + c / 4]
        && Begun(e) == c % 4 * 64)
    && (g == 3 ==> Begun(d) % 64 == 0 && Begun(d) + c < 256 && Octets(e) == Octets(d) + [Begun(d) + c] && Begun(e) == 0)
  }

  lemma {:induction false} OctetsStep(d: seq<Digit>, c: Digit)
    ensures Stepped(d, c)
  {
    if |d| >= 4 {
      OctetsStep(d[4..], c);
      StepLater(d, c);
    } else if |d| == 3 {
      assert (d + [c])[4..] == [];
    }
  }

  lemma SameBytes(d: seq<Digit>, e: seq<Digit>)
    requires |d| >= 4 && d <= e
    ensures Byte1(d) == Byte1(e) && Byte2(d) == Byte2(e) && Byte3(d) == Byte3(e)
  {
  }

  lemma StepLater(d: seq<Digit>, c: Digit)
    requires |d| >= 4 && Stepped(d[4..], c)
    ensures Stepped(d, c)
  {
    hide Byte1, Byte2, Byte3;
    var first := [Byte1(d), Byte2(d), Byte3(d)];
    var e := d + [c];
    assert e[4..] == d[4..] + [c];
    SameBytes(d, e);
    assert Octets(d) == first + Octets(d[4..]) && Octets(e) == first + Octets(e[4..]);
    assert Begun(d) == Begun(d[4..]) && Begun(e) == Begun(e[4..]);
  }

  // ---- li_to_base64_no_padding and li_to_base64 ----

  lemma SameDigits(a: seq<Byte>, b: seq<Byte>)
    requires |a| >= 3 && a <= b
    ensures Digit1(a) == Digit1(b) && Digit2(a) == Digit2(b) && Digit3(a) == Digit3(b) && Digit4(a) == Digit4(b)
  {
  }

  lemma {:induction false} DigitsAppend(a: seq<Byte>, b: seq<Byte>)
    requires |a| % 3 == 0
    ensures Digits(a + b) == Digits(a) + Digits(b)
  {
    if |a| == 0 {
      assert a + b == b;
    } else {
      SameDigits(a, a + b);
      hide Digit1, Digit2, Digit2Last, Digit3, Digit3Last, Digit4;
      assert (a + b)[3..] == a[3..] + b;
      DigitsAppend(a[3..], b);
    }
  }

  lemma Shifted(v: int, q: int, r: int)
    requires v == 64 * q + r && 0 <= r < 64
    ensures v % 64 == r && v / 64 == q
  {
  }

  lemma Halves(x: int, k: int)
    requires k == 4 || k == 16 || k == 64
    ensures x == x / k * k + x % k
  {
  }

  // The digits as they are shifted out of the packed bytes.
  lemma Packed3(b: seq<Byte>)
    requires |b| == 3
    ensures var v := b[0] as int * 65536 + b[1] as int * 256 + b[2] as int;
            v % 64 == Digit4(b) && v / 64 % 64 == Digit3(b) && v / 64 / 64 % 64 == Digit2(b)
              && v / 64 / 64 / 64 % 64 == Digit1(b)
  {
    var x: int, y: int, z: int := b[0], b[1], b[2];
    Halves(z, 64);
    Halves(y, 16);
    Halves(x, 4);
    Shifted(x * 65536 + y * 256 + z, x * 1024 + y * 4 + z / 64, Digit4(b));
    Shifted(x * 1024 + y * 4 + z / 64, x * 16 + y / 16, Digit3(b));
    Shifted(x * 16 + y / 16, x / 4, Digit2(b));
    Shifted(x / 4, 0, Digit1(b));
  }

  lemma Packed2(b: seq<Byte>)
    requires |b| == 2
    ensures var v := b[0] as int * 1024 + b[1] as int * 4;
            v % 64 == Digit3Last(b) && v / 64 % 64 == Digit2(b) && v / 64 / 64 % 64 == Digit1(b)
  {
    var x: int, y: int := b[0], b[1];
    Halves(y, 16);
    Halves(x, 4);
    Shifted(x * 1024 + y * 4, x * 16 + y / 16, Digit3Last(b));
    Shifted(x * 16 + y / 16, x / 4, Digit2(b));
    Shifted(x / 4, 0, Digit1(b));
  }

  lemma Packed1(b: seq<Byte>)
    requires |b| == 1
    ensures b[0] as int * 16 % 64 == Digit2Last(b) && b[0] as int * 16 / 64 % 64 == Digit1(b)
  {
    var x: int := b[0];
    Halves(x, 4);
    Shifted(x * 16, x / 4, Digit2Last(b));
    Shifted(x / 4, 0, Digit1(b));
  }

  // Three bytes and their four digits are the same 24 bits, the first bits first; two bytes
  // are followed by two zero bits, and one byte by four.
  lemma SameBits(b: seq<Byte>)
    ensures |b| >= 3 ==> b[0] as int * 65536 + b[1] as int * 256 + b[2] as int ==
                         Digit1(b) as int * 262144 + Digit2(b) as int * 4096 + Digit3(b) as int * 64 + Digit4(b) as int
    ensures |b| == 2 ==> (b[0] as int * 256 + b[1] as int) * 4 ==
                         Digit1(b) as int * 4096 + Digit2(b) as int * 64 + Digit3Last(b) as int
    ensures |b| == 1 ==> b[0] as int * 16 == Digit1(b) as int * 64 + Digit2Last(b) as int
  {
    if |b| > 0 {
      Halves(b[0], 4);
    }
    if |b| > 1 {
      Halves(b[1], 16);
    }
    if |b| > 2 {
      Halves(b[2], 64);
    }
  }

  function NoPadding(b: seq<Byte>, charset: Charset): string {
    Letters(Digits(b), charset)
  }

  lemma LettersAppend(a: seq<Digit>, b: seq<Digit>, charset: Charset)
    ensures Letters(a + b, charset) == Letters(a, charset) + Letters(b, charset)
  {
  }

  lemma NoPaddingAppend(b: seq<Byte>, t: nat, m: nat, charset: Charset)
    requires 3 * t <= m <= |b|
    ensures NoPadding(b[..m], charset) == NoPadding(b[..3 * t], charset) + NoPadding(b[3 * t..m], charset)
  {
    assert b[..m] == b[..3 * t] + b[3 * t..m];
    DigitsAppend(b[..3 * t], b[3 * t..m]);
    LettersAppend(Digits(b[..3 * t]), Digits(b[3 * t..m]), charset);
  }

  // The length the encoder asks for.
  function Required(n: nat): nat {
    4 * (n / 3) + if n % 3 == 0 then 0 else 1 + n % 3
  }

  // x was written at position p, and nothing else.
  ghost predicate Spliced(before: string, p: nat, x: string, after: string) {
    p + |x| <= |before| && after == before[..p] + x + before[p + |x|..]
  }

  // a was written at the start, and nothing else.
  ghost predicate StartsWith(before: string, a: string, after: string) {
    |a| <= |before| && after == a + before[|a|..]
  }

  lemma NothingWritten(before: string)
    ensures StartsWith(before, [], before)
  {
  }

  // What is written next to the encoding so far.
  lemma WrittenNext(before: string, a: string, x: string, now: string, after: string)
    requires StartsWith(before, a, now) && Spliced(now, |a|, x, after)
    ensures StartsWith(before, a + x, after)
  {
  }

  // Three bytes at once.
  method EncodeTriple(out: array<char>, outPos: nat, b: seq<Byte>, charset: Charset)
    requires outPos + 4 <= out.Length && |b| == 3
    modifies out
    ensures |NoPadding(b, charset)| == 4 && Spliced(old(out[..]), outPos, NoPadding(b, charset), out[..])
  {
    Packed3(b);
    DigitsOfThree(b);
    hide Digits, Digit1, Digit2, Digit3, Digit4, Letter;
    ghost var before := out[..];
    var v := b[0] as int * 65536 + b[1] as int * 256 + b[2] as int;
    out[outPos + 3] := Letter(v % 64, charset);
    v := v / 64;
    out[outPos + 2] := Letter(v % 64, charset);
    v := v / 64;
    out[outPos + 1] := Letter(v % 64, charset);
    v := v / 64;
    out[outPos] := Letter(v % 64, charset);
    assert out[..] == before[..outPos] + NoPadding(b, charset) + before[outPos + 4..];
  }

  lemma DigitsOfThree(b: seq<Byte>)
    requires |b| == 3
    ensures Digits(b) == [Digit1(b), Digit2(b), Digit3(b), Digit4(b)]
  {
    assert Digits(b[3..]) == [];
  }

  // One or two bytes at the end.
  method EncodeRest(out: array<char>, outPos: nat, rest: seq<Byte>, charset: Charset) returns (end: nat)
    requires 1 <= |rest| <= 2 && outPos + |rest| + 1 <= out.Length
    modifies out
    ensures end == outPos + |rest| + 1 == outPos + |NoPadding(rest, charset)|
    ensures Spliced(old(out[..]), outPos, NoPadding(rest, charset), out[..])
  {
    ghost var before := out[..];
    if |rest| == 1 {
      Packed1(rest);
      hide Digit1, Digit2Last, Letter;
      var v := rest[0] as int * 16;
      out[outPos + 1] := Letter(v % 64, charset);
      v := v / 64;
      out[outPos] := Letter(v % 64, charset);
      end := outPos + 2;
      assert Digits(rest) == [Digit1(rest), Digit2Last(rest)];
    } else {
      Packed2(rest);
      hide Digit1, Digit2, Digit3Last, Letter;
      var v := rest[0] as int * 1024 + rest[1] as int * 4;
      out[outPos + 2] := Letter(v % 64, charset);
      v := v / 64;
      out[outPos + 1] := Letter(v % 64, charset);
      v := v / 64;
      out[outPos] := Letter(v % 64, charset);
      end := outPos + 3;
      assert Digits(rest) == [Digit1(rest), Digit2(rest), Digit3Last(rest)];
    }
    hide Digits, Letters;
    assert out[..] == before[..outPos] + NoPadding(rest, charset) + before[end..];
  }

  // The encoding starts at offset from of out; nothing else is written.
  method ToBase64NoPadding(out: array<char>, outLength: nat, b: seq<Byte>, charset: Charset) returns (outPos: nat)
    requires Required(|b|) <= outLength <= out.Length
    modifies out
    ensures outPos == |NoPadding(b, charset)| == Required(|b|)
      && StartsWith(old(out[..]), NoPadding(b, charset), out[..])
  {
    hide NoPadding, Required, StartsWith, Spliced;
    NoPaddingLength(b, charset);
    ghost var before, t := out[..], 0;
    outPos := 0;
    var i := 2;
    NothingEncoded(charset);
    NothingWritten(before);
    assert b[..0] == [];
    while i < |b|
      invariant 0 <= t && i == 3 * t + 2 && i - 2 <= |b| && outPos == 4 * t <= out.Length
      invariant |NoPadding(b[..3 * t], charset)| == outPos
        && StartsWith(before, NoPadding(b[..3 * t], charset), out[..])
    {
      RoomForTriple(|b|, t);
      ghost var now := out[..];
      EncodeTriple(out, outPos, b[i - 2..i + 1], charset);
      NoPaddingAppend(b, t, 3 * t + 3, charset);
      WrittenNext(before, NoPadding(b[..3 * t], charset), NoPadding(b[i - 2..i + 1], charset), now, out[..]);
      outPos := outPos + 4;
      i := i + 3;
      t := t + 1;
    }
    RoomForRest(|b|, t);
    if i - 2 < |b| {
      var rest := b[i - 2..];
      assert rest == b[3 * t..|b|];
      NoPaddingAppend(b, t, |b|, charset);
      ghost var now := out[..];
      outPos := EncodeRest(out, outPos, rest, charset);
      WrittenNext(before, NoPadding(b[..3 * t], charset), NoPadding(rest, charset), now, out[..]);
    }
    assert b[..|b|] == b;
  }

  lemma RoomForTriple(n: nat, t: nat)
    requires 3 * t + 2 < n
    ensures 4 * t + 4 <= Required(n)
  {
  }

  lemma RoomForRest(n: nat, t: nat)
    requires 3 * t <= n <= 3 * t + 2
    ensures Required(n) == 4 * t + if n == 3 * t then 0 else n - 3 * t + 1
  {
  }

  lemma NothingEncoded(charset: Charset)
    ensures NoPadding([], charset) == []
  {
  }

  // li_to_base64: the pad characters follow.
  function Padded(b: seq<Byte>, charset: Charset): string {
    NoPadding(b, charset) + Pads(PadCount(|b|), charset)
  }

  function PadCount(n: nat): nat {
    if n % 3 == 0 then 0 else 3 - n % 3
  }

  function Pads(n: nat, charset: Charset): (s: string)
    ensures |s| == n
  {
    seq(n, _ => Padding(charset))
  }

  method ToBase64(out: array<char>, outLength: nat, b: seq<Byte>, charset: Charset) returns (outPos: nat)
    requires |Padded(b, charset)| <= outLength <= out.Length
    modifies out
    ensures outPos == |Padded(b, charset)| && StartsWith(old(out[..]), Padded(b, charset), out[..])
  {
    hide NoPadding, Pads, PadCount, Required, StartsWith, Spliced;
    var padding := PadCount(|b|);
    NoPaddingLength(b, charset);
    ghost var before := out[..];
    outPos := ToBase64NoPadding(out, outLength - padding, b, charset);
    ghost var start, total, done := outPos, padding, NoPadding(b, charset);
    PadsStep(0, charset);
    while padding > 0
      invariant outPos + padding == start + total && start + total <= out.Length
      invariant start <= outPos && |done| == outPos && done == NoPadding(b, charset) + Pads(outPos - start, charset)
      invariant StartsWith(before, done, out[..])
    {
      ghost var now := out[..];
      WriteOne(out, outPos, Padding(charset));
      WrittenNext(before, done, [Padding(charset)], now, out[..]);
      MorePads(NoPadding(b, charset), outPos - start, charset);
      done := done + [Padding(charset)];
      padding, outPos := padding - 1, outPos + 1;
    }
  }

  method WriteOne(out: array<char>, p: nat, c: char)
    requires p < out.Length
    modifies out
    ensures Spliced(old(out[..]), p, [c], out[..])
  {
    out[p] := c;
  }

  lemma MorePads(a: string, n: nat, charset: Charset)
    ensures a + Pads(n + 1, charset) == a + Pads(n, charset) + [Padding(charset)]
  {
    PadsStep(n, charset);
  }

  lemma PadsStep(n: nat, charset: Charset)
    ensures Pads(n + 1, charset) == Pads(n, charset) + [Padding(charset)]
    ensures Pads(0, charset) == []
  {
  }

  lemma NoPaddingLength(b: seq<Byte>, charset: Charset)
    ensures |NoPadding(b, charset)| == Required(|b|)
  {
    DigitsLength(b);
  }

  // ---- buffer_append_base64_decode ----

  datatype Stop = AtEnd | AtPad | Bad

  datatype Scan = Scan(digits: seq<Digit>, stop: Stop)

  // The digits of a text up to its first zero or pad, or invalid character, without
  // the characters that are skipped.
  function ScanText(s: string, charset: Charset): Scan {
    if s == "" || s[0] == '\0' then Scan([], AtEnd)
    else if s[0] as int >= 128 then Scan([], Bad)
    else
      var r := Reverse(s[0], charset);
      if r == PAD then Scan([], AtPad)
      else if r == SKIP then ScanText(s[1..], charset)
      else if r < 0 then Scan([], Bad)
      else
        var rest := ScanText(s[1..], charset);
        Scan([r] + rest.digits, rest.stop)
  }

  // The text is an encoding of b, possibly with pads, skipped characters and more text
  // after a zero or pad.
  ghost predicate DecodesTo(s: string, charset: Charset, b: seq<Byte>) {
    var scan := ScanText(s, charset);
    scan.stop != Bad && (scan.stop == AtPad ==> |scan.digits| % 4 >= 2) && scan.digits == Digits(b)
  }

  lemma DecodesToOne(s: string, charset: Charset, b: seq<Byte>, b': seq<Byte>)
    requires DecodesTo(s, charset, b) && DecodesTo(s, charset, b')
    ensures b == b'
  {
    OctetsOfDigits(b);
    OctetsOfDigits(b');
  }

  // The decoder's variables after the given digits.
  ghost predicate Decoded(result: seq<int>, outPos: nat, group: nat, d: seq<Digit>) {
    && group == |d| % 4 && outPos == |Octets(d)| < |result| && result[..outPos] == Octets(d)
    && (group > 0 ==> result[outPos] == Begun(d))
  }

  // What is still to be scanned completes the scan of the whole text.
  ghost predicate Scanned(s: string, charset: Charset, d: seq<Digit>, rest: Scan) {
    ScanText(s, charset) == Scan(d + rest.digits, rest.stop)
  }

  // Every position the switch writes lies in the reserved space.
  lemma Reserved(d: seq<Digit>, n: nat)
    requires |d| < n
    ensures |Octets(d)| + 1 < 3 * (n / 4) + 3
  {
    OctetsLength(d);
  }

  lemma {:induction false} OctetsLength(d: seq<Digit>)
    ensures |Octets(d)| == |d| / 4 * 3 + if |d| % 4 == 0 then 0 else |d| % 4 - 1
  {
    if |d| >= 4 {
      OctetsLength(d[4..]);
    }
  }

  // What "or" adds to the octet that was begun, and what begins the next one.
  function Completion(group: nat, ch: Digit): nat {
    if group == 1 then ch as int / 16 else if group == 2 then ch as int / 4 else ch
  }

  function Beginning(group: nat, ch: Digit): nat {
    if group == 1 then ch as int % 16 * 16 else ch as int % 4 * 64
  }

  lemma DecodedBounds(r: seq<int>, outPos: nat, group: nat, d: seq<Digit>, n: nat)
    requires Decoded(r, outPos, group, d) && |d| < n && |r| == 3 * (n / 4) + 3
    ensures outPos + 1 < |r| && group < 4
  {
    Reserved(d, n);
  }

  lemma DecodedFirst(r: seq<int>, r': seq<int>, outPos: nat, d: seq<Digit>, ch: Digit)
    requires Decoded(r, outPos, 0, d) && |r'| == |r| && r'[..outPos] == r[..outPos] && r'[outPos] == ch as int * 4
    ensures Decoded(r', outPos, 1, d + [ch])
  {
    OctetsStep(d, ch);
    hide Octets, Begun;
  }

  lemma DecodedNext(r: seq<int>, r': seq<int>, outPos: nat, group: nat, d: seq<Digit>, ch: Digit)
    requires Decoded(r, outPos, group, d) && 0 < group < 4 && outPos + 1 < |r| == |r'|
    requires r'[..outPos] == r[..outPos] && r'[outPos] == r[outPos] + Completion(group, ch)
    requires group < 3 ==> r'[outPos + 1] == Beginning(group, ch)
    ensures Decoded(r', outPos + 1, (group + 1) % 4, d + [ch])
  {
    OctetsStep(d, ch);
    hide Octets, Begun;
    assert r'[..outPos + 1] == r[..outPos] + [r'[outPos]];
  }

  // The switch over group, with one more digit; the bits are disjoint, so "or" is addition.
  method TakeDigit(result: array<int>, outPos: nat, group: nat, ghost d: seq<Digit>, ch: Digit, ghost n: nat)
    returns (outPos': nat, group': nat)
    requires Decoded(result[..], outPos, group, d) && |d| < n && result.Length == 3 * (n / 4) + 3
    modifies result
    ensures Decoded(result[..], outPos', group', d + [ch])
  {
    DecodedBounds(result[..], outPos, group, d, n);
    hide Decoded, Completion, Beginning;
    ghost var r := result[..];
    outPos', group' := outPos, (group + 1) % 4;
    if group == 0 {
      result[outPos] := ch as int * 4;
      assert result[..][..outPos] == r[..outPos];
      DecodedFirst(r, result[..], outPos, d, ch);
    } else {
      result[outPos] := result[outPos] + Completion(group, ch);
      outPos' := outPos + 1;
      if group < 3 {
        result[outPos'] := Beginning(group, ch);
      }
      assert result[..][..outPos] == r[..outPos];
      DecodedNext(r, result[..], outPos, group, d, ch);
    }
  }

  lemma ScannedStep(s: string, charset: Charset, d: seq<Digit>, i: nat)
    requires i < |s| && Scanned(s, charset, d, ScanText(s[i..], charset))
    ensures s[i] == '\0' ==> Scanned(s, charset, d, Scan([], AtEnd))
    ensures s[i] as int >= 128 ==> Scanned(s, charset, d, Scan([], Bad))
    ensures s[i] != '\0' && s[i] as int < 128 ==>
      var r := Reverse(s[i], charset);
      && (r == PAD ==> Scanned(s, charset, d, Scan([], AtPad)))
      && (r == SKIP ==> Scanned(s, charset, d, ScanText(s[i + 1..], charset)))
      && (r == INVALID ==> Scanned(s, charset, d, Scan([], Bad)))
      && (r >= 0 ==> Scanned(s, charset, d + [r], ScanText(s[i + 1..], charset)))
  {
    assert s[i..][1..] == s[i + 1..];
    if s[i] != '\0' && s[i] as int < 128 && Reverse(s[i], charset) >= 0 {
      var r, more := Reverse(s[i], charset), ScanText(s[i + 1..], charset).digits;
      assert d + ([r] + more) == (d + [r]) + more;
    }
  }

  // The verdict once the digits and the stop are known.
  predicate Accepted(d: seq<Digit>, stop: Stop) {
    stop != Bad && (stop == AtPad ==> |d| % 4 >= 2) && |d| % 4 != 1 && Begun(d) == 0
  }

  lemma Acceptance(s: string, charset: Charset, d: seq<Digit>, stop: Stop)
    requires ScanText(s, charset) == Scan(d, stop) && Accepted(d, stop)
    ensures DecodesTo(s, charset, Octets(d))
  {
    hide ScanText, Digits, Octets, Begun, Canonical;
    CanonicalTest(d);
    DigitsOfOctets(d);
  }

  lemma Rejection(s: string, charset: Charset, d: seq<Digit>, stop: Stop, b: seq<Byte>)
    requires ScanText(s, charset) == Scan(d, stop) && !Accepted(d, stop)
    ensures !DecodesTo(s, charset, b)
  {
    hide ScanText, Digits, Octets, Begun, Canonical;
    if DecodesTo(s, charset, b) {
      OctetsOfDigits(b);
      CanonicalTest(d);
    }
  }

  lemma Verdict(s: string, charset: Charset, d: seq<Digit>, stop: Stop)
    requires Scanned(s, charset, d, Scan([], stop))
    ensures ScanText(s, charset) == Scan(d, stop)
    ensures Accepted(d, stop) ==> DecodesTo(s, charset, Octets(d))
    ensures !Accepted(d, stop) ==> forall b :: !DecodesTo(s, charset, b)
  {
    hide ScanText, Accepted, DecodesTo, Octets;
    assert d + [] == d;
    if Accepted(d, stop) {
      Acceptance(s, charset, d, stop);
    } else {
      forall b ensures !DecodesTo(s, charset, b) {
        Rejection(s, charset, d, stop, b);
      }
    }
  }

  // What the decoder returns: the bytes of which the text is an encoding, if there are any.
  function Decoding(s: string, charset: Charset): (r: Option<seq<Byte>>)
    ensures r.Some? ==> DecodesTo(s, charset, r.value)
    ensures r.None? ==> forall b :: !DecodesTo(s, charset, b)
  {
    var scan := ScanText(s, charset);
    Whole(s, charset);
    Verdict(s, charset, scan.digits, scan.stop);
    if Accepted(scan.digits, scan.stop) then Some(Octets(scan.digits)) else None
  }

  lemma Whole(s: string, charset: Charset)
    ensures var scan := ScanText(s, charset); Scanned(s, charset, scan.digits, Scan([], scan.stop))
  {
    hide ScanText;
    var d := ScanText(s, charset).digits;
    assert d + [] == d;
  }

  lemma Decided(s: string, charset: Charset, d: seq<Digit>, stop: Stop)
    requires Scanned(s, charset, d, Scan([], stop))
    ensures Decoding(s, charset) == if Accepted(d, stop) then Some(Octets(d)) else None
  {
    hide ScanText, Octets, Accepted, DecodesTo;
    assert d + [] == d;
  }

  // The decoder. Its result array has the reserved size and is written only inside.
  method Decode(s: string, charset: Charset) returns (r: Option<seq<int>>)
    ensures r == Decoding(s, charset)
  {
    hide ScanText, Digits, Octets, Begun, DecodesTo, Decoding;
    var result := new int[3 * (|s| / 4) + 3];
    var outPos: nat, group: nat, i: nat := 0, 0, 0;
    ghost var d: seq<Digit>, stop := [], AtEnd;
    var going := true;
    DecodeStart(s, charset, result[..]);
    while i < |s| && going
      invariant i <= |s| && |d| <= i && Decoded(result[..], outPos, group, d)
      invariant going ==> stop == AtEnd && Scanned(s, charset, d, ScanText(s[i..], charset))
      invariant !going ==> Scanned(s, charset, d, Scan([], stop)) && stop != Bad && (stop == AtPad ==> group >= 2)
      decreases |s| - i
    {
      var c := s[i];
      ScannedStep(s, charset, d, i);
      if c == '\0' {
        going := false;
      } else {
        var ch := if c as int >= 128 then INVALID else Reverse(c, charset);
        if ch == INVALID {
          Decided(s, charset, d, Bad);
          return None;
        } else if ch == PAD {
          if group < 2 {
            Decided(s, charset, d, AtPad);
            return None;
          }
          going, stop := false, AtPad;
        } else if ch != SKIP {
          outPos, group := TakeDigit(result, outPos, group, d, ch, |s|);
          d := d + [ch];
        }
      }
      i := i + 1;
    }
    if going {
      ScannedEnd(s, charset, d);
    }
    Decided(s, charset, d, stop);
    DecodedEnd(result[..], outPos, group, d);
    if group == 1 || (group >= 2 && result[outPos] != 0) {
      return None;
    }
    r := Some(result[..outPos]);
  }

  lemma DecodeStart(s: string, charset: Charset, result: seq<int>)
    requires |result| > 0
    ensures Decoded(result, 0, 0, []) && Scanned(s, charset, [], ScanText(s[0..], charset))
  {
    assert s[0..] == s && [] + ScanText(s, charset).digits == ScanText(s, charset).digits;
  }

  lemma ScannedEnd(s: string, charset: Charset, d: seq<Digit>)
    requires Scanned(s, charset, d, ScanText(s[|s|..], charset))
    ensures Scanned(s, charset, d, Scan([], AtEnd))
  {
    assert s[|s|..] == "";
  }

  lemma DecodedEnd(result: seq<int>, outPos: nat, group: nat, d: seq<Digit>)
    requires Decoded(result, outPos, group, d)
    ensures outPos < |result| && result[..outPos] == Octets(d) && group == |d| % 4
    ensures group == 0 ==> Begun(d) == 0
    ensures group > 0 ==> result[outPos] == Begun(d)
  {
    BegunWhole(d);
  }

  lemma {:induction false} BegunWhole(d: seq<Digit>)
    ensures |d| % 4 == 0 ==> Begun(d) == 0
  {
    if |d| >= 4 {
      BegunWhole(d[4..]);
    }
  }

  // ---- round trips ----

  lemma {:induction false} ScanLetters(d: seq<Digit>, charset: Charset, rest: string)
    ensures var scan := ScanText(rest, charset);
            ScanText(Letters(d, charset) + rest, charset) == Scan(d + scan.digits, scan.stop)
  {
    var s := Letters(d, charset) + rest;
    if d == [] {
      assert s == rest && [] + ScanText(rest, charset).digits == ScanText(rest, charset).digits;
    } else {
      ReverseLetter(d[0], charset);
      assert s[0] == Letter(d[0], charset) && s[1..] == Letters(d[1..], charset) + rest;
      ScanLetters(d[1..], charset, rest);
      assert [d[0]] + (d[1..] + ScanText(rest, charset).digits) == d + ScanText(rest, charset).digits;
    }
  }

  // Decoding inverts both encoders.
  lemma RoundTrip(b: seq<Byte>, charset: Charset)
    ensures Decoding(NoPadding(b, charset), charset) == Decoding(Padded(b, charset), charset) == Some(b)
  {
    Encodes(b, charset);
    hide DecodesTo, NoPadding, Padded, Decoding;
    DecodesBack(NoPadding(b, charset), charset, b);
    DecodesBack(Padded(b, charset), charset, b);
  }

  lemma DecodesBack(s: string, charset: Charset, b: seq<Byte>)
    requires DecodesTo(s, charset, b)
    ensures Decoding(s, charset) == Some(b)
  {
    hide DecodesTo;
    DecodesToOne(s, charset, b, Decoding(s, charset).value);
  }

  lemma Encodes(b: seq<Byte>, charset: Charset)
    ensures DecodesTo(NoPadding(b, charset), charset, b) && DecodesTo(Padded(b, charset), charset, b)
  {
    var d := Digits(b);
    DigitsLength(b);
    ScanLetters(d, charset, "");
    assert Letters(d, charset) + "" == Letters(d, charset) && d + [] == d;
    ScanLetters(d, charset, Pads(PadCount(|b|), charset));
    if PadCount(|b|) > 0 {
      assert Pads(PadCount(|b|), charset)[0] == Padding(charset) && Reverse(Padding(charset), charset) == PAD;
      PaddedGroup(|b|);
    } else {
      assert Pads(0, charset) == "";
    }
  }

  lemma PaddedGroup(n: nat)
    ensures n % 3 != 0 ==> (n / 3 * 4 + n % 3 + 1) % 4 >= 2
  {
  }

  // ---- the text of an encoding ----

  // An encoding with pads comes in fours: two pads behind one byte more than whole groups, one
  // behind two.
  lemma PaddedShape(b: seq<Byte>, charset: Charset)
    ensures |Padded(b, charset)| % 4 == 0
    ensures var pad := Padding(charset);
            Padded(b, charset) == NoPadding(b, charset) +
            if |b| % 3 == 1 then [pad, pad] else if |b| % 3 == 2 then [pad] else []
  {
    NoPaddingLength(b, charset);
  }

  // Skipped characters may stand anywhere, and what follows a zero does not count.
  lemma {:induction false} ScanSkips(a: string, c: char, b: string, charset: Charset)
    requires c as int <= 32
    ensures ScanText(a + [c] + b, charset) == ScanText(if c == '\0' then a else a + b, charset)
  {
    var t := a + [c] + b;
    if a == "" {
      assert t[0] == c && t[1..] == b && "" + b == b;
    } else {
      assert t[0] == a[0] && t[1..] == a[1..] + [c] + b;
      assert (a + b)[0] == a[0] && (a + b)[1..] == a[1..] + b;
      ScanSkips(a[1..], c, b, charset);
    }
  }

  // The decoder on texts with such characters; on an encoding with anything behind its pads;
  // and on one with a pad behind whole groups, which it refuses.
  lemma DecodingReads(a: string, c: char, b: string, m: seq<Byte>, charset: Charset)
    ensures 1 <= c as int <= 32 ==> Decoding(a + [c] + b, charset) == Decoding(a + b, charset)
    ensures Decoding(a + "\0" + b, charset) == Decoding(a, charset)
    ensures |m| % 3 != 0 ==> Decoding(Padded(m, charset) + b, charset) == Some(m)
    ensures |m| % 3 == 0 ==> Decoding(NoPadding(m, charset) + [Padding(charset)] + b, charset) == None
  {
    if c as int <= 32 {
      ScanSkips(a, c, b, charset);
    }
    ScanSkips(a, '\0', b, charset);
    PadEnds(b, m, charset);
  }

  lemma PadEnds(b: string, m: seq<Byte>, charset: Charset)
    ensures |m| % 3 != 0 ==> Decoding(Padded(m, charset) + b, charset) == Some(m)
    ensures |m| % 3 == 0 ==> Decoding(NoPadding(m, charset) + [Padding(charset)] + b, charset) == None
  {
    var pad := Padding(charset);
    PaddedShape(m, charset);
    DigitsLength(m);
    hide ScanText, Digits, Decoding, NoPadding, Padded, DecodesTo;
    if |m| % 3 == 0 {
      PadScan(m, [pad], b, charset);
      PadRefused(NoPadding(m, charset) + [pad] + b, m, charset);
    } else {
      var pads := if |m| % 3 == 1 then [pad, pad] else [pad];
      PadScan(m, pads, b, charset);
      PaddedGroup(|m|);
      PadTaken(NoPadding(m, charset) + pads + b, m, charset);
    }
  }

  lemma PadTaken(s: string, m: seq<Byte>, charset: Charset)
    requires ScanText(s, charset) == Scan(Digits(m), AtPad) && |Digits(m)| % 4 >= 2
    ensures Decoding(s, charset) == Some(m)
  {
    hide ScanText, Digits, Decoding;
    assert DecodesTo(s, charset, m);
    DecodesBack(s, charset, m);
  }

  lemma PadRefused(s: string, m: seq<Byte>, charset: Charset)
    requires ScanText(s, charset) == Scan(Digits(m), AtPad) && |Digits(m)| % 4 == 0
    ensures Decoding(s, charset) == None
  {
    hide ScanText, Digits, Octets, Begun, DecodesTo;
  }

  lemma PadScan(m: seq<Byte>, pads: string, b: string, charset: Charset)
    requires pads != "" && pads[0] == Padding(charset)
    ensures ScanText(NoPadding(m, charset) + pads + b, charset) == Scan(Digits(m), AtPad)
  {
    ScanLetters(Digits(m), charset, pads + b);
    PadStops(pads + b, charset);
    hide ScanText, Digits, Letters;
    assert Letters(Digits(m), charset) + pads + b == Letters(Digits(m), charset) + (pads + b);
    assert Digits(m) + [] == Digits(m);
  }

  lemma PadStops(s: string, charset: Charset)
    requires s != "" && s[0] == Padding(charset)
    ensures ScanText(s, charset) == Scan([], AtPad)
  {
  }
}
