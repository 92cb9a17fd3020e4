// cJSON.c: the parser. A pointer is a position in the text.

module JsonParser {
  import opened Json
  import opened Texts
  import opened JsonGrammar

  datatype Read<T> = Read(value: T, next: nat) | Fails | Beyond

  ghost predicate Agrees<T>(o: Outcome<T>, text: string, r: Read<T>) {
    match r
    case Read(v, next) => next <= |text| && o == Parsed(v, text[next..])
    case Fails => o == Malformed
    case Beyond => o == Outside
  }

  method SkipWhite(text: string, k: nat) returns (k': nat)
    requires k <= |text|
    ensures k <= k' <= |text| && text[k'..] == Skip(text[k..])
  {
    k' := k;
    while k' < |text| && text[k'] as int <= 32
      invariant k <= k' <= |text| && Skip(text[k'..]) == Skip(text[k..])
    {
      assert text[k'..][1..] == text[k' + 1..];
      k' := k' + 1;
    }
  }

  // ---- parse_number ----

  lemma RunStep(text: string, start: nat, num: nat)
    requires start <= num < |text| && (forall i :: start <= i <= num ==> IsDigit(text[i]))
    ensures Run(text[num..]) == 1 + Run(text[num + 1..])
    ensures Natural(text[start..num + 1]) == 10 * Natural(text[start..num]) + Digit(text[num])
  {
    assert text[num..][1..] == text[num + 1..];
    assert text[start..num + 1][..num - start] == text[start..num];
  }

  // The digits, unless the first one is zero.
  method ReadDigits(text: string, start: nat) returns (n: nat, num: nat)
    requires start <= |text|
    ensures start <= num <= |text| && num - start == if Starts(text[start..], '0') then 0 else Run(text[start..])
    ensures (forall i :: start <= i < num ==> IsDigit(text[i])) && n == Natural(text[start..num])
  {
    hide Run, Natural;
    n, num := 0, start;
    assert |text[start..num]| == 0;
    NoDigits(text[start..num]);
    if '1' <= At(text, num) <= '9' {
      while num < |text| && IsDigit(text[num])
        invariant start <= num <= |text| && (forall i :: start <= i < num ==> IsDigit(text[i]))
        invariant n == Natural(text[start..num]) && Run(text[start..]) == num - start + Run(text[num..])
      {
        RunStep(text, start, num);
        n := n * 10 + (text[num] - '0') as int;
        num := num + 1;
      }
    }
    RunEnds(text[num..]);
  }

  lemma AtStarts(text: string, k: nat, c: char)
    requires k <= |text| && c != '\0'
    ensures Starts(text[k..], c) <==> At(text, k) == c
  {
  }

  lemma Halves(text: string, start: nat, num: nat)
    requires start <= num <= |text|
    ensures text[start..] == text[start..num] + text[num..] && |text[start..num]| == num - start
  {
  }

  // The number that starts at k has its digits from start to num.
  lemma NumberIs(text: string, k: nat, k1: nat, start: nat, num: nat)
    requires k < |text| && (text[k] == '-' || IsDigit(text[k]))
    requires k1 == k + (if text[k] == '-' then 1 else 0) && start == k1 + (if At(text, k1) == '0' then 1 else 0)
    requires start <= num <= |text| && num - start == if Starts(text[start..], '0') then 0 else Run(text[start..])
    ensures Starts(text[k..], '-') || StartsDigit(text[k..])
    ensures var n := Natural(text[start..num]);
            NumberAt(text[k..]) == if Fractional(text[num..]) || n > EXACT then Outside
                                   else Parsed(Number(if text[k] == '-' then 0 - (n as int) else n), text[num..])
  {
    hide Run, Natural, Fractional, NumberAt, StartsDigit, IsDigit, Starts;
    Suffixes(text, k);
    AtStarts(text, k1, '0');
    if k1 < |text| {
      Suffixes(text, k1);
    }
    Halves(text, start, num);
    NumberParts(text[k..], text[k1..], text[start..], text[start..num], text[num..]);
  }

  method ParseNumber(text: string, k: nat) returns (r: Read<Value>)
    requires k < |text| && (text[k] == '-' || IsDigit(text[k]))
    ensures Starts(text[k..], '-') || StartsDigit(text[k..])
    ensures Agrees(NumberAt(text[k..]), text, r)
  {
    hide Run, Natural, Fractional, NumberAt, Starts, StartsDigit;
    var num: nat := k;
    if text[num] == '-' {
      num := num + 1;
    }
    ghost var k1 := num;
    if At(text, num) == '0' {
      num := num + 1;
    }
    ghost var start := num;
    var n;
    n, num := ReadDigits(text, num);
    NumberIs(text, k, k1, start, num);
    FractionalAt(text, num);
    if (At(text, num) == '.' && IsDigit(At(text, num + 1)))
       || At(text, num) == 'e' || At(text, num) == 'E' || n > EXACT {
      return Beyond;
    }
    r := Read(Number(if text[k] == '-' then 0 - (n as int) else n), num);
  }

  lemma NoDigits(d: string)
    requires d == ""
    ensures Natural(d) == 0
  {
  }

  lemma RunEnds(s: string)
    ensures !StartsDigit(s) ==> Run(s) == 0
  {
  }

  lemma FractionalAt(text: string, num: nat)
    requires num <= |text|
    ensures Fractional(text[num..]) <==>
            (At(text, num) == '.' && IsDigit(At(text, num + 1))) || At(text, num) == 'e' || At(text, num) == 'E'
  {
  }

  // ---- parse_string ----

  // Where the scan for the closing quote stops, and the characters it has counted.
  function Ends(s: string): (k: nat)
    requires Closes(s)
    ensures k <= |s|
  {
    if s == "" || s[0] == '"' then 0 else if s[0] == '\\' then 2 + Ends(s[2..]) else 1 + Ends(s[1..])
  }

  function Counted(s: string): nat
    requires Closes(s)
  {
    if s == "" || s[0] == '"' then 0 else if s[0] == '\\' then 1 + Counted(s[2..]) else 1 + Counted(s[1..])
  }

  lemma Suffixes(text: string, k: nat)
    requires k < |text|
    ensures text[k..][0] == text[k] && text[k..][1..] == text[k + 1..]
    ensures k + 2 <= |text| ==> text[k..][2..] == text[k + 2..]
  {
  }

  // The scan: no result means that it runs past the end.
  method ScanString(text: string, k: nat) returns (closes: bool, end: nat, len: nat)
    requires k <= |text|
    ensures closes <==> Closes(text[k..])
    ensures closes ==> end == k + Ends(text[k..]) && len == Counted(text[k..])
  {
    end, len := k, 0;
    while end < |text| && text[end] != '"'
      invariant k <= end <= |text| && (Closes(text[k..]) <==> Closes(text[end..]))
      invariant Closes(text[k..]) ==>
        end + Ends(text[end..]) == k + Ends(text[k..]) && len + Counted(text[end..]) == Counted(text[k..])
    {
      Suffixes(text, end);
      len := len + 1;
      if text[end] == '\\' {
        if end + 1 == |text| {
          return false, end, len;
        }
        end := end + 1;
      }
      end := end + 1;
    }
    closes := true;
  }

  lemma OneHex(s: string)
    requires Closes(s) && s != "" && HexValue(s[0]) < 16
    ensures Closes(s[1..]) && Ends(s) == 1 + Ends(s[1..]) && Counted(s) == 1 + Counted(s[1..])
  {
  }

  lemma FourHex(s: string)
    requires Closes(s) && IsHex(s)
    ensures Closes(s[4..]) && Ends(s) == 4 + Ends(s[4..]) && Counted(s) == 4 + Counted(s[4..])
  {
    hide Closes, Ends, Counted, HexValue;
    assert s[1..][1..] == s[2..] && s[2..][1..] == s[3..] && s[3..][1..] == s[4..];
    OneHex(s);
    OneHex(s[1..]);
    OneHex(s[2..]);
    OneHex(s[3..]);
  }

  lemma Backslash(s: string)
    requires Closes(s) && s != "" && s[0] == '\\'
    ensures |s| >= 2 && Closes(s[2..]) && Ends(s) == 2 + Ends(s[2..]) && Counted(s) == 1 + Counted(s[2..])
  {
  }

  // The second half of a surrogate pair follows the first four digits.
  ghost predicate Paired(s: string) {
    IsHex(s) && |s| >= 10 && s[4] == '\\' && s[5] == 'u' && IsHex(s[6..])
  }

  lemma PairEnds(s: string)
    requires Closes(s) && Paired(s)
    ensures Closes(s[10..]) && Ends(s) == 10 + Ends(s[10..]) && Counted(s) == 9 + Counted(s[10..])
  {
    hide Closes, Ends, Counted, IsHex;
    FourHex(s);
    Backslash(s[4..]);
    assert s[4..][2..] == s[6..] && s[6..][4..] == s[10..];
    FourHex(s[6..]);
  }

  lemma HexUnlessZero(s: string)
    ensures Hex4(s) != 0 ==> IsHex(s)
  {
  }

  // A \u escape: ptr is at the u, and then at its last digit.
  method ParseUnicode(text: string, at: nat, end: nat) returns (ok: bool, uc: nat, ptr: nat)
    requires at < |text| && Closes(text[at + 1..]) && end == at + 1 + Ends(text[at + 1..])
    ensures !ok ==> Unicode(text[at + 1..]) == Malformed
    ensures ok ==>
      0 < uc < 0x11_0000 && at < ptr < |text| && Unicode(text[at + 1..]) == Parsed(Utf8(uc), text[ptr + 1..])
  {
    hide Closes, Ends, Hex4, IsHex, Utf8;
    ghost var s := text[at + 1..];
    HexUnlessZero(s);
    if IsHex(s) {
      FourHex(s);
    }
    uc, ptr := Hex4(text[at + 1..]), at + 4;
    if ptr >= end {
      return false, uc, ptr;
    }
    assert s[4..] == text[ptr + 1..];
    if 0xDC00 <= uc <= 0xDFFF || uc == 0 {
      return false, uc, ptr;
    }
    if 0xD800 <= uc <= 0xDBFF {
      if |s| >= 6 {
        HexUnlessZero(s[6..]);
      }
      if Paired(s) {
        PairEnds(s);
      }
      if ptr + 6 > end {
        LateFails(s);
        return false, uc, ptr;
      }
      assert s[4] == text[ptr + 1] && s[5] == text[ptr + 2] && s[6..] == text[ptr + 3..];
      if text[ptr + 1] != '\\' || text[ptr + 2] != 'u' {
        return false, uc, ptr;
      }
      var uc2 := Hex4(text[ptr + 3..]);
      ptr := ptr + 6;
      if uc2 < 0xDC00 || uc2 > 0xDFFF {
        return false, uc, ptr;
      }
      assert IsHex(s[6..]) && |s[6..]| >= 4 by { HexLength(s[6..]); }
      assert s[10..] == text[ptr + 1..];
      uc := 0x1_0000 + uc % 1024 * 1024 + uc2 % 1024;
    }
    ok := true;
  }

  lemma HexLength(s: string)
    requires IsHex(s)
    ensures |s| >= 4
  {
  }

  lemma LateFails(s: string)
    requires 0xD800 <= Hex4(s) <= 0xDBFF && !Paired(s)
    ensures Unicode(s) == Malformed
  {
    HexUnlessZero(s);
    if |s| >= 6 {
      HexUnlessZero(s[6..]);
    }
  }

  lemma Utf8Bytes(code: nat)
    requires code < 0x11_0000
    ensures var u1, u2, u3 := code / 64, code / 64 / 64, code / 64 / 64 / 64;
            Utf8(code) == if code < 0x80 then [code as char]
                          else if code < 0x800 then [(0xC0 + u1) as char, (0x80 + code % 64) as char]
                          else if code < 0x1_0000
                            then [(0xE0 + u2) as char, (0x80 + u1 % 64) as char, (0x80 + code % 64) as char]
                          else [(0xF0 + u3) as char, (0x80 + u2 % 64) as char, (0x80 + u1 % 64) as char,
                            (0x80 + code % 64) as char]
  {
  }

  lemma Adjoined(q: string, p: nat, before: string, x: string)
    requires p + |x| <= |q| && q[..p] == before && 1 <= |x| <= 4
    requires q[p] == x[0] && (|x| > 1 ==> q[p + 1] == x[1]) && (|x| > 2 ==> q[p + 2] == x[2])
      && (|x| > 3 ==> q[p + 3] == x[3])
    ensures q[..p + |x|] == before + x
  {
  }

  // The bytes are written from the last one back.
  method WriteUtf8(out: array<char>, p: nat, code: nat) returns (p': nat)
    requires code < 0x11_0000 && p + |Utf8(code)| <= out.Length
    modifies out
    ensures p' == p + |Utf8(code)| && out[..p'] == old(out[..p]) + Utf8(code)
  {
    ghost var before := out[..p];
    Utf8Bytes(code);
    hide Utf8;
    var uc := code;
    var len := if uc < 0x80 then 1 else if uc < 0x800 then 2 else if uc < 0x1_0000 then 3 else 4;
    p' := p + len;
    if len >= 4 {
      p' := p' - 1;
      out[p'] := (0x80 + uc % 64) as char;
      uc := uc / 64;
    }
    if len >= 3 {
      p' := p' - 1;
      out[p'] := (0x80 + uc % 64) as char;
      uc := uc / 64;
    }
    if len >= 2 {
      p' := p' - 1;
      out[p'] := (0x80 + uc % 64) as char;
      uc := uc / 64;
    }
    p' := p' - 1;
    out[p'] := ((if len == 1 then 0 else if len == 2 then 0xC0 else if len == 3 then 0xE0 else 0xF0) + uc) as char;
    p' := p' + len;
    assert out[..p] == before;
    Adjoined(out[..], p, before, Utf8(code));
    assert out[..p'] == out[..][..p'];
  }

  // The copy loop: x has been written, and the string still has to be read from ptr on.
  ghost predicate Copying(text: string, start: nat, ptr: nat, end: nat, x: string, len: nat) {
    && start <= ptr <= |text| && Closes(text[ptr..]) && end == ptr + Ends(text[ptr..])
    && |x| + Counted(text[ptr..]) <= len
    && Chars(text[start..]) == Then(x, Chars(text[ptr..]))
  }

  lemma CopyingStart(text: string, start: nat)
    requires start <= |text| && Closes(text[start..])
    ensures Copying(text, start, start, start + Ends(text[start..]), "", Counted(text[start..]))
  {
    var r := Chars(text[start..]);
    assert r.Parsed? ==> "" + r.value == r.value;
  }

  lemma ThenThen(x: string, c: string, r: Outcome<string>)
    ensures Then(x, Then(c, r)) == Then(x + c, r)
  {
    if r.Parsed? {
      Associate(x, c, r.value);
    }
  }

  // There is room, and a character to be read.
  lemma CopyingMore(text: string, start: nat, ptr: nat, end: nat, x: string, len: nat)
    requires Copying(text, start, ptr, end, x, len) && ptr < end
    ensures ptr < |text| && |x| < len && text[ptr] != '"'
    ensures text[ptr] == '\\' ==> ptr + 1 < |text| && Closes(text[ptr + 2..]) && end == ptr + 2 + Ends(text[ptr + 2..])
  {
    if text[ptr] == '\\' {
      Backslash(text[ptr..]);
      Suffixes(text, ptr);
    }
  }

  lemma CopyingPlain(text: string, start: nat, ptr: nat, end: nat, x: string, len: nat)
    requires Copying(text, start, ptr, end, x, len) && ptr < end && text[ptr] != '\\'
    ensures Copying(text, start, ptr + 1, end, x + [text[ptr]], len)
  {
    CopyingMore(text, start, ptr, end, x, len);
    Suffixes(text, ptr);
    ThenThen(x, [text[ptr]], Chars(text[ptr + 1..]));
    hide Then;
  }

  lemma CopyingShort(text: string, start: nat, ptr: nat, end: nat, x: string, len: nat)
    requires Copying(text, start, ptr, end, x, len) && ptr < end && text[ptr] == '\\' && ptr + 1 < |text|
      && text[ptr + 1] != 'u'
    ensures Copying(text, start, ptr + 2, end, x + [Unescape(text[ptr + 1])], len)
  {
    hide Unescape, Then;
    Backslash(text[ptr..]);
    Suffixes(text, ptr);
    ThenThen(x, [Unescape(text[ptr + 1])], Chars(text[ptr + 2..]));
  }

  lemma CopyingFails(text: string, start: nat, ptr: nat, end: nat, x: string, len: nat)
    requires Copying(text, start, ptr, end, x, len) && ptr + 2 <= |text| && text[ptr] == '\\' && text[ptr + 1] == 'u'
    requires Unicode(text[ptr + 2..]) == Malformed
    ensures Chars(text[start..]) == Malformed
  {
    Suffixes(text, ptr);
  }

  // Enough was counted for the bytes of a \u escape.
  lemma CopyingUnicode(text: string, start: nat, ptr: nat, end: nat, x: string, len: nat, next: nat, u: nat)
    requires Copying(text, start, ptr, end, x, len) && ptr + 2 <= |text| && text[ptr] == '\\' && text[ptr + 1] == 'u'
    requires next <= |text| && u < 0x11_0000 && Unicode(text[ptr + 2..]) == Parsed(Utf8(u), text[next..])
    ensures |x| + |Utf8(u)| <= len && Copying(text, start, next, end, x + Utf8(u), len)
  {
    hide Utf8, Unicode;
    Backslash(text[ptr..]);
    Suffixes(text, ptr);
    UnicodeLength(text[ptr + 2..], Utf8(u), text[next..]);
    ThenThen(x, Utf8(u), Chars(text[next..]));
    hide Then;
    assert |text[next..]| == |text| - next;
  }

  lemma UnicodeLength(s: string, t: string, rest: string)
    requires Closes(s) && Unicode(s) == Parsed(t, rest)
    ensures Closes(rest) && Ends(s) - Ends(rest) == |s| - |rest| && Counted(s) - Counted(rest) >= |t| - 1
  {
    hide Closes, Ends, Counted;
    HexUnlessZero(s);
    FourHex(s);
    if |s| >= 6 {
      HexUnlessZero(s[6..]);
    }
    if Paired(s) {
      PairEnds(s);
    }
    hide Hex4, IsHex;
  }

  // One turn of the copy loop; ok is false when the escape is malformed.
  method CopyOne(text: string, out: array<char>, ghost start: nat, from: nat, end: nat, p: nat, ghost len: nat)
    returns (ok: bool, ptr: nat, p': nat)
    requires p <= out.Length == len + 1 && from < end && Copying(text, start, from, end, out[..p], len)
    modifies out
    ensures !ok ==> Chars(text[start..]) == Malformed
    ensures ok ==> from < ptr && p' <= out.Length && Copying(text, start, ptr, end, out[..p'], len)
  {
    hide Copying, Chars, Closes, Unicode, Unescape, Utf8;
    ghost var x := out[..p];
    CopyingMore(text, start, from, end, x, len);
    ok, ptr, p' := true, from, p;
    if text[ptr] != '\\' {
      CopyingPlain(text, start, from, end, x, len);
      out[p'] := text[ptr];
      ptr, p' := ptr + 1, p' + 1;
      assert out[..p'] == x + [text[from]];
    } else {
      ptr := ptr + 1;
      if text[ptr] == 'u' {
        var uc;
        ok, uc, ptr := ParseUnicode(text, ptr, end);
        if !ok {
          CopyingFails(text, start, from, end, x, len);
          return;
        }
        CopyingUnicode(text, start, from, end, x, len, ptr + 1, uc);
        p' := WriteUtf8(out, p', uc);
      } else {
        CopyingShort(text, start, from, end, x, len);
        out[p'] := Unescape(text[ptr]);
        p' := p' + 1;
        assert out[..p'] == x + [Unescape(text[ptr])];
      }
      ptr := ptr + 1;
    }
  }

  lemma CopyingEnd(text: string, start: nat, ptr: nat, end: nat, x: string, len: nat)
    requires Copying(text, start, ptr, end, x, len) && ptr >= end
    ensures ptr == end && |x| <= len && Chars(text[start..]) == Parsed(x, text[if ptr < |text| then ptr + 1 else ptr..])
    ensures ptr < |text| ==> text[ptr] == '"'
  {
    if ptr < |text| {
      Suffixes(text, ptr);
    }
    assert x + "" == x;
  }

  // The string is unescaped into an array of the length that was counted.
  method ParseString(text: string, k: nat) returns (r: Read<string>)
    requires k <= |text|
    ensures Agrees(if Starts(text[k..], '"') then StringAt(text[k..][1..]) else Malformed, text, r)
  {
    hide Copying, Chars, Closes, Ends, Counted;
    if At(text, k) != '"' {
      return Fails;
    }
    Suffixes(text, k);
    var closes, end, len := ScanString(text, k + 1);
    if !closes {
      return Beyond;
    }
    var out := new char[len + 1];
    var ptr: nat, p: nat := k + 1, 0;
    CopyingStart(text, k + 1);
    assert out[..0] == "";
    while ptr < end
      invariant p <= out.Length && Copying(text, k + 1, ptr, end, out[..p], len)
      decreases end - ptr
    {
      var ok;
      ok, ptr, p := CopyOne(text, out, k + 1, ptr, end, p, len);
      if !ok {
        return Fails;
      }
    }
    CopyingEnd(text, k + 1, ptr, end, out[..p], len);
    ghost var x := out[..p];
    out[p] := '\0';
    assert out[..p] == x;
    if At(text, ptr) == '"' {
      ptr := ptr + 1;
    }
    r := Read(out[..p], ptr);
  }

  // ---- parse_value, parse_array, parse_object ----

  // Whether the word stands at k.
  predicate Word(text: string, k: nat, word: string) {
    k + |word| <= |text| && text[k..k + |word|] == word
  }

  lemma WordAt(text: string, k: nat, word: string)
    requires k <= |text|
    ensures Word(text, k, word) <==> word <= text[k..]
    ensures Word(text, k, word) ==> text[k..][|word|..] == text[k + |word|..]
  {
    if k + |word| <= |text| {
      assert text[k..][..|word|] == text[k..k + |word|];
    }
  }

  method ParseValue(text: string, k: nat) returns (r: Read<Value>)
    requires k <= |text|
    ensures Agrees(ValueAt(text[k..]), text, r)
    decreases |text| - k, 2
  {
    hide NumberAt, StringAt, ItemsAt, MembersAt, Skip;
    WordAt(text, k, "null");
    WordAt(text, k, "false");
    WordAt(text, k, "true");
    if Word(text, k, "null") {
      return Read(Null, k + 4);
    }
    if Word(text, k, "false") {
      return Read(False, k + 5);
    }
    if Word(text, k, "true") {
      return Read(True, k + 4);
    }
    if k == |text| {
      return Fails;
    }
    Suffixes(text, k);
    if text[k] == '"' {
      var s := ParseString(text, k);
      match s {
        case Read(t, next) => r := Read(Text(t), next);
        case Fails => r := Fails;
        case Beyond => r := Beyond;
      }
    } else if text[k] == '-' || IsDigit(text[k]) {
      r := ParseNumber(text, k);
    } else if text[k] == '[' {
      r := ParseArray(text, k);
    } else if text[k] == '{' {
      r := ParseObject(text, k);
    } else {
      r := Fails;
    }
  }

  lemma NextItem(done: seq<Value>, s: string)
    ensures var r := ValueAt(s);
            if r.Parsed? then ItemsAt(done, s) == AfterItem(done + [r.value], Skip(r.rest)) && |r.rest| < |s|
            else ItemsAt(done, s) == r
  {
    hide ValueAt, AfterItem, Skip;
  }

  lemma NextMember(done: seq<Member>, s: string)
    ensures var r := MemberAt(s);
            && (r.Parsed? ==> MembersAt(done, s) == AfterMember(done + [r.value], Skip(r.rest)) && |r.rest| < |s|)
            && (r.Malformed? ==> MembersAt(done, s) == Malformed)
            && (r.Outside? ==> MembersAt(done, s) == Outside)
  {
    hide MemberAt, AfterMember, Skip;
  }

  lemma SkipTwice(s: string)
    ensures Skip(Skip(s)) == Skip(s)
  {
  }

  lemma AfterItemAt(text: string, k: nat, items: seq<Value>)
    requires k <= |text|
    ensures AfterItem(items, text[k..]) ==
            if At(text, k) == ',' then ItemsAt(items, Skip(text[k + 1..]))
            else if At(text, k) == ']' then Parsed(Array(items), text[k + 1..])
            else Malformed
  {
    hide ItemsAt, Skip;
    if k < |text| {
      Suffixes(text, k);
    }
  }

  // A new element at the end of the list.
  method ParseItem(text: string, k: nat, items: seq<Value>) returns (r: Read<seq<Value>>)
    requires k <= |text|
    ensures r.Read? ==> k < r.next <= |text| && ItemsAt(items, text[k..]) == AfterItem(r.value, text[r.next..])
    ensures r.Fails? ==> ItemsAt(items, text[k..]) == Malformed
    ensures r.Beyond? ==> ItemsAt(items, text[k..]) == Outside
    decreases |text| - k, 3
  {
    hide ValueAt, ItemsAt, AfterItem, Skip;
    NextItem(items, text[k..]);
    var child := ParseValue(text, k);
    match child {
      case Read(v, next) =>
        assert |text[next..]| < |text[k..]|;
        var value := SkipWhite(text, next);
        r := Read(items + [v], value);
      case Fails => r := Fails;
      case Beyond => r := Beyond;
    }
  }

  method ParseArray(text: string, k: nat) returns (r: Read<Value>)
    requires k < |text| && text[k] == '['
    ensures Agrees(ValueAt(text[k..]), text, r)
    decreases |text| - k, 1
  {
    hide ValueAt, ItemsAt, AfterItem, Skip;
    ghost var s := text[k..];
    Suffixes(text, k);
    var value := SkipWhite(text, k + 1);
    ValueArray(s, text[value..]);
    if At(text, value) == ']' {
      Suffixes(text, value);
      return Read(Array([]), value + 1);
    }
    SkipTwice(text[k + 1..]);
    value := SkipWhite(text, value);
    var items := ParseItem(text, value, []);
    while items.Read? && At(text, items.next) == ','
      invariant items.Read? ==> k < items.next <= |text| && ValueAt(s) == AfterItem(items.value, text[items.next..])
      invariant items.Fails? ==> ValueAt(s) == Malformed
      invariant items.Beyond? ==> ValueAt(s) == Outside
      decreases if items.Read? then |text| + 1 - items.next else 0
    {
      AfterItemAt(text, items.next, items.value);
      value := SkipWhite(text, items.next + 1);
      items := ParseItem(text, value, items.value);
    }
    match items {
      case Fails => r := Fails;
      case Beyond => r := Beyond;
      case Read(list, next) =>
        AfterItemAt(text, next, list);
        r := if At(text, next) == ']' then Read(Array(list), next + 1) else Fails;
    }
  }

  // The name, the colon and the value of a member.
  method ParseMember(text: string, k: nat) returns (r: Read<Member>)
    requires k <= |text|
    ensures Agrees(MemberAt(text[k..]), text, r)
    decreases |text| - k, 3
  {
    hide ValueAt, StringAt, Skip;
    var name := ParseString(text, k);
    match name {
      case Fails => return Fails;
      case Beyond => return Beyond;
      case Read(str, next) =>
        assert next > k;
        var value := SkipWhite(text, next);
        if At(text, value) != ':' {
          return Fails;
        }
        Suffixes(text, value);
        value := SkipWhite(text, value + 1);
        var child := ParseValue(text, value);
        match child {
          case Read(v, next') => r := Read(Member(str, v), next');
          case Fails => r := Fails;
          case Beyond => r := Beyond;
        }
    }
  }

  lemma AfterMemberAt(text: string, k: nat, members: seq<Member>)
    requires k <= |text|
    ensures AfterMember(members, text[k..]) ==
            if At(text, k) == ',' then MembersAt(members, Skip(text[k + 1..]))
            else if At(text, k) == '}' then Parsed(Object(members), text[k + 1..])
            else Malformed
  {
    hide MembersAt, Skip;
    if k < |text| {
      Suffixes(text, k);
    }
  }

  // A new member at the end of the list.
  method ParseNext(text: string, k: nat, members: seq<Member>) returns (r: Read<seq<Member>>)
    requires k <= |text|
    ensures r.Read? ==> k < r.next <= |text| && MembersAt(members, text[k..]) == AfterMember(r.value, text[r.next..])
    ensures r.Fails? ==> MembersAt(members, text[k..]) == Malformed
    ensures r.Beyond? ==> MembersAt(members, text[k..]) == Outside
    decreases |text| - k, 4
  {
    hide MemberAt, MembersAt, AfterMember, Skip;
    NextMember(members, text[k..]);
    var child := ParseMember(text, k);
    match child {
      case Read(v, next) =>
        assert |text[next..]| < |text[k..]|;
        var value := SkipWhite(text, next);
        r := Read(members + [v], value);
      case Fails => r := Fails;
      case Beyond => r := Beyond;
    }
  }

  method ParseObject(text: string, k: nat) returns (r: Read<Value>)
    requires k < |text| && text[k] == '{'
    ensures Agrees(ValueAt(text[k..]), text, r)
    decreases |text| - k, 1
  {
    hide ValueAt, MembersAt, AfterMember, Skip;
    ghost var s := text[k..];
    Suffixes(text, k);
    var value := SkipWhite(text, k + 1);
    ValueObject(s, text[value..]);
    if At(text, value) == '}' {
      Suffixes(text, value);
      return Read(Object([]), value + 1);
    }
    SkipTwice(text[k + 1..]);
    value := SkipWhite(text, value);
    var members := ParseNext(text, value, []);
    while members.Read? && At(text, members.next) == ','
      invariant members.Read? ==>
        k < members.next <= |text| && ValueAt(s) == AfterMember(members.value, text[members.next..])
      invariant members.Fails? ==> ValueAt(s) == Malformed
      invariant members.Beyond? ==> ValueAt(s) == Outside
      decreases if members.Read? then |text| + 1 - members.next else 0
    {
      AfterMemberAt(text, members.next, members.value);
      value := SkipWhite(text, members.next + 1);
      members := ParseNext(text, value, members.value);
    }
    match members {
      case Fails => r := Fails;
      case Beyond => r := Beyond;
      case Read(list, next) =>
        AfterMemberAt(text, next, list);
        r := if At(text, next) == '}' then Read(Object(list), next + 1) else Fails;
    }
  }

  // cJSON_ParseWithOpts
  method Parse(text: string, requireEnd: bool) returns (r: Read<Value>)
    ensures Agrees(Document(text, requireEnd), text, r)
  {
    hide ValueAt, Skip;
    assert text[0..] == text;
    var value := SkipWhite(text, 0);
    var c := ParseValue(text, value);
    if !c.Read? {
      return c;
    }
    var end := c.next;
    if requireEnd {
      end := SkipWhite(text, end);
      if end < |text| {
        return Fails;
      }
    }
    r := Read(c.value, end);
  }
}
