// cJSON.c: what the parser makes of a text. Text is a C string without its zero; what a
// pointer into it points at is a suffix.

module JsonGrammar {
  import opened Json
  import opened Texts

  // Malformed: the source gives up. Outside: the text has a number that takes floating
  // point, or ends within an escape; such texts are not modelled.
  datatype Outcome<T> = Parsed(value: T, rest: string) | Malformed | Outside

  predicate Starts(s: string, c: char) {
    s != "" && s[0] == c
  }

  predicate StartsDigit(s: string) {
    s != "" && IsDigit(s[0])
  }

  // skip
  function Skip(s: string): (r: string)
    ensures |r| <= |s| && (r != "" ==> r[0] as int > 32)
  {
    if s != "" && s[0] as int <= 32 then Skip(s[1..]) else s
  }

  // ---- numbers ----

  function Run(s: string): (k: nat)
    ensures k <= |s| && (forall i :: 0 <= i < k ==> IsDigit(s[i])) && !StartsDigit(s[k..])
  {
    if StartsDigit(s) then 1 + Run(s[1..]) else 0
  }

  function Digit(c: char): nat
    requires IsDigit(c)
  {
    (c - '0') as nat
  }

  function Natural(d: string): nat
    requires forall i :: 0 <= i < |d| ==> IsDigit(d[i])
  {
    if d == "" then 0 else 10 * Natural(d[..|d| - 1]) + Digit(d[|d| - 1])
  }

  // Up to here a double holds every integer.
  const EXACT: nat := 0x20_0000_0000_0000

  predicate Fractional(s: string) {
    Starts(s, 'e') || Starts(s, 'E') || (Starts(s, '.') && StartsDigit(s[1..]))
  }

  // The digits of a number: a leading zero stands alone or before others.
  function NumberAt(s: string): (r: Outcome<Value>)
    requires Starts(s, '-') || StartsDigit(s)
    ensures r.Parsed? ==> |r.rest| < |s|
  {
    var s1 := if s[0] == '-' then s[1..] else s;
    var s2 := if Starts(s1, '0') then s1[1..] else s1;
    var k := if Starts(s2, '0') then 0 else Run(s2);
    var n := Natural(s2[..k]);
    if Fractional(s2[k..]) || n > EXACT then Outside
    else Parsed(Number(if s[0] == '-' then 0 - (n as int) else n), s2[k..])
  }

  // The parts of a number: the sign, one zero, the digits d and the rest.
  lemma NumberParts(s: string, s1: string, s2: string, d: string, rest: string)
    requires s != "" && (s[0] == '-' || IsDigit(s[0])) && s1 == if s[0] == '-' then s[1..] else s
    requires s2 == if Starts(s1, '0') then s1[1..] else s1
    requires s2 == d + rest && |d| == if Starts(s2, '0') then 0 else Run(s2)
    ensures Starts(s, '-') || StartsDigit(s)
    ensures var n := Natural(d);
            NumberAt(s) == if Fractional(rest) || n > EXACT then Outside
                           else Parsed(Number(if s[0] == '-' then 0 - (n as int) else n), rest)
  {
    hide Run, Natural, Fractional;
    assert s2[..|d|] == d && s2[|d|..] == rest;
  }

  // ---- strings ----

  function HexValue(c: char): (r: nat)
    ensures r < 16 || r == 16
  {
    if '0' <= c <= '9' then (c - '0') as nat
    else if 'A' <= c <= 'F' then 10 + (c - 'A') as nat
    else if 'a' <= c <= 'f' then 10 + (c - 'a') as nat
    else 16
  }

  predicate IsHex(s: string) {
    |s| >= 4 && HexValue(s[0]) < 16 && HexValue(s[1]) < 16 && HexValue(s[2]) < 16 && HexValue(s[3]) < 16
  }

  // parse_hex4
  function Hex4(s: string): (h: nat)
    ensures h < 0x1_0000
  {
    if IsHex(s) then ((HexValue(s[0]) * 16 + HexValue(s[1])) * 16 + HexValue(s[2])) * 16 + HexValue(s[3]) else 0
  }

  // The bytes of a code point, as section 3 of RFC 3629 gives them.
  function Utf8(u: nat): (s: string)
    requires u < 0x11_0000
    ensures 1 <= |s| <= 4
  {
    if u < 0x80 then [u as char]
    else if u < 0x800 then [(0xC0 + u / 64) as char, (0x80 + u % 64) as char]
    else if u < 0x1_0000 then [(0xE0 + u / 4096) as char, (0x80 + u / 64 % 64) as char, (0x80 + u % 64) as char]
    else [(0xF0 + u / 262144) as char, (0x80 + u / 4096 % 64) as char,
          (0x80 + u / 64 % 64) as char, (0x80 + u % 64) as char]
  }

  // What a \u escape stands for; s starts behind the u.
  function Unicode(s: string): (r: Outcome<string>)
    ensures r.Parsed? ==> |r.rest| < |s|
  {
    var u := Hex4(s);
    if u == 0 || 0xDC00 <= u <= 0xDFFF then Malformed
    else if u < 0xD800 || u > 0xDFFF then Parsed(Utf8(u), s[4..])
    else if !(|s| >= 6 && s[4] == '\\' && s[5] == 'u') then Malformed
    else
      var u2 := Hex4(s[6..]);
      if 0xDC00 <= u2 <= 0xDFFF then Parsed(Utf8(0x1_0000 + u % 1024 * 1024 + u2 % 1024), s[10..]) else Malformed
  }

  function Unescape(c: char): char {
    if c == 'b' then BACKSPACE
    else if c == 'f' then FORM_FEED
    else if c == 'n' then '\n'
    else if c == 'r' then '\r'
    else if c == 't' then '\t'
    else c
  }

  function Then(c: string, r: Outcome<string>): (o: Outcome<string>)
    ensures o.Parsed? <==> r.Parsed?
    ensures o.Parsed? ==> o.rest == r.rest && o.value == c + r.value
  {
    match r
    case Parsed(t, rest) => Parsed(c + t, rest)
    case Malformed => Malformed
    case Outside => Outside
  }

  // The source first looks for the end of the string; here it must not run off the text.
  predicate Closes(s: string) {
    s == "" || s[0] == '"' || (if s[0] == '\\' then |s| >= 2 && Closes(s[2..]) else Closes(s[1..]))
  }

  // What is behind the opening quote. A string may end with the text.
  function StringAt(s: string): (r: Outcome<string>)
    ensures r.Parsed? ==> |r.rest| <= |s|
  {
    if Closes(s) then Chars(s) else Outside
  }

  function Chars(s: string): (r: Outcome<string>)
    ensures r.Parsed? ==> |r.rest| <= |s|
  {
    if s == "" then Parsed("", "")
    else if s[0] == '"' then Parsed("", s[1..])
    else if s[0] != '\\' then Then([s[0]], Chars(s[1..]))
    else if |s| == 1 then Outside
    else if s[1] != 'u' then Then([Unescape(s[1])], Chars(s[2..]))
    else
      match Unicode(s[2..])
      case Parsed(t, rest) => Then(t, Chars(rest))
      case Malformed => Malformed
      case Outside => Outside
  }

  lemma UnicodeNoZero(s: string)
    requires '\0' !in s && Unicode(s).Parsed?
    ensures '\0' !in Unicode(s).value && '\0' !in Unicode(s).rest
  {
    hide Hex4;
  }

  // The unescaped text is a C string: a zero never ends it early.
  lemma {:induction false} NoZero(s: string)
    requires '\0' !in s && Chars(s).Parsed?
    ensures '\0' !in Chars(s).value && '\0' !in Chars(s).rest
  {
    if s != "" && s[0] != '"' {
      if s[0] != '\\' {
        NoZero(s[1..]);
      } else if s[1] != 'u' {
        NoZero(s[2..]);
      } else {
        UnicodeNoZero(s[2..]);
        NoZero(Unicode(s[2..]).rest);
      }
    }
  }

  // ---- values ----

  function AsText(r: Outcome<string>): (o: Outcome<Value>)
    ensures o.Parsed? ==> r.Parsed? && o.rest == r.rest
  {
    match r
    case Parsed(t, rest) => Parsed(Text(t), rest)
    case Malformed => Malformed
    case Outside => Outside
  }

  function ValueAt(s: string): (r: Outcome<Value>)
    ensures r.Parsed? ==> |r.rest| < |s|
    decreases |s|, 2
  {
    if "null" <= s then Parsed(Null, s[4..])
    else if "false" <= s then Parsed(False, s[5..])
    else if "true" <= s then Parsed(True, s[4..])
    else if s == "" then Malformed
    else if s[0] == '"' then AsText(StringAt(s[1..]))
    else if s[0] == '-' || IsDigit(s[0]) then NumberAt(s)
    else if s[0] == '[' then
      var t := Skip(s[1..]);
      if Starts(t, ']') then Parsed(Array([]), t[1..]) else ItemsAt([], t)
    else if s[0] == '{' then
      var t := Skip(s[1..]);
      if Starts(t, '}') then Parsed(Object([]), t[1..]) else MembersAt([], t)
    else Malformed
  }

  // The next element of an array, after the given ones ...
  function ItemsAt(done: seq<Value>, s: string): (r: Outcome<Value>)
    ensures r.Parsed? ==> |r.rest| < |s|
    decreases |s|, 3
  {
    match ValueAt(s)
    case Parsed(v, rest) => AfterItem(done + [v], Skip(rest))
    case other => other
  }

  // ... and what follows it.
  function AfterItem(done: seq<Value>, s: string): (r: Outcome<Value>)
    ensures r.Parsed? ==> |r.rest| < |s|
    decreases |s|, 4
  {
    if Starts(s, ',') then ItemsAt(done, Skip(s[1..]))
    else if Starts(s, ']') then Parsed(Array(done), s[1..])
    else Malformed
  }

  function MemberAt(s: string): (r: Outcome<Member>)
    ensures r.Parsed? ==> |r.rest| < |s|
    decreases |s|, 2
  {
    if !Starts(s, '"') then Malformed
    else
      match StringAt(s[1..])
      case Malformed => Malformed
      case Outside => Outside
      case Parsed(name, rest) =>
        var t := Skip(rest);
        if !Starts(t, ':') then Malformed
        else
          match ValueAt(Skip(t[1..]))
          case Malformed => Malformed
          case Outside => Outside
          case Parsed(v, rest') => Parsed(Member(name, v), rest')
  }

  function MembersAt(done: seq<Member>, s: string): (r: Outcome<Value>)
    ensures r.Parsed? ==> |r.rest| < |s|
    decreases |s|, 3
  {
    match MemberAt(s)
    case Parsed(m, rest) => AfterMember(done + [m], Skip(rest))
    case Malformed => Malformed
    case Outside => Outside
  }

  function AfterMember(done: seq<Member>, s: string): (r: Outcome<Value>)
    ensures r.Parsed? ==> |r.rest| < |s|
    decreases |s|, 4
  {
    if Starts(s, ',') then MembersAt(done, Skip(s[1..]))
    else if Starts(s, '}') then Parsed(Object(done), s[1..])
    else Malformed
  }

  // cJSON_ParseWithOpts
  function Document(s: string, requireEnd: bool): Outcome<Value> {
    match ValueAt(Skip(s))
    case Parsed(v, rest) =>
      if !requireEnd then Parsed(v, rest) else if Skip(rest) == "" then Parsed(v, "") else Malformed
    case other => other
  }

  // The branches of parse_value.
  lemma ValueText(s: string)
    requires Starts(s, '"')
    ensures ValueAt(s) == AsText(StringAt(s[1..]))
  {
    hide StringAt;
  }

  lemma ValueArray(s: string, t: string)
    requires Starts(s, '[') && Skip(s[1..]) == t
    ensures ValueAt(s) == if Starts(t, ']') then Parsed(Array([]), t[1..]) else ItemsAt([], t)
  {
    hide ItemsAt, Skip;
  }

  lemma ValueObject(s: string, t: string)
    requires Starts(s, '{') && Skip(s[1..]) == t
    ensures ValueAt(s) == if Starts(t, '}') then Parsed(Object([]), t[1..]) else MembersAt([], t)
  {
    hide MembersAt, Skip;
  }
}
