// buffer.c: the percent coding of section 2.1 of RFC 3986 and the other encodings of
// buffer_append_string_encoded, and the decoder that works in place.

module UrlCoding {
  import opened Buffers
  import opened Texts

  datatype Encoding = RelUri | RelUriPart | Html | MinimalXml | Hex | HttpHeader

  predicate IsBytes(s: string) {
    forall k :: 0 <= k < |s| ==> s[k] as int < 256
  }

  predicate Alphanumeric(c: char) {
    '0' <= c <= '9' || 'A' <= c <= 'Z' || 'a' <= c <= 'z'
  }

  // The two tables for URIs differ in '/' only. They leave '~' alone too.
  predicate Unreserved(c: char) {
    Alphanumeric(c) || c in "!()*-._~"
  }

  predicate Markup(c: char) {
    c as int < 32 || c as int == 127 || c in "\"&'<>`"
  }

  // The tables: whether a byte is encoded.
  predicate MustEncode(encoding: Encoding, c: char) {
    match encoding
    case RelUri => !Unreserved(c) && c != '/'
    case RelUriPart => !Unreserved(c)
    case Html => Markup(c) || c as int >= 128
    case MinimalXml => Markup(c)
    case Hex => true
    case HttpHeader => c == '\n'
  }

  function HexPair(c: char): (s: string)
    requires c as int < 256
    ensures |s| == 2
  {
    [HexChar(c as int / 16), HexChar(c as int % 16)]
  }

  // What one byte becomes.
  function Coded(encoding: Encoding, c: char): string
    requires c as int < 256
  {
    if !MustEncode(encoding, c) then [c]
    else match encoding
      case RelUri => "%" + HexPair(c)
      case RelUriPart => "%" + HexPair(c)
      case Html => "&#x" + HexPair(c) + ";"
      case MinimalXml => "&#x" + HexPair(c) + ";"
      case Hex => HexPair(c)
      case HttpHeader => [c, '\t']
  }

  function Encoded(encoding: Encoding, s: string): string
    requires IsBytes(s)
  {
    if s == "" then "" else Encoded(encoding, s[..|s| - 1]) + Coded(encoding, s[|s| - 1])
  }

  lemma {:induction false} EncodedAppend(encoding: Encoding, a: string, b: string)
    requires IsBytes(a) && IsBytes(b)
    ensures IsBytes(a + b) && Encoded(encoding, a + b) == Encoded(encoding, a) + Encoded(encoding, b)
  {
    hide Coded;
    if b == "" {
      assert a + b == a;
    } else {
      assert (a + b)[..|a + b| - 1] == a + b[..|b| - 1];
      EncodedAppend(encoding, a, b[..|b| - 1]);
    }
  }

  lemma EncodedNext(encoding: Encoding, s: string, k: nat)
    requires IsBytes(s) && k < |s|
    ensures IsBytes(s[..k]) && IsBytes(s[..k + 1])
    ensures Encoded(encoding, s[..k + 1]) == Encoded(encoding, s[..k]) + Coded(encoding, s[k])
    ensures |Encoded(encoding, s[..k + 1])| <= |Encoded(encoding, s)|
  {
    hide Coded;
    assert s[..k + 1][..k] == s[..k];
    assert s == s[..k + 1] + s[k + 1..];
    EncodedAppend(encoding, s[..k + 1], s[k + 1..]);
  }

  // ---- buffer_append_string_encoded ----

  // The counting pass.
  method Count(encoding: Encoding, s: string) returns (len: nat)
    requires IsBytes(s)
    ensures len == |Encoded(encoding, s)|
  {
    hide MustEncode, HexPair;
    len := 0;
    var ndx: nat := 0;
    while ndx < |s|
      invariant ndx <= |s| && len == |Encoded(encoding, s[..ndx])|
    {
      EncodedNext(encoding, s, ndx);
      if MustEncode(encoding, s[ndx]) {
        match encoding {
          case RelUri => len := len + 3;
          case RelUriPart => len := len + 3;
          case Html => len := len + 6;
          case MinimalXml => len := len + 6;
          case HttpHeader => len := len + 2;
          case Hex => len := len + 2;
        }
      } else {
        len := len + 1;
      }
      ndx := ndx + 1;
    }
    assert s[..|s|] == s;
  }

  // x was written at position p, and nothing else.
  ghost predicate Filled(before: string, p: nat, x: string, after: string) {
    p + |x| <= |before| && after == before[..p] + x + before[p + |x|..]
  }

  lemma FilledNext(before: string, p: nat, x: string, now: string, c: char)
    requires Filled(before, p, x, now) && p + |x| < |now|
    ensures Filled(before, p, x + [c], now[p + |x| := c])
  {
  }

  lemma FilledAll(before: string, start: nat, x: string, after: string)
    requires Filled(before, start, x, after) && start + |x| < |before|
    ensures after[..start + |x|] == before[..start] + x && after[start + |x|] == before[start + |x|]
      && |after| == |before|
  {
  }

  method PutChar(d: array<char>, end: nat, c: char, ghost before: string, ghost start: nat, ghost x: string)
    returns (end': nat)
    requires Filled(before, start, x, d[..]) && end == start + |x| < d.Length
    modifies d
    ensures end' == end + 1 && Filled(before, start, x + [c], d[..])
  {
    hide Filled;
    FilledNext(before, start, x, d[..], c);
    ghost var now := d[..];
    d[end] := c;
    assert d[..] == now[end := c];
    end' := end + 1;
  }

  method PutHex(d: array<char>, end: nat, c: char, ghost before: string, ghost start: nat, ghost x: string)
    returns (end': nat)
    requires c as int < 256 && Filled(before, start, x, d[..]) && end == start + |x| && end + 2 <= d.Length
    modifies d
    ensures end' == end + 2 && Filled(before, start, x + HexPair(c), d[..])
  {
    hide Filled, HexChar;
    end' := PutChar(d, end, HexChar(c as int / 16), before, start, x);
    end' := PutChar(d, end', HexChar(c as int % 16), before, start, x + [HexChar(c as int / 16)]);
    assert x + [HexChar(c as int / 16)] + [HexChar(c as int % 16)] == x + HexPair(c);
  }

  // The switch of the fill pass.
  method Put(d: array<char>, end: nat, encoding: Encoding, c: char, ghost before: string, ghost start: nat,
             ghost x: string)
    returns (end': nat)
    requires c as int < 256 && Filled(before, start, x, d[..]) && end == start + |x|
      && end + |Coded(encoding, c)| <= d.Length
    modifies d
    ensures end' == end + |Coded(encoding, c)| && Filled(before, start, x + Coded(encoding, c), d[..])
  {
    hide MustEncode, HexPair, Filled;
    if !MustEncode(encoding, c) {
      end' := PutChar(d, end, c, before, start, x);
    } else {
      match encoding {
        case RelUri | RelUriPart =>
          end' := PutChar(d, end, '%', before, start, x);
          end' := PutHex(d, end', c, before, start, x + "%");
          assert x + "%" + HexPair(c) == x + ("%" + HexPair(c));
        case Html | MinimalXml =>
          end' := PutChar(d, end, '&', before, start, x);
          end' := PutChar(d, end', '#', before, start, x + "&");
          end' := PutChar(d, end', 'x', before, start, x + "&" + "#");
          end' := PutHex(d, end', c, before, start, x + "&" + "#" + "x");
          end' := PutChar(d, end', ';', before, start, x + "&" + "#" + "x" + HexPair(c));
          assert x + "&" + "#" + "x" + HexPair(c) + ";" == x + ("&#x" + HexPair(c) + ";");
        case Hex =>
          end' := PutHex(d, end, c, before, start, x);
        case HttpHeader =>
          end' := PutChar(d, end, c, before, start, x);
          end' := PutChar(d, end', '\t', before, start, x + [c]);
          assert x + [c] + "\t" == x + [c, '\t'];
      }
    }
  }

  // The fill pass writes exactly the characters the counting pass made room for.
  method Fill(d: array<char>, start: nat, encoding: Encoding, s: string, ghost len: nat)
    requires IsBytes(s) && len == |Encoded(encoding, s)| && start + len < d.Length
    modifies d
    ensures d[..start + len] == old(d[..start]) + Encoded(encoding, s) && d[start + len] == old(d[start + len])
  {
    hide Coded, Encoded, Filled;
    ghost var before := d[..];
    var end, ndx: nat := start, 0;
    EncodedEmpty(encoding, s[..0]);
    NothingFilled(before, start);
    while ndx < |s|
      invariant ndx <= |s| && IsBytes(s[..ndx]) && end == start + |Encoded(encoding, s[..ndx])|
      invariant Filled(before, start, Encoded(encoding, s[..ndx]), d[..])
    {
      EncodedNext(encoding, s, ndx);
      end := Put(d, end, encoding, s[ndx], before, start, Encoded(encoding, s[..ndx]));
      ndx := ndx + 1;
    }
    assert s[..|s|] == s;
    FilledAll(before, start, Encoded(encoding, s), d[..]);
  }

  method Append(b: Buffer, s: string, encoding: Encoding)
    requires b.Valid() && IsBytes(s)
    modifies b, b.ptr
    ensures b.Valid() && b.Contents() == old(b.Contents()) + Encoded(encoding, s)
  {
    hide Encoded, IsBytes;
    if |s| == 0 {
      EncodedEmpty(encoding, s);
      return;
    }
    var dLen := Count(encoding, s);
    b.PrepareAppend(dLen);
    ghost var first := b.Contents();
    var start := b.used - 1;
    b.Commit(dLen);
    assert b.ptr[..start] == b.Contents()[..start] == first;
    Fill(b.ptr, start, encoding, s, dLen);
  }

  lemma EncodedEmpty(encoding: Encoding, s: string)
    requires s == ""
    ensures Encoded(encoding, s) == ""
  {
  }

  lemma NothingFilled(before: string, start: nat)
    requires start <= |before|
    ensures Filled(before, start, "", before)
  {
    assert before == before[..start] + "" + before[start..];
  }

  // ---- buffer_urldecode_internal ----

  predicate IsHex(c: char) {
    '0' <= c <= '9' || 'a' <= c <= 'f' || 'A' <= c <= 'F'
  }

  // Arithmetic on unsigned char.
  function Hex2Int(c: char): (r: nat)
    requires c as int < 256
    ensures r < 16 || r == 255
    ensures r < 16 <==> IsHex(c)
  {
    var value := (c as int - '0' as int) % 256;
    if value > 9 then
      var lower := if c as int / 32 % 2 == 1 then c as int else c as int + 32;
      var letter := (lower - 'a' as int + 10) % 256;
      if letter < 10 || letter > 15 then 255 else letter
    else value
  }

  lemma HexBack(v: nat)
    requires v < 16
    ensures HexChar(v) as int < 256 && Hex2Int(HexChar(v)) == v
  {
  }

  // The digits in both cases, and nothing else.
  lemma HexTable(c: char, v: nat)
    requires c as int < 256 && v < 16
    ensures Hex2Int(c) == v <==> c == "0123456789abcdef"[v] || c == "0123456789ABCDEF"[v]
  {
    HexAgrees(c);
    DigitTable(c, v);
    hide Hex2Int, DigitValue;
  }

  lemma HexAgrees(c: char)
    requires c as int < 256
    ensures Hex2Int(c) == if DigitValue(c) < 16 then DigitValue(c) else 255
  {
  }

  // Control characters are mapped out.
  function Printable(c: char): char {
    if c as int < 32 || c as int == 127 then '_' else c
  }

  predicate Escape(s: string)
    requires IsBytes(s)
  {
    |s| >= 3 && s[0] == '%' && IsHex(s[1]) && IsHex(s[2])
  }

  // The text up to its first zero, with every well-formed escape replaced.
  function Decoded(s: string, query: bool): string
    requires IsBytes(s)
  {
    if s == "" || s[0] == '\0' then ""
    else if query && s[0] == '+' then " " + Decoded(s[1..], query)
    else if Escape(s) then [Printable((Hex2Int(s[1]) * 16 + Hex2Int(s[2])) as char)] + Decoded(s[3..], query)
    else [s[0]] + Decoded(s[1..], query)
  }

  // What each beginning of a text gives: an escape, its digits in either case, is one byte, or an
  // underscore instead of a control character; in a query a plus is a space; a zero ends the
  // text, and everything else stays.
  lemma DecodeMeans(c: char, v: nat, w: nat, high: char, low: char, s: string, query: bool)
    requires c as int < 256 && high as int < 256 && low as int < 256 && IsBytes(s) && v < 16 && w < 16
    requires high == "0123456789abcdef"[v] || high == "0123456789ABCDEF"[v]
    requires low == "0123456789abcdef"[w] || low == "0123456789ABCDEF"[w]
    ensures var byte := 16 * v + w;
            Decoded(['%', high, low] + s, query) ==
            [if byte < 32 || byte == 127 then '_' else byte as char] + Decoded(s, query)
    ensures Decoded("+" + s, query) == (if query then " " else "+") + Decoded(s, query)
    ensures c != '%' && c != '+' && c != '\0' ==> Decoded([c] + s, query) == [c] + Decoded(s, query)
    ensures Decoded("%" + s, query) == "%" + Decoded(s, query) <== |s| < 2 || Hex2Int(s[0]) > 15 || Hex2Int(s[1]) > 15
    ensures Decoded("\0" + s, query) == ""
  {
    HexTable(high, v);
    HexTable(low, w);
    hide Hex2Int;
    var t := ['%', high, low] + s;
    assert t[0] == '%' && t[1] == high && t[2] == low && t[3..] == s;
    assert ([c] + s)[0] == c && ([c] + s)[1..] == s && ("+" + s)[1..] == s && ("%" + s)[1..] == s;
    assert |s| >= 2 ==> ("%" + s)[1] == s[0] && ("%" + s)[2] == s[1];
  }

  // out is what has been written; the rest of the goal is still to be decoded.
  ghost predicate Toward(goal: string, out: string, s: string, src: nat, query: bool) {
    src <= |s| && IsBytes(s[src..]) && goal == out + Decoded(s[src..], query)
  }

  lemma TowardPlain(goal: string, out: string, s: string, src: nat, query: bool, c: char)
    requires Toward(goal, out, s, src, query) && At(s, src) != '\0' && !Escape(s[src..])
    requires c == if query && At(s, src) == '+' then ' ' else At(s, src)
    ensures Toward(goal, out + [c], s, src + 1, query)
  {
    DecodedPlain(s[src..], query);
    hide Decoded, Escape;
    assert s[src..][1..] == s[src + 1..];
    Associate(out, [c], Decoded(s[src + 1..], query));
  }

  lemma DecodedPlain(s: string, query: bool)
    requires IsBytes(s) && s != "" && s[0] != '\0' && !Escape(s)
    ensures Decoded(s, query) == [if query && s[0] == '+' then ' ' else s[0]] + Decoded(s[1..], query)
  {
    hide Escape, Printable, Hex2Int;
  }

  lemma TowardEscape(goal: string, out: string, s: string, src: nat, query: bool)
    requires Toward(goal, out, s, src, query) && Escape(s[src..])
    ensures Toward(goal, out + [Printable((Hex2Int(s[src + 1]) * 16 + Hex2Int(s[src + 2])) as char)], s, src + 3, query)
  {
    hide Hex2Int, Printable;
    var c := Printable((Hex2Int(s[src + 1]) * 16 + Hex2Int(s[src + 2])) as char);
    assert s[src..][3..] == s[src + 3..];
    assert (out + [c]) + Decoded(s[src + 3..], query) == out + ([c] + Decoded(s[src + 3..], query));
  }

  lemma TowardEnd(goal: string, out: string, s: string, src: nat, query: bool)
    requires Toward(goal, out, s, src, query) && At(s, src) == '\0'
    ensures goal == out
  {
    assert out + "" == out;
  }

  method SkipPlain(url: array<char>, ghost s: string, query: bool) returns (src: nat)
    requires IsBytes(s) && Unread(url[..], s, 0)
    modifies url
    ensures src <= |s| && Unread(url[..], s, src) && Toward(Decoded(s, query), url[..src], s, src, query)
  {
    hide Decoded, IsHex, Toward;
    src := 0;
    TowardStart(s, query);
    assert url[..0] == "";
    while url[src] != '\0'
      invariant src <= |s| && Unread(url[..], s, src) && Toward(Decoded(s, query), url[..src], s, src, query)
      decreases |s| - src
    {
      if url[src] == '%' {
        break;
      }
      TowardPlain(Decoded(s, query), url[..src], s, src, query, if query && At(s, src) == '+' then ' ' else At(s, src));
      ghost var out := url[..src];
      if query && url[src] == '+' {
        url[src] := ' ';
      }
      assert url[..src + 1] == out + [url[src]];
      src := src + 1;
    }
  }

  lemma TowardStart(s: string, query: bool)
    requires IsBytes(s)
    ensures Toward(Decoded(s, query), "", s, 0, query)
  {
    assert s[0..] == s && "" + Decoded(s, query) == Decoded(s, query);
  }

  // The character that takes the place of a '%', and how many more are used up.
  method ReadEscape(url: array<char>, ghost s: string, src: nat) returns (c: char, skip: nat)
    requires IsBytes(s) && src < |s| && s[src] == '%' && Unread(url[..], s, src)
    ensures Escape(s[src..]) ==>
      skip == 2 && src + 2 < |s| && c == Printable((Hex2Int(s[src + 1]) * 16 + Hex2Int(s[src + 2])) as char)
    ensures !Escape(s[src..]) ==> skip == 0 && c == '%'
  {
    hide Printable;
    c, skip := '%', 0;
    assert url[src + 1] == url[..][src + 1] == At(s, src + 1);
    var high := Hex2Int(url[src + 1]);
    if high != 255 {
      assert src + 1 < |s| && url[src + 2] == url[..][src + 2] == At(s, src + 2);
      var low := Hex2Int(url[src + 2]);
      if low != 255 {
        c, skip := Printable((high * 16 + low) as char), 2;
      }
    }
  }

  // The second loop: the output stays behind the input in the same array.
  method Squeeze(url: array<char>, ghost s: string, query: bool, from: nat) returns (dst: nat)
    requires IsBytes(s) && Unread(url[..], s, from) && from <= |s|
      && Toward(Decoded(s, query), url[..from], s, from, query)
    modifies url
    ensures dst <= |s| && url[..dst] == Decoded(s, query)
  {
    hide Decoded, Escape, Hex2Int, Toward, Printable;
    var src := from;
    dst := from;
    while url[src] != '\0'
      invariant dst <= src <= |s| && Unread(url[..], s, src) && Toward(Decoded(s, query), url[..dst], s, src, query)
      decreases |s| - src
    {
      ghost var out := url[..dst];
      var c, skip := url[src], 0;
      assert url[..][src] == At(s, src);
      if query && c == '+' {
        c := ' ';
        PlusIsPlain(s[src..]);
        TowardPlain(Decoded(s, query), out, s, src, query, c);
      } else if c == '%' {
        c, skip := ReadEscape(url, s, src);
        if Escape(s[src..]) {
          TowardEscape(Decoded(s, query), out, s, src, query);
        } else {
          TowardPlain(Decoded(s, query), out, s, src, query, c);
        }
      } else {
        PlusIsPlain(s[src..]);
        TowardPlain(Decoded(s, query), out, s, src, query, c);
      }
      url[dst] := c;
      src := src + skip + 1;
      dst := dst + 1;
      assert url[..dst] == out + [c];
    }
    assert url[..][src] == At(s, src);
    TowardEnd(Decoded(s, query), url[..dst], s, src, query);
  }

  lemma PlusIsPlain(s: string)
    requires IsBytes(s) && s != "" && s[0] != '%'
    ensures !Escape(s)
  {
  }

  // Path (query is false) and query decoding, in place.
  method Decode(url: Buffer, query: bool)
    requires url.Valid() && IsBytes(url.Contents())
    modifies url, url.ptr
    ensures url.Valid() && url.ptr == old(url.ptr) && url.Contents() == Decoded(old(url.Contents()), query)
  {
    hide Hex2Int, Printable, Escape;
    ghost var s := url.Contents();
    if url.used < 2 {
      return;
    }
    var src := SkipPlain(url.ptr, s, query);
    var dst := Squeeze(url.ptr, s, query, src);
    ghost var out := url.ptr[..dst];
    url.ptr[dst] := '\0';
    url.used := dst + 1;
    assert url.ptr[..dst] == out;
  }

  // ---- what the encodings are for ----

  ghost predicate Uri(encoding: Encoding) {
    encoding.RelUri? || encoding.RelUriPart?
  }

  lemma CodedBack(encoding: Encoding, c: char, rest: string, query: bool)
    requires Uri(encoding) && c as int < 256 && IsBytes(rest)
    ensures IsBytes(Coded(encoding, c) + rest)
    ensures Decoded(Coded(encoding, c) + rest, query) == [Printable(c)] + Decoded(rest, query)
  {
    var t := Coded(encoding, c) + rest;
    if MustEncode(encoding, c) {
      hide MustEncode, Printable;
      HexBack(c as int / 16);
      HexBack(c as int % 16);
      hide HexChar, Hex2Int;
      assert t[0] == '%' && t[1] == HexChar(c as int / 16) && t[2] == HexChar(c as int % 16) && t[3..] == rest;
      assert (c as int / 16 * 16 + c as int % 16) as char == c;
    } else {
      assert t[0] == c && t[1..] == rest;
    }
  }

  // Decoding inverts both URI encodings, except that control characters are mapped out.
  lemma {:induction false} RoundTrip(encoding: Encoding, s: string, query: bool)
    requires Uri(encoding) && IsBytes(s)
    ensures IsBytes(Encoded(encoding, s))
    ensures var d := Decoded(Encoded(encoding, s), query);
            |d| == |s| && forall k :: 0 <= k < |s| ==>
              d[k] == if s[k] as int < 32 || s[k] as int == 127 then '_' else s[k]
  {
    hide Coded;
    if s != "" {
      RoundTrip(encoding, s[1..], query);
      EncodedFirst(encoding, s);
      CodedBack(encoding, s[0], Encoded(encoding, s[1..]), query);
    }
  }

  lemma EncodedFirst(encoding: Encoding, s: string)
    requires IsBytes(s) && s != ""
    ensures Encoded(encoding, s) == Coded(encoding, s[0]) + Encoded(encoding, s[1..])
  {
    hide Coded;
    assert s == s[..1] + s[1..] && s[..1][..0] == "";
    EncodedAppend(encoding, s[..1], s[1..]);
  }

  // A character that may stand in an encoded URI.
  predicate UriChar(c: char) {
    Unreserved(c) || c == '/' || c == '%'
  }

  lemma {:induction false} UriIsSafe(encoding: Encoding, s: string, k: nat)
    requires Uri(encoding) && IsBytes(s) && k < |Encoded(encoding, s)|
    ensures UriChar(Encoded(encoding, s)[k])
  {
    var first := Encoded(encoding, s[..|s| - 1]);
    if k < |first| {
      UriIsSafe(encoding, s[..|s| - 1], k);
    } else {
      CodedIsSafe(encoding, s[|s| - 1], k - |first|);
    }
  }

  lemma CodedIsSafe(encoding: Encoding, c: char, k: nat)
    requires Uri(encoding) && c as int < 256 && k < |Coded(encoding, c)|
    ensures UriChar(Coded(encoding, c)[k])
  {
  }

  // An encoded header value cannot begin a new header: a tab follows every line feed.
  lemma {:induction false} HeaderFolded(s: string, k: nat)
    requires IsBytes(s) && k < |Encoded(HttpHeader, s)| && Encoded(HttpHeader, s)[k] == '\n'
    ensures k + 1 < |Encoded(HttpHeader, s)| && Encoded(HttpHeader, s)[k + 1] == '\t'
  {
    if k < |Encoded(HttpHeader, s[..|s| - 1])| {
      HeaderFolded(s[..|s| - 1], k);
    }
  }

  // ---- the tables, and the other encodings read back ----

  // The tables by byte values.
  lemma ByteTables(c: char)
    requires c as int < 256
    ensures var n := c as int;
            var kept := 0x30 <= n <= 0x39 || 0x41 <= n <= 0x5A || 0x61 <= n <= 0x7A
                        || n in {0x21, 0x28, 0x29, 0x2A, 0x2D, 0x2E, 0x5F, 0x7E};
            var markup := n < 0x20 || n == 0x7F || n in {0x22, 0x26, 0x27, 0x3C, 0x3E, 0x60};
            && (MustEncode(RelUriPart, c) <==> !kept) && (MustEncode(RelUri, c) <==> !kept && n != 0x2F)
            && (MustEncode(MinimalXml, c) <==> markup) && (MustEncode(Html, c) <==> markup || n >= 0x80)
            && MustEncode(Hex, c) && (MustEncode(HttpHeader, c) <==> n == 0x0A)
  {
  }

  // The byte of two hexadecimal digits.
  function HexByte(high: char, low: char): char
    requires high as int < 256 && low as int < 256 && IsHex(high) && IsHex(low)
  {
    (16 * Hex2Int(high) + Hex2Int(low)) as char
  }

  // What a reader makes of the text: numeric character references in HTML and XML, pairs of
  // digits, and folded lines in a header.
  function ReadBack(encoding: Encoding, s: string): string
    requires IsBytes(s)
  {
    if s == "" then ""
    else if (encoding.Html? || encoding.MinimalXml?) && Reference(s) then
      [HexByte(s[3], s[4])] + ReadBack(encoding, s[6..])
    else if encoding.Hex? && |s| >= 2 && IsHex(s[0]) && IsHex(s[1]) then
      [HexByte(s[0], s[1])] + ReadBack(encoding, s[2..])
    else if encoding.HttpHeader? && "\n\t" <= s then "\n" + ReadBack(encoding, s[2..])
    else [s[0]] + ReadBack(encoding, s[1..])
  }

  predicate Reference(s: string)
    requires IsBytes(s)
  {
    |s| >= 6 && s[0] == '&' && s[1] == '#' && s[2] == 'x' && IsHex(s[3]) && IsHex(s[4]) && s[5] == ';'
  }

  lemma CodedReadsBack(encoding: Encoding, c: char, rest: string)
    requires !Uri(encoding) && c as int < 256 && IsBytes(rest)
    ensures IsBytes(Coded(encoding, c) + rest)
    ensures ReadBack(encoding, Coded(encoding, c) + rest) == [c] + ReadBack(encoding, rest)
  {
    var t := Coded(encoding, c) + rest;
    var high, low := HexChar(c as int / 16), HexChar(c as int % 16);
    HexBack(c as int / 16);
    HexBack(c as int % 16);
    assert (16 * (c as int / 16) + c as int % 16) as char == c;
    hide HexChar, Hex2Int, IsHex;
    if !MustEncode(encoding, c) {
      assert t[0] == c && t[1..] == rest;
    } else if encoding.Html? || encoding.MinimalXml? {
      assert t == "&#x" + [high, low] + ";" + rest && t[6..] == rest;
      assert t[0] == '&' && t[1] == '#' && t[2] == 'x' && t[3] == high && t[4] == low && t[5] == ';';
    } else {
      assert t[2..] == rest && (encoding.Hex? ==> t[0] == high && t[1] == low);
    }
  }

  // Nothing is lost in any of these encodings.
  lemma {:induction false} ReadsBack(encoding: Encoding, s: string)
    requires !Uri(encoding) && IsBytes(s)
    ensures IsBytes(Encoded(encoding, s)) && ReadBack(encoding, Encoded(encoding, s)) == s
  {
    hide Coded, ReadBack;
    if s == "" {
      assert ReadBack(encoding, "") == "" by {
        NothingReadBack(encoding);
      }
    } else {
      ReadsBack(encoding, s[1..]);
      EncodedFirst(encoding, s);
      CodedReadsBack(encoding, s[0], Encoded(encoding, s[1..]));
      assert [s[0]] + s[1..] == s;
    }
  }

  lemma NothingReadBack(encoding: Encoding)
    ensures ReadBack(encoding, "") == ""
  {
  }

  // What HTML and XML encodings keep out of the text. An ampersand only begins a reference.
  predicate MarkupFree(encoding: Encoding, s: string, k: nat)
    requires k < |s|
  {
    && s[k] !in "<>\"'`" && s[k] as int >= 32 && s[k] as int != 127
    && (s[k] == '&' ==> "&#x" <= s[k..])
    && (encoding.Html? ==> s[k] as int < 128)
  }

  lemma {:induction false} MarkupIsSafe(encoding: Encoding, s: string, k: nat)
    requires (encoding.Html? || encoding.MinimalXml?) && IsBytes(s) && k < |Encoded(encoding, s)|
    ensures MarkupFree(encoding, Encoded(encoding, s), k)
  {
    var e, rest := Encoded(encoding, s), Encoded(encoding, s[1..]);
    var first := Coded(encoding, s[0]);
    EncodedFirst(encoding, s);
    if k < |first| {
      CodedIsMarkupFree(encoding, s[0], k);
      hide Coded;
      assert e[k] == first[k] && first[k..] <= e[k..];
    } else {
      MarkupIsSafe(encoding, s[1..], k - |first|);
      hide Coded;
      assert e[k] == rest[k - |first|] && e[k..] == rest[k - |first|..];
    }
  }

  lemma CodedIsMarkupFree(encoding: Encoding, c: char, k: nat)
    requires (encoding.Html? || encoding.MinimalXml?) && c as int < 256 && k < |Coded(encoding, c)|
    ensures MarkupFree(encoding, Coded(encoding, c), k)
  {
  }
}
