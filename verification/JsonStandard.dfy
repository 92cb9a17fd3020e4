// The grammar of RFC 8259 as syntax trees, and the wider one that the parser accepts.

module JsonStandard {
  import opened Json
  import opened Texts
  import opened JsonGrammar
  import JsonParser

  // ---- syntax ----

  // section 7: a character as it is, an escape of two characters, or one or two UTF-16
  // code units.
  datatype Char = Unescaped(c: char) | Letter(letter: char) | Unit(hex: string) | Pair(high: string, low: string)

  // section 3: closed is false for a string that ends with the text.
  datatype Syntax =
    | NullWord
    | FalseWord
    | TrueWord
    | Numeral(minus: bool, zero: bool, digits: string)
    | Characters(chars: seq<Char>, closed: bool)
    | Elements(blank: string, items: seq<Item>)
    | Entries(blank: string, entries: seq<Entry>)

  // A value and the blanks around it.
  datatype Item = Item(before: string, value: Syntax, after: string)

  datatype Entry = Entry(before: string, name: seq<Char>, middle: string, item: Item)

  // ---- the text ----

  function CharText(x: Char): string {
    match x
    case Unescaped(c) => [c]
    case Letter(letter) => ['\\', letter]
    case Unit(hex) => ['\\', 'u'] + hex
    case Pair(high, low) => ['\\', 'u'] + high + (['\\', 'u'] + low)
  }

  function CharsText(xs: seq<Char>): string {
    if xs == [] then "" else CharText(xs[0]) + CharsText(xs[1..])
  }

  function NumeralText(minus: bool, zero: bool, digits: string): string {
    (if minus then "-" else "") + ((if zero then "0" else "") + digits)
  }

  function TextOf(t: Syntax): string
    decreases t, 0
  {
    match t
    case NullWord => "null"
    case FalseWord => "false"
    case TrueWord => "true"
    case Numeral(minus, zero, digits) => NumeralText(minus, zero, digits)
    case Characters(chars, closed) => "\"" + (CharsText(chars) + if closed then "\"" else "")
    case Elements(blank, items) => "[" + ((if items == [] then blank else ItemsText(items)) + "]")
    case Entries(blank, entries) => "{" + ((if entries == [] then blank else EntriesText(entries)) + "}")
  }

  function ItemText(i: Item): string
    decreases i
  {
    i.before + (TextOf(i.value) + i.after)
  }

  function ItemsText(items: seq<Item>): string
    requires items != []
    decreases items
  {
    ItemText(items[0]) + if |items| == 1 then "" else "," + ItemsText(items[1..])
  }

  function EntryText(e: Entry): string
    decreases e
  {
    e.before + ("\"" + (CharsText(e.name) + ("\"" + (e.middle + (":" + ItemText(e.item))))))
  }

  function EntriesText(entries: seq<Entry>): string
    requires entries != []
    decreases entries
  {
    EntryText(entries[0]) + if |entries| == 1 then "" else "," + EntriesText(entries[1..])
  }

  // ---- digits and letters ----

  predicate DigitsBelow(base: nat, digits: string) {
    forall i :: 0 <= i < |digits| ==> DigitValue(digits[i]) < base
  }

  // The number that four hexadecimal digits mean.
  function UnitValue(hex: string): nat
    requires |hex| == 4
  {
    4096 * DigitValue(hex[0]) + 256 * DigitValue(hex[1]) + 16 * DigitValue(hex[2]) + DigitValue(hex[3])
  }

  // The number that decimal digits mean, from the last one on.
  function DecimalValue(digits: string): nat {
    if digits == "" then 0 else DigitValue(digits[|digits| - 1]) + 10 * DecimalValue(digits[..|digits| - 1])
  }

  // The character of an escape of two; letters that are not in the standard stand for themselves.
  function LetterMeaning(letter: char): char {
    match letter
    case 'b' => 0x08 as char
    case 'f' => 0x0C as char
    case 'n' => 0x0A as char
    case 'r' => 0x0D as char
    case 't' => 0x09 as char
    case _ => letter
  }

  predicate TailByte(c: char) {
    0x80 <= c as int < 0xC0
  }

  // Section 3 of RFC 3629: the first byte tells how many there are, and its low bits with six
  // from each byte behind it are the code point, in as few bytes as it takes.
  lemma Utf8Means(u: nat)
    requires u < 0x11_0000
    ensures var b := Utf8(u);
            && (u < 0x80 ==> |b| == 1 && b[0] as int == u)
            && (0x80 <= u < 0x800 ==>
                  && |b| == 2 && 0xC0 <= b[0] as int < 0xE0 && TailByte(b[1])
                  && u == (b[0] as int - 0xC0) * 64 + (b[1] as int - 0x80))
            && (0x800 <= u < 0x1_0000 ==>
                  && |b| == 3 && 0xE0 <= b[0] as int < 0xF0 && TailByte(b[1]) && TailByte(b[2])
                  && u == ((b[0] as int - 0xE0) * 64 + (b[1] as int - 0x80)) * 64 + (b[2] as int - 0x80))
            && (0x1_0000 <= u ==>
                  && |b| == 4 && 0xF0 <= b[0] as int < 0xF8 && TailByte(b[1]) && TailByte(b[2]) && TailByte(b[3])
                  && u == (((b[0] as int - 0xF0) * 64 + (b[1] as int - 0x80)) * 64 + (b[2] as int - 0x80)) * 64
                          + (b[3] as int - 0x80))
  {
    SixBits(u);
    SixBits(u / 64);
    SixBits(u / 64 / 64);
    assert u / 4096 == u / 64 / 64 && u / 262144 == u / 64 / 64 / 64;
  }

  lemma SixBits(u: nat)
    ensures u == u / 64 * 64 + u % 64 && u % 64 < 64
  {
  }

  // The parser's digits are the same.
  lemma DigitAgrees(c: char)
    ensures DigitValue(c) == HexValue(c)
    ensures IsDigit(c) <==> DigitValue(c) < 10
    ensures IsDigit(c) ==> Digit(c) == DigitValue(c)
  {
  }

  lemma UnitAgrees(hex: string)
    requires |hex| == 4
    ensures DigitsBelow(16, hex) <==> IsHex(hex)
    ensures IsHex(hex) ==> UnitValue(hex) == Hex4(hex)
  {
    DigitAgrees(hex[0]);
    DigitAgrees(hex[1]);
    DigitAgrees(hex[2]);
    DigitAgrees(hex[3]);
    hide DigitValue, HexValue;
  }

  lemma {:induction false} NaturalAgrees(digits: string)
    ensures DigitsBelow(10, digits) <==> forall i :: 0 <= i < |digits| ==> IsDigit(digits[i])
    ensures DigitsBelow(10, digits) ==> DecimalValue(digits) == Natural(digits)
  {
    forall i | 0 <= i < |digits|
      ensures DigitValue(digits[i]) < 10 <==> IsDigit(digits[i])
    {
      DigitAgrees(digits[i]);
    }
    if digits != "" && DigitsBelow(10, digits) {
      var rest, last := digits[..|digits| - 1], digits[|digits| - 1];
      DigitAgrees(last);
      hide DigitValue;
      NaturalAgrees(rest);
    }
  }

  // ---- which trees there are: strict as in RFC 8259, or as the parser takes them ----

  predicate Scalar(u: nat) {
    u != 0 && !(0xD800 <= u <= 0xDFFF)
  }

  // Not in the standard: control characters, and escapes of other letters.
  predicate GoodChar(x: Char, strict: bool) {
    match x
    case Unescaped(c) => c != '"' && c != '\\' && (strict ==> c as int >= 0x20)
    case Letter(letter) => letter != 'u' && (strict ==> letter in "\"\\/bfnrt")
    case Unit(hex) => |hex| == 4 && DigitsBelow(16, hex) && Scalar(UnitValue(hex))
    case Pair(high, low) =>
      && |high| == |low| == 4 && DigitsBelow(16, high) && DigitsBelow(16, low)
      && 0xD800 <= UnitValue(high) < 0xDC00 <= UnitValue(low) <= 0xDFFF
  }

  predicate GoodChars(xs: seq<Char>, strict: bool) {
    forall i :: 0 <= i < |xs| ==> GoodChar(xs[i], strict)
  }

  // Not in the standard: control characters other than these.
  predicate Space(s: string, strict: bool) {
    forall i :: 0 <= i < |s| ==> s[i] as int <= 32 && (strict ==> s[i] in " \t\n\r")
  }

  // Not in the standard: a zero before other digits, and no digit behind the sign.
  predicate GoodNumeral(minus: bool, zero: bool, digits: string, strict: bool) {
    && DigitsBelow(10, digits) && !Starts(digits, '0') && DecimalValue(digits) <= EXACT
    && (if strict then zero <==> digits == "" else minus || zero || digits != "")
  }

  predicate WellFormed(t: Syntax, strict: bool)
    decreases t, 0
  {
    match t
    case Numeral(minus, zero, digits) => GoodNumeral(minus, zero, digits, strict)
    case Characters(chars, closed) => closed && GoodChars(chars, strict)
    case Elements(blank, items) =>
      Space(blank, strict) && GoodItems(items, strict)
    case Entries(blank, entries) =>
      Space(blank, strict) && GoodEntries(entries, strict)
    case _ => true
  }

  predicate GoodItem(i: Item, strict: bool)
    decreases i
  {
    Space(i.before, strict) && Space(i.after, strict) && WellFormed(i.value, strict)
  }

  predicate GoodEntry(e: Entry, strict: bool)
    decreases e
  {
    Space(e.before, strict) && Space(e.middle, strict) && GoodChars(e.name, strict) && GoodItem(e.item, strict)
  }

  predicate GoodItems(items: seq<Item>, strict: bool)
    decreases items
  {
    forall i :: 0 <= i < |items| ==> GoodItem(items[i], strict)
  }

  predicate GoodEntries(entries: seq<Entry>, strict: bool)
    decreases entries
  {
    forall i :: 0 <= i < |entries| ==> GoodEntry(entries[i], strict)
  }

  predicate Unclosed(t: Syntax) {
    t.Characters? && !t.closed && GoodChars(t.chars, false)
  }

  // section 2. Not in the standard: a string that ends with the text.
  predicate GoodDocument(d: Item, strict: bool) {
    GoodItem(d, strict) || (!strict && Space(d.before, false) && Unclosed(d.value) && d.after == "")
  }

  // ---- what it means ----

  function CharMeaning(x: Char): string
    requires GoodChar(x, false)
  {
    match x
    case Unescaped(c) => [c]
    case Letter(letter) => [LetterMeaning(letter)]
    case Unit(hex) => Utf8(UnitValue(hex))
    case Pair(high, low) => Utf8(0x1_0000 + (UnitValue(high) - 0xD800) * 0x400 + (UnitValue(low) - 0xDC00))
  }

  function CharsMeaning(xs: seq<Char>): string
    requires GoodChars(xs, false)
  {
    if xs == [] then "" else CharMeaning(xs[0]) + CharsMeaning(xs[1..])
  }

  function NumeralMeaning(minus: bool, digits: string): int {
    if minus then 0 - (DecimalValue(digits) as int) else DecimalValue(digits)
  }

  function Meaning(t: Syntax): Value
    requires WellFormed(t, false) || Unclosed(t)
    decreases t, 0
  {
    match t
    case NullWord => Null
    case FalseWord => False
    case TrueWord => True
    case Numeral(minus, zero, digits) => Number(NumeralMeaning(minus, digits))
    case Characters(chars, closed) => Text(CharsMeaning(chars))
    case Elements(blank, items) => Array(ItemsMeaning(items))
    case Entries(blank, entries) => Object(EntriesMeaning(entries))
  }

  function ItemsMeaning(items: seq<Item>): (vs: seq<Value>)
    requires GoodItems(items, false)
    ensures |vs| == |items|
    decreases items
  {
    if items == [] then []
    else
      assert GoodItem(items[0], false);
      [Meaning(items[0].value)] + ItemsMeaning(items[1..])
  }

  function EntryMeaning(e: Entry): Member
    requires GoodEntry(e, false)
    decreases e, 0
  {
    assert GoodItem(e.item, false);
    Member(CharsMeaning(e.name), Meaning(e.item.value))
  }

  function EntriesMeaning(entries: seq<Entry>): (ms: seq<Member>)
    requires GoodEntries(entries, false)
    ensures |ms| == |entries|
    decreases entries
  {
    if entries == [] then []
    else
      assert GoodEntry(entries[0], false);
      [EntryMeaning(entries[0])] + EntriesMeaning(entries[1..])
  }

  // ---- the standard is part of what the parser takes ----

  lemma {:induction false} StrictIsGood(t: Syntax)
    requires WellFormed(t, true)
    ensures WellFormed(t, false)
    decreases t, 0
  {
    match t
    case Elements(blank, items) =>
      forall i | 0 <= i < |items|
        ensures GoodItem(items[i], false)
      {
        assert GoodItem(items[i], true);
        StrictItem(items[i]);
      }
    case Entries(blank, entries) =>
      forall i | 0 <= i < |entries|
        ensures GoodEntry(entries[i], false)
      {
        assert GoodEntry(entries[i], true);
        StrictEntry(entries[i]);
      }
    case _ =>
  }

  lemma {:induction false} StrictItem(i: Item)
    requires GoodItem(i, true)
    ensures GoodItem(i, false)
    decreases i
  {
    StrictIsGood(i.value);
  }

  lemma {:induction false} StrictEntry(e: Entry)
    requires GoodEntry(e, true)
    ensures GoodEntry(e, false)
    decreases e
  {
    StrictItem(e.item);
  }

  // ---- what the parser does with blanks, digits and brackets ----

  lemma {:induction false} RunOf(d: string, rest: string)
    requires (forall i :: 0 <= i < |d| ==> IsDigit(d[i])) && !StartsDigit(rest)
    ensures Run(d + rest) == |d|
  {
    if d == "" {
      assert d + rest == rest;
    } else {
      assert (d + rest)[1..] == d[1..] + rest;
      RunOf(d[1..], rest);
    }
  }

  // What may stand behind a number.
  predicate Stops(rest: string) {
    !StartsDigit(rest) && !Fractional(rest)
  }

  lemma SkipNothing(s: string)
    requires s != "" && s[0] as int > 32
    ensures Skip(s) == s
  {
  }

  lemma {:induction false} SkipBlank(blank: string, s: string)
    requires Space(blank, false)
    ensures Skip(blank + s) == Skip(s)
  {
    if blank == "" {
      assert blank + s == s;
    } else {
      assert (blank + s)[1..] == blank[1..] + s;
      SkipBlank(blank[1..], s);
    }
  }

  lemma Enclosed(open: char, x: string, close: char, rest: string)
    ensures var s, t := [open] + (x + [close]) + rest, [close] + rest;
            s != "" && s[0] == open && s[1..] == x + t && t[0] == close && t[1..] == rest
  {
  }

  lemma AfterOne(done: seq<Member>, s: string, m: Member, tail: string)
    requires MemberAt(s) == Parsed(m, tail)
    ensures MembersAt(done, s) == AfterMember(done + [m], Skip(tail))
  {
    hide MemberAt, AfterMember, Skip;
  }

  // ---- strings are read ----

  lemma CharReads(x: Char, tail: string)
    requires GoodChar(x, false) && Closes(tail)
    ensures Closes(CharText(x) + tail) && Chars(CharText(x) + tail) == Then(CharMeaning(x), Chars(tail))
  {
    var s := CharText(x) + tail;
    match x
    case Unescaped(c) =>
      assert s[0] == c && s[1..] == tail;
    case Letter(letter) =>
      assert s[0] == '\\' && s[1] == letter && s[2..] == tail;
    case Unit(hex) =>
      UnitReads(hex, tail);
    case Pair(high, low) =>
      PairReads(high, low, tail);
  }

  // The characters of a unit close no string.
  lemma HexCloses4(hex: string, tail: string)
    requires |hex| == 4 && IsHex(hex) && Closes(tail)
    ensures Closes(hex + tail) && Closes(['\\', 'u'] + hex + tail)
  {
    var s := hex + tail;
    assert s[4..] == tail && s[3..][1..] == s[4..] && s[2..][1..] == s[3..] && s[1..][1..] == s[2..];
    assert Closes(s[3..]);
    assert Closes(s[2..]);
    assert Closes(s[1..]);
    assert Closes(s);
    assert (['\\', 'u'] + hex + tail)[2..] == s;
  }

  lemma Hex4Prefix(hex: string, tail: string)
    requires |hex| == 4 && IsHex(hex)
    ensures Hex4(hex + tail) == Hex4(hex) && (hex + tail)[4..] == tail
  {
  }

  lemma UnitReads(hex: string, tail: string)
    requires GoodChar(Unit(hex), false) && Closes(tail)
    ensures var s := ['\\', 'u'] + hex + tail;
            Closes(s) && Chars(s) == Then(CharMeaning(Unit(hex)), Chars(tail))
  {
    UnitAgrees(hex);
    HexCloses4(hex, tail);
    Hex4Prefix(hex, tail);
    hide Closes, Hex4, IsHex, Utf8;
    assert (['\\', 'u'] + hex + tail)[2..] == hex + tail;
  }

  lemma PairText(high: string, low: string, tail: string)
    ensures var second := ['\\', 'u'] + low + tail;
            var s := ['\\', 'u'] + high + (['\\', 'u'] + low) + tail;
            s == ['\\', 'u'] + high + second && s[0] == '\\' && s[1] == 'u' && s[2..] == high + second
  {
  }

  lemma PairPlaces(high: string, low: string, tail: string)
    requires |high| == |low| == 4
    ensures var t := high + (['\\', 'u'] + low + tail);
            |t| >= 10 && t[4] == '\\' && t[5] == 'u' && t[6..] == low + tail && t[10..] == tail
  {
  }

  lemma PairValue(u: nat, u2: nat)
    requires 0xD800 <= u < 0xDC00 <= u2 <= 0xDFFF
    ensures 0x1_0000 + u % 1024 * 1024 + u2 % 1024 == 0x1_0000 + (u - 0xD800) * 0x400 + (u2 - 0xDC00)
  {
  }

  lemma PairUnits(high: string, low: string, tail: string)
    requires GoodChar(Pair(high, low), false)
    ensures Unicode(high + (['\\', 'u'] + low + tail)) == Parsed(CharMeaning(Pair(high, low)), tail)
  {
    var second := ['\\', 'u'] + low + tail;
    UnitAgrees(high);
    UnitAgrees(low);
    Hex4Prefix(high, second);
    Hex4Prefix(low, tail);
    PairPlaces(high, low, tail);
    PairValue(Hex4(high), Hex4(low));
    hide Hex4, IsHex, Utf8;
  }

  lemma PairReads(high: string, low: string, tail: string)
    requires GoodChar(Pair(high, low), false) && Closes(tail)
    ensures var s := ['\\', 'u'] + high + (['\\', 'u'] + low) + tail;
            Closes(s) && Chars(s) == Then(CharMeaning(Pair(high, low)), Chars(tail))
  {
    var second := ['\\', 'u'] + low + tail;
    UnitAgrees(high);
    UnitAgrees(low);
    HexCloses4(low, tail);
    HexCloses4(high, second);
    PairText(high, low, tail);
    PairUnits(high, low, tail);
    hide Closes, Hex4, IsHex, Utf8, CharMeaning, Unicode;
  }

  lemma ThenThen(a: string, b: string, r: Outcome<string>)
    ensures Then(a, Then(b, r)) == Then(a + b, r)
  {
    if r.Parsed? {
      Associate(a, b, r.value);
    }
  }

  lemma ThenNothing(r: Outcome<string>)
    ensures Then("", r) == r
  {
    if r.Parsed? {
      assert "" + r.value == r.value;
    }
  }

  lemma {:induction false} CharsRead(xs: seq<Char>, tail: string)
    requires GoodChars(xs, false) && Closes(tail)
    ensures Closes(CharsText(xs) + tail) && Chars(CharsText(xs) + tail) == Then(CharsMeaning(xs), Chars(tail))
  {
    if xs == [] {
      assert "" + tail == tail;
      ThenNothing(Chars(tail));
    } else {
      CharsRead(xs[1..], tail);
      hide Closes, Chars, CharText, CharMeaning, GoodChar;
      Associate(CharText(xs[0]), CharsText(xs[1..]), tail);
      CharReads(xs[0], CharsText(xs[1..]) + tail);
      ThenThen(CharMeaning(xs[0]), CharsMeaning(xs[1..]), Chars(tail));
    }
  }

  lemma StringReads(xs: seq<Char>, rest: string)
    requires GoodChars(xs, false)
    ensures StringAt(CharsText(xs) + ("\"" + rest)) == Parsed(CharsMeaning(xs), rest)
    ensures StringAt(CharsText(xs)) == Parsed(CharsMeaning(xs), "")
  {
    var tail := "\"" + rest;
    assert tail[1..] == rest;
    CharsRead(xs, tail);
    CharsRead(xs, "");
    hide CharsText, CharsMeaning, GoodChars;
    assert CharsText(xs) + "" == CharsText(xs) && CharsMeaning(xs) + "" == CharsMeaning(xs);
  }

  // ---- values are read ----

  // The text from the sign on, from the zero on, and from the digits on.
  lemma DigitsFirst(digits: string, rest: string)
    requires (forall i :: 0 <= i < |digits| ==> IsDigit(digits[i])) && !Starts(digits, '0') && !StartsDigit(rest)
    ensures !Starts(digits + rest, '0') && (StartsDigit(digits + rest) <==> digits != "")
  {
    assert digits == "" ==> digits + rest == rest;
  }

  lemma ZeroFirst(zero: bool, s2: string)
    requires !Starts(s2, '0')
    ensures var s1 := (if zero then "0" else "") + s2;
            && (Starts(s1, '0') <==> zero) && s2 == (if Starts(s1, '0') then s1[1..] else s1)
            && (zero || StartsDigit(s2) ==> StartsDigit(s1))
  {
    assert "" + s2 == s2;
  }

  lemma SignFirst(minus: bool, s1: string)
    requires minus || StartsDigit(s1)
    ensures var s := (if minus then "-" else "") + s1;
            && s != "" && (s[0] == '-' <==> minus) && (s[0] == '-' || IsDigit(s[0]))
            && s1 == (if s[0] == '-' then s[1..] else s)
  {
    assert "" + s1 == s1;
  }

  lemma NumeralReads(minus: bool, zero: bool, digits: string, rest: string)
    requires GoodNumeral(minus, zero, digits, false) && Stops(rest)
    ensures var s := NumeralText(minus, zero, digits) + rest;
            s != "" && (s[0] == '-' || IsDigit(s[0])) && (Starts(s, '-') || StartsDigit(s))
            && NumberAt(s) == Parsed(Number(NumeralMeaning(minus, digits)), rest)
  {
    var sign, first := if minus then "-" else "", if zero then "0" else "";
    var s2 := digits + rest;
    var s1 := first + s2;
    NaturalAgrees(digits);
    RunOf(digits, rest);
    DigitsFirst(digits, rest);
    ZeroFirst(zero, s2);
    SignFirst(minus, s1);
    Associate(sign, first + digits, rest);
    Associate(first, digits, rest);
    hide Fractional, Natural, Run, NumberAt, IsDigit, Starts, StartsDigit;
    NumberParts(sign + s1, s1, s2, digits, rest);
  }

  lemma FirstOfValue(t: Syntax)
    requires WellFormed(t, false) || Unclosed(t)
    ensures TextOf(t) != "" && TextOf(t)[0] as int > 32 && TextOf(t)[0] != ']' && TextOf(t)[0] != '}'
  {
    hide ItemsText, EntriesText, CharsText;
  }

  // A value with its blanks, and what follows it.
  lemma SkipToValue(before: string, t: Syntax, tail: string)
    requires Space(before, false) && (WellFormed(t, false) || Unclosed(t))
    ensures Skip(before + (TextOf(t) + tail)) == TextOf(t) + tail
  {
    FirstOfValue(t);
    hide TextOf;
    SkipBlank(before, TextOf(t) + tail);
    SkipNothing(TextOf(t) + tail);
  }

  lemma {:induction false} ValueReads(t: Syntax, rest: string)
    requires WellFormed(t, false) && Stops(rest)
    ensures ValueAt(TextOf(t) + rest) == Parsed(Meaning(t), rest)
    decreases t, 0
  {
    hide Stops, ItemsAt, MembersAt, ItemsText, EntriesText, StringAt, NumberAt, NumeralText, CharsText, CharsMeaning;
    var s := TextOf(t) + rest;
    match t
    case NullWord => assert s[4..] == rest && "null" <= s;
    case FalseWord => assert s[5..] == rest && s[0] == 'f' && "false" <= s;
    case TrueWord => assert s[4..] == rest && s[0] == 't' && "true" <= s;
    case Numeral(minus, zero, digits) =>
      NumeralReads(minus, zero, digits, rest);
    case Characters(chars, closed) =>
      TextReads(chars, rest);
    case Elements(blank, items) =>
      if items == [] {
        EmptyElements(blank, rest);
      } else {
        ItemsRead([], items, rest);
        ElementsRead(items, rest);
      }
    case Entries(blank, entries) =>
      if entries == [] {
        EmptyEntries(blank, rest);
      } else {
        EntriesRead([], entries, rest);
        ObjectReads(entries, rest);
      }
  }

  lemma Quote(x: string)
    ensures ("\"" + x)[0] == '"' && ("\"" + x)[1..] == x
  {
  }

  lemma TextReads(chars: seq<Char>, rest: string)
    requires GoodChars(chars, false)
    ensures ValueAt("\"" + (CharsText(chars) + "\"") + rest) == Parsed(Text(CharsMeaning(chars)), rest)
  {
    StringReads(chars, rest);
    hide ValueAt, StringAt, CharsText, CharsMeaning;
    var s := "\"" + (CharsText(chars) + "\"") + rest;
    Associate("\"", CharsText(chars) + "\"", rest);
    Associate(CharsText(chars), "\"", rest);
    Quote(CharsText(chars) + ("\"" + rest));
    ValueText(s);
  }

  lemma EmptyElements(blank: string, rest: string)
    requires Space(blank, false)
    ensures ValueAt("[" + (blank + "]") + rest) == Parsed(Array([]), rest)
  {
    SkipBlank(blank, "]" + rest);
    SkipNothing("]" + rest);
    Enclosed('[', blank, ']', rest);
    hide ValueAt, ItemsAt, Skip;
    ValueArray("[" + (blank + "]") + rest, "]" + rest);
  }

  lemma EmptyEntries(blank: string, rest: string)
    requires Space(blank, false)
    ensures ValueAt("{" + (blank + "}") + rest) == Parsed(Object([]), rest)
  {
    SkipBlank(blank, "}" + rest);
    SkipNothing("}" + rest);
    Enclosed('{', blank, '}', rest);
    hide ValueAt, MembersAt, Skip;
    ValueObject("{" + (blank + "}") + rest, "}" + rest);
  }

  lemma StopsAfter(after: string, c: char, more: string)
    requires Space(after, false) && c in ",]}"
    ensures Stops(after + ([c] + more)) && Skip(after + ([c] + more)) == [c] + more && ([c] + more)[1..] == more
  {
    SkipBlank(after, [c] + more);
    SkipNothing([c] + more);
  }

  lemma ItemSplits(i: Item, tail: string)
    ensures ItemText(i) + tail == i.before + (TextOf(i.value) + (i.after + tail))
  {
    hide TextOf;
    Associate(i.before, TextOf(i.value) + i.after, tail);
    Associate(TextOf(i.value), i.after, tail);
  }

  // The first element and what follows it.
  lemma ItemsSplit(items: seq<Item>, rest: string)
    requires items != []
    ensures ItemsText(items) + rest ==
            ItemText(items[0]) + if |items| == 1 then rest else [','] + (ItemsText(items[1..]) + rest)
  {
    hide ItemText;
    if |items| > 1 {
      Associate(ItemText(items[0]), "," + ItemsText(items[1..]), rest);
      Associate(",", ItemsText(items[1..]), rest);
    } else {
      assert ItemText(items[0]) + "" == ItemText(items[0]);
    }
  }

  lemma AfterValue(done: seq<Value>, s: string, v: Value, tail: string)
    requires ValueAt(s) == Parsed(v, tail)
    ensures ItemsAt(done, s) == AfterItem(done + [v], Skip(tail))
  {
    hide ValueAt, AfterItem, Skip;
  }

  // One element, and what the loop goes on with.
  lemma ItemReads(done: seq<Value>, i: Item, c: char, more: string)
    requires GoodItem(i, false) && c in ",]"
    requires ValueAt(TextOf(i.value) + (i.after + ([c] + more))) == Parsed(Meaning(i.value), i.after + ([c] + more))
    ensures ItemsAt(done, Skip(ItemText(i) + ([c] + more))) == AfterItem(done + [Meaning(i.value)], [c] + more)
  {
    ItemSplits(i, [c] + more);
    SkipToValue(i.before, i.value, i.after + ([c] + more));
    StopsAfter(i.after, c, more);
    hide TextOf, ItemText, Stops, Skip, ValueAt, WellFormed, Meaning, AfterItem, ItemsAt;
    AfterValue(done, TextOf(i.value) + (i.after + ([c] + more)), Meaning(i.value), i.after + ([c] + more));
  }

  lemma ItemsTail(done: seq<Value>, items: seq<Item>)
    requires items != [] && GoodItems(items, false)
    ensures GoodItem(items[0], false) && WellFormed(items[0].value, false) && Space(items[0].after, false)
    ensures GoodItems(items[1..], false)
    ensures var more := ItemsMeaning(items[1..]);
            && done + ItemsMeaning(items) == done + [Meaning(items[0].value)] + more
            && (|items| == 1 ==> done + ItemsMeaning(items) == done + [Meaning(items[0].value)])
  {
    GoodTail(items);
    ItemParts(items[0]);
    hide Meaning, GoodItem, GoodItems;
  }

  lemma GoodTail(items: seq<Item>)
    requires items != [] && GoodItems(items, false)
    ensures GoodItem(items[0], false) && GoodItems(items[1..], false)
  {
  }

  lemma ItemParts(i: Item)
    requires GoodItem(i, false)
    ensures WellFormed(i.value, false) && Space(i.after, false)
  {
  }

  lemma AfterItems(done: seq<Value>, more: string)
    ensures AfterItem(done, [','] + more) == ItemsAt(done, Skip(more))
    ensures AfterItem(done, [']'] + more) == Parsed(Array(done), more)
  {
    assert ([','] + more)[1..] == more && ([']'] + more)[1..] == more;
    hide ItemsAt, Skip;
  }

  lemma {:induction false} ItemsRead(done: seq<Value>, items: seq<Item>, rest: string)
    requires items != [] && GoodItems(items, false)
    ensures ItemsAt(done, Skip(ItemsText(items) + ("]" + rest))) == Parsed(Array(done + ItemsMeaning(items)), rest)
    decreases items
  {
    var i, last := items[0], |items| == 1;
    ItemsTail(done, items);
    var v, c := Meaning(i.value), if last then ']' else ',';
    var more := if last then rest else ItemsText(items[1..]) + ("]" + rest);
    ItemsSplit(items, "]" + rest);
    StopsAfter(i.after, c, more);
    hide TextOf, ItemText, ItemsText, Stops, Skip, ValueAt, WellFormed, Meaning, ItemsMeaning, ItemsAt, AfterItem,
      GoodItem, GoodItems, Space;
    ValueReads(i.value, i.after + ([c] + more));
    ItemReads(done, i, c, more);
    AfterItems(done + [v], more);
    if !last {
      ItemsRead(done + [v], items[1..], rest);
    }
  }

  lemma ItemsFirstChar(items: seq<Item>, tail: string)
    requires items != [] && GoodItem(items[0], false)
    ensures var t := Skip(ItemsText(items) + tail); t != "" && t[0] != ']' && t[0] != '}'
  {
    var more := if |items| == 1 then tail else [','] + (ItemsText(items[1..]) + tail);
    ItemsSplit(items, tail);
    ItemSplits(items[0], more);
    SkipToValue(items[0].before, items[0].value, items[0].after + more);
    FirstOfValue(items[0].value);
    hide TextOf, ItemText, ItemsText, Skip;
  }

  lemma ElementsRead(items: seq<Item>, rest: string)
    requires items != [] && GoodItems(items, false)
    requires ItemsAt([], Skip(ItemsText(items) + ("]" + rest))) == Parsed(Array([] + ItemsMeaning(items)), rest)
    ensures ValueAt("[" + (ItemsText(items) + "]") + rest) == Parsed(Array(ItemsMeaning(items)), rest)
  {
    assert GoodItem(items[0], false);
    ItemsFirstChar(items, "]" + rest);
    hide ValueAt, ItemsAt, ItemsText, ItemsMeaning, Skip, GoodItem, GoodItems;
    var s, t := "[" + (ItemsText(items) + "]") + rest, ItemsText(items) + ("]" + rest);
    Associate("[", ItemsText(items) + "]", rest);
    Associate(ItemsText(items), "]", rest);
    assert s[0] == '[' && s[1..] == t;
    ValueArray(s, Skip(t));
    assert [] + ItemsMeaning(items) == ItemsMeaning(items);
  }

  // ---- members are read ----

  // An entry without the blanks before it.
  function Bare(e: Entry, tail: string): string {
    "\"" + (CharsText(e.name) + ("\"" + (e.middle + (":" + (ItemText(e.item) + tail)))))
  }

  lemma EntrySplits(e: Entry, tail: string)
    ensures EntryText(e) + tail == e.before + Bare(e, tail)
  {
    hide ItemText, CharsText;
    var i := ItemText(e.item);
    Associate(e.before, "\"" + (CharsText(e.name) + ("\"" + (e.middle + (":" + i)))), tail);
    Associate("\"", CharsText(e.name) + ("\"" + (e.middle + (":" + i))), tail);
    Associate(CharsText(e.name), "\"" + (e.middle + (":" + i)), tail);
    Associate("\"", e.middle + (":" + i), tail);
    Associate(e.middle, ":" + i, tail);
    Associate(":", i, tail);
  }

  lemma EntriesSplit(entries: seq<Entry>, rest: string)
    requires entries != []
    ensures EntriesText(entries) + rest ==
            EntryText(entries[0]) + if |entries| == 1 then rest else [','] + (EntriesText(entries[1..]) + rest)
  {
    hide EntryText;
    if |entries| > 1 {
      Associate(EntryText(entries[0]), "," + EntriesText(entries[1..]), rest);
      Associate(",", EntriesText(entries[1..]), rest);
    } else {
      assert EntryText(entries[0]) + "" == EntryText(entries[0]);
    }
  }

  lemma SkipToEntry(e: Entry, tail: string)
    requires Space(e.before, false)
    ensures Skip(EntryText(e) + tail) == Bare(e, tail) && Starts(Bare(e, tail), '"')
  {
    EntrySplits(e, tail);
    hide CharsText, ItemText, EntryText;
    SkipBlank(e.before, Bare(e, tail));
    SkipNothing(Bare(e, tail));
  }

  lemma MemberReads(e: Entry, tail: string)
    requires GoodEntry(e, false) && GoodItem(e.item, false)
    requires ValueAt(TextOf(e.item.value) + (e.item.after + tail)) == Parsed(Meaning(e.item.value), e.item.after + tail)
    ensures MemberAt(Bare(e, tail)) ==
            Parsed(EntryMeaning(e), e.item.after + tail)
  {
    var value := ItemText(e.item) + tail;
    var colon := ":" + value;
    StringReads(e.name, e.middle + colon);
    ItemSplits(e.item, tail);
    SkipToValue(e.item.before, e.item.value, e.item.after + tail);
    hide CharsText, CharsMeaning, ItemText, TextOf, Meaning, ValueAt, StringAt, WellFormed;
    SkipBlank(e.middle, colon);
    SkipNothing(colon);
    assert colon[1..] == value;
    assert Bare(e, tail)[1..] == CharsText(e.name) + ("\"" + (e.middle + colon));
  }

  lemma EntryReads(done: seq<Member>, e: Entry, c: char, more: string)
    requires GoodEntry(e, false) && GoodItem(e.item, false) && c in ",}"
    requires ValueAt(TextOf(e.item.value) + (e.item.after + ([c] + more))) ==
             Parsed(Meaning(e.item.value), e.item.after + ([c] + more))
    ensures MembersAt(done, Skip(EntryText(e) + ([c] + more))) ==
            AfterMember(done + [EntryMeaning(e)], [c] + more)
  {
    SkipToEntry(e, [c] + more);
    StopsAfter(e.item.after, c, more);
    MemberReads(e, [c] + more);
    hide TextOf, EntryText, Bare, Stops, Skip, ValueAt, MemberAt, WellFormed, Meaning, EntryMeaning, AfterMember;
    AfterOne(done, Bare(e, [c] + more), EntryMeaning(e), e.item.after + ([c] + more));
  }

  lemma EntriesTail(done: seq<Member>, entries: seq<Entry>)
    requires entries != [] && GoodEntries(entries, false)
    ensures GoodEntry(entries[0], false) && GoodItem(entries[0].item, false)
    ensures WellFormed(entries[0].item.value, false) && Space(entries[0].item.after, false)
    ensures GoodEntries(entries[1..], false)
    ensures var more := EntriesMeaning(entries[1..]);
            && done + EntriesMeaning(entries) == done + [EntryMeaning(entries[0])] + more
            && (|entries| == 1 ==> done + EntriesMeaning(entries) == done + [EntryMeaning(entries[0])])
  {
    GoodEntriesTail(entries);
    EntryParts(entries[0]);
    hide EntryMeaning, GoodEntry, GoodEntries;
  }

  lemma GoodEntriesTail(entries: seq<Entry>)
    requires entries != [] && GoodEntries(entries, false)
    ensures GoodEntry(entries[0], false) && GoodEntries(entries[1..], false)
  {
  }

  lemma EntryParts(e: Entry)
    requires GoodEntry(e, false)
    ensures GoodItem(e.item, false) && WellFormed(e.item.value, false) && Space(e.item.after, false)
  {
    assert GoodItem(e.item, false);
  }

  lemma AfterEntries(done: seq<Member>, more: string)
    ensures AfterMember(done, [','] + more) == MembersAt(done, Skip(more))
    ensures AfterMember(done, ['}'] + more) == Parsed(Object(done), more)
  {
    assert ([','] + more)[1..] == more && (['}'] + more)[1..] == more;
    hide MembersAt, Skip;
  }

  lemma {:induction false} EntriesRead(done: seq<Member>, entries: seq<Entry>, rest: string)
    requires entries != [] && GoodEntries(entries, false)
    ensures MembersAt(done, Skip(EntriesText(entries) + ("}" + rest))) ==
            Parsed(Object(done + EntriesMeaning(entries)), rest)
    decreases entries
  {
    var e, last := entries[0], |entries| == 1;
    EntriesTail(done, entries);
    var m, c := EntryMeaning(e), if last then '}' else ',';
    var more := if last then rest else EntriesText(entries[1..]) + ("}" + rest);
    EntriesSplit(entries, "}" + rest);
    StopsAfter(e.item.after, c, more);
    hide TextOf, EntryText, EntriesText, Stops, Skip, ValueAt, WellFormed, Meaning, EntryMeaning, MembersAt,
      AfterMember, EntriesMeaning, GoodEntry, GoodEntries, GoodItem, Space;
    ValueReads(e.item.value, e.item.after + ([c] + more));
    EntryReads(done, e, c, more);
    AfterEntries(done + [m], more);
    if !last {
      EntriesRead(done + [m], entries[1..], rest);
    }
  }

  lemma EntriesFirstChar(entries: seq<Entry>, tail: string)
    requires entries != [] && Space(entries[0].before, false)
    ensures Starts(Skip(EntriesText(entries) + tail), '"')
  {
    var more := if |entries| == 1 then tail else [','] + (EntriesText(entries[1..]) + tail);
    EntriesSplit(entries, tail);
    SkipToEntry(entries[0], more);
    hide EntryText, EntriesText, Skip;
  }

  lemma ObjectReads(entries: seq<Entry>, rest: string)
    requires entries != [] && GoodEntries(entries, false)
    requires MembersAt([], Skip(EntriesText(entries) + ("}" + rest))) ==
             Parsed(Object([] + EntriesMeaning(entries)), rest)
    ensures ValueAt("{" + (EntriesText(entries) + "}") + rest) == Parsed(Object(EntriesMeaning(entries)), rest)
  {
    assert GoodEntry(entries[0], false);
    EntriesFirstChar(entries, "}" + rest);
    hide ValueAt, MembersAt, EntriesText, EntriesMeaning, Skip, GoodEntry, GoodEntries;
    var s, t := "{" + (EntriesText(entries) + "}") + rest, EntriesText(entries) + ("}" + rest);
    Associate("{", EntriesText(entries) + "}", rest);
    Associate(EntriesText(entries), "}", rest);
    assert s[0] == '{' && s[1..] == t;
    ValueObject(s, Skip(t));
    assert [] + EntriesMeaning(entries) == EntriesMeaning(entries);
  }

  // ---- whole texts ----

  // Every text of the standard, and of the wider grammar, is accepted with its meaning.
  lemma Accepts(d: Item, strict: bool, requireEnd: bool)
    requires GoodDocument(d, strict)
    ensures GoodDocument(d, false)
    ensures Document(ItemText(d), requireEnd) == Parsed(Meaning(d.value), if requireEnd then "" else d.after)
  {
    if strict {
      StrictItem(d);
    }
    ItemSplits(d, "");
    SkipToValue(d.before, d.value, d.after);
    assert ItemText(d) + "" == ItemText(d) && d.after + "" == d.after;
    if Unclosed(d.value) && d.after == "" {
      UnclosedReads(d.value);
    } else {
      SpaceStops(d.after);
      ValueReads(d.value, d.after);
    }
    hide TextOf, ItemText, ValueAt, Meaning, WellFormed;
    SpaceEnds(d.after);
  }

  lemma UnclosedReads(t: Syntax)
    requires Unclosed(t)
    ensures ValueAt(TextOf(t) + "") == Parsed(Meaning(t), "")
  {
    StringReads(t.chars, "");
    hide ValueAt, StringAt, CharsText, CharsMeaning;
    var s := TextOf(t) + "";
    assert CharsText(t.chars) + "" == CharsText(t.chars);
    assert s[0] == '"' && s[1..] == CharsText(t.chars);
    ValueText(s);
  }

  lemma SpaceStops(s: string)
    requires Space(s, false)
    ensures Stops(s)
  {
  }

  lemma {:induction false} SpaceEnds(s: string)
    ensures Space(s, false) <==> Skip(s) == ""
  {
    if s != "" {
      SpaceEnds(s[1..]);
      assert s == [s[0]] + s[1..];
    }
  }

  // ---- and nothing else is accepted: the tree of an accepted text ----

  // An escape of one or two units; t begins behind the u.
  lemma UnicodeBack(t: string) returns (x: Char, tail: string)
    requires Closes(t) && Unicode(t).Parsed?
    ensures GoodChar(x, false) && ['\\', 'u'] + t == CharText(x) + tail && Closes(tail)
    ensures Unicode(t) == Parsed(CharMeaning(x), tail)
  {
    assert IsHex(t);
    Hex4Head(t);
    UnitAgrees(t[..4]);
    if Scalar(Hex4(t)) {
      x, tail := Unit(t[..4]), t[4..];
      JsonParser.FourHex(t);
      hide Closes, Hex4, IsHex, Utf8, DigitsBelow, UnitValue;
      OneUnit(t);
    } else {
      assert IsHex(t[6..]);
      JsonParser.PairEnds(t);
      x, tail := Pair(t[..4], t[6..10]), t[10..];
      Hex4Head(t[6..]);
      UnitAgrees(t[6..10]);
      PairValue(Hex4(t), Hex4(t[6..]));
      hide Closes, Hex4, IsHex, Utf8, DigitsBelow, UnitValue;
      TwoUnits(t);
    }
  }

  lemma OneUnit(t: string)
    requires |t| >= 4
    ensures ['\\', 'u'] + t == ['\\', 'u'] + t[..4] + t[4..]
  {
  }

  lemma TwoUnits(t: string)
    requires |t| >= 10 && t[4] == '\\' && t[5] == 'u'
    ensures t[6..][..4] == t[6..10]
    ensures ['\\', 'u'] + t == ['\\', 'u'] + t[..4] + (['\\', 'u'] + t[6..10]) + t[10..]
  {
    assert t == t[..4] + (['\\', 'u'] + t[6..10]) + t[10..];
  }

  lemma Hex4Head(t: string)
    requires IsHex(t)
    ensures |t[..4]| == 4 && IsHex(t[..4]) && Hex4(t[..4]) == Hex4(t)
  {
  }

  lemma CharBackwards(s: string) returns (x: Char, tail: string)
    requires s != "" && s[0] != '"' && Closes(s) && Chars(s).Parsed?
    ensures GoodChar(x, false) && s == CharText(x) + tail && Closes(tail) && |tail| < |s|
    ensures Chars(s) == Then(CharMeaning(x), Chars(tail))
  {
    if s[0] != '\\' {
      x, tail := Unescaped(s[0]), s[1..];
    } else if s[1] != 'u' {
      x, tail := Letter(s[1]), s[2..];
    } else {
      x, tail := UnicodeBack(s[2..]);
      hide Closes, Unicode, CharText, CharMeaning;
      assert ['\\', 'u'] + s[2..] == s;
    }
  }

  lemma {:induction false} CharsBackwards(s: string) returns (xs: seq<Char>, closed: bool)
    requires Closes(s) && Chars(s).Parsed?
    ensures GoodChars(xs, false) && CharsMeaning(xs) == Chars(s).value
    ensures s == CharsText(xs) + if closed then "\"" + Chars(s).rest else ""
    ensures !closed ==> Chars(s).rest == ""
    decreases |s|
  {
    if s == "" {
      xs, closed := [], false;
    } else if s[0] == '"' {
      xs, closed := [], true;
      assert s == "" + ("\"" + s[1..]);
    } else {
      var x, tail := CharBackwards(s);
      hide Closes, Chars, CharText, CharMeaning, GoodChar;
      var more;
      more, closed := CharsBackwards(tail);
      xs := [x] + more;
      assert xs[1..] == more;
      Associate(CharText(x), CharsText(more), if closed then "\"" + Chars(tail).rest else "");
    }
  }

  lemma CutFirst(s: string, c: char, there: bool) returns (rest: string)
    requires there <==> Starts(s, c)
    ensures rest == if there then s[1..] else s
    ensures s == (if there then [c] else "") + rest
  {
    rest := if there then s[1..] else s;
  }

  lemma CutDigits(s: string, k: nat)
    requires k <= |s|
    ensures s == s[..k] + s[k..] && |s[..k]| == k
  {
  }

  // The digits and what is behind them.
  lemma RunBackwards(s: string) returns (digits: string, rest: string)
    ensures s == digits + rest && |digits| == if Starts(s, '0') then 0 else Run(s)
    ensures (forall i :: 0 <= i < |digits| ==> IsDigit(digits[i])) && !Starts(digits, '0')
    ensures StartsDigit(s) && !Starts(s, '0') ==> digits != ""
  {
    var k := if Starts(s, '0') then 0 else Run(s);
    CutDigits(s, k);
    digits, rest := s[..k], s[k..];
  }

  // The same parts, cut from the text.
  lemma NumberPieces(s: string) returns (minus: bool, zero: bool, digits: string, s1: string, s2: string, rest: string)
    requires s != "" && (s[0] == '-' || IsDigit(s[0]))
    ensures (minus <==> s[0] == '-') && s1 == (if s[0] == '-' then s[1..] else s)
    ensures (zero <==> Starts(s1, '0')) && s2 == (if Starts(s1, '0') then s1[1..] else s1)
    ensures s2 == digits + rest && |digits| == (if Starts(s2, '0') then 0 else Run(s2))
    ensures (forall i :: 0 <= i < |digits| ==> IsDigit(digits[i])) && !Starts(digits, '0')
    ensures minus || zero || digits != ""
    ensures s == NumeralText(minus, zero, digits) + rest
  {
    hide Run;
    minus := Starts(s, '-');
    s1 := CutFirst(s, '-', minus);
    zero := Starts(s1, '0');
    s2 := CutFirst(s1, '0', zero);
    digits, rest := RunBackwards(s2);
    NumeralWhole(s, minus, zero, digits, rest);
    hide NumeralText;
  }

  lemma NumberBackwards(s: string) returns (minus: bool, zero: bool, digits: string)
    requires s != "" && (s[0] == '-' || IsDigit(s[0]))
    ensures Starts(s, '-') || StartsDigit(s)
    ensures NumberAt(s).Parsed? ==>
      && GoodNumeral(minus, zero, digits, false) && s == NumeralText(minus, zero, digits) + NumberAt(s).rest
      && NumberAt(s).value == Number(NumeralMeaning(minus, digits))
  {
    var s1, s2, rest;
    minus, zero, digits, s1, s2, rest := NumberPieces(s);
    hide Fractional, Natural, Run, Starts, StartsDigit, IsDigit, NumberAt, NumeralText;
    NumberParts(s, s1, s2, digits, rest);
    NaturalAgrees(digits);
  }

  lemma NumeralWhole(s: string, minus: bool, zero: bool, digits: string, rest: string)
    requires var s2 := digits + rest;
             var s1 := (if zero then "0" else "") + s2;
             s == (if minus then "-" else "") + s1
    ensures s == NumeralText(minus, zero, digits) + rest
  {
    var first := if zero then "0" else "";
    Associate(if minus then "-" else "", first + digits, rest);
    Associate(first, digits, rest);
  }

  lemma {:induction false} SkipBackwards(s: string) returns (blank: string)
    ensures s == blank + Skip(s) && Space(blank, false)
    decreases |s|
  {
    if s != "" && s[0] as int <= 32 {
      blank := SkipBackwards(s[1..]);
      blank := [s[0]] + blank;
      assert s == [s[0]] + s[1..];
    } else {
      blank := "";
    }
  }

  lemma CutWord(s: string, word: string)
    requires word <= s
    ensures s == word + s[|word|..]
  {
  }

  lemma {:induction false} ValueBackwards(s: string) returns (t: Syntax)
    requires ValueAt(s).Parsed?
    ensures WellFormed(t, false) || (Unclosed(t) && ValueAt(s).rest == "")
    ensures s == TextOf(t) + ValueAt(s).rest && Meaning(t) == ValueAt(s).value
    decreases |s|, 2
  {
    hide ItemsAt, MembersAt, StringAt, NumberAt, Skip, ItemsText, EntriesText, CharsText, NumeralText, CharsMeaning,
      GoodChars, GoodItems, GoodEntries, GoodNumeral, Space, ItemsMeaning, EntriesMeaning, NumeralMeaning;
    if "null" <= s {
      CutWord(s, "null");
      t := NullWord;
    } else if "false" <= s {
      CutWord(s, "false");
      t := FalseWord;
    } else if "true" <= s {
      CutWord(s, "true");
      t := TrueWord;
    } else if s[0] == '"' {
      t := TextBackwards(s);
    } else if s[0] == '-' || IsDigit(s[0]) {
      var minus, zero, digits := NumberBackwards(s);
      t := Numeral(minus, zero, digits);
    } else if s[0] == '[' {
      t := ElementsBackwards(s);
    } else {
      t := ObjectBackwards(s);
    }
  }

  lemma TextBackwards(s: string) returns (t: Syntax)
    requires Starts(s, '"') && StringAt(s[1..]).Parsed?
    ensures t.Characters? && (if t.closed then WellFormed(t, false) else Unclosed(t) && StringAt(s[1..]).rest == "")
    ensures s == TextOf(t) + StringAt(s[1..]).rest && Meaning(t) == Text(StringAt(s[1..]).value)
  {
    hide Closes, Chars, CharsText, CharsMeaning, GoodChars;
    var xs, closed := CharsBackwards(s[1..]);
    t := Characters(xs, closed);
    var rest := StringAt(s[1..]).rest;
    assert s == "\"" + s[1..];
    if closed {
      Associate("\"", CharsText(xs) + "\"", rest);
      Associate(CharsText(xs), "\"", rest);
    } else {
      ClosedOrNot(s, CharsText(xs), rest);
    }
  }

  lemma ClosedOrNot(s: string, x: string, rest: string)
    requires rest == "" && s == "\"" + (x + "")
    ensures s == "\"" + (x + "") + rest
  {
  }

  lemma ElementsBackwards(s: string) returns (t: Syntax)
    requires Starts(s, '[') && ValueAt(s).Parsed?
    ensures WellFormed(t, false) && s == TextOf(t) + ValueAt(s).rest && Meaning(t) == ValueAt(s).value
    decreases |s|, 1
  {
    hide ItemsAt, Skip, ItemsText, GoodItems, ItemsMeaning, Space, ValueAt;
    var u := Skip(s[1..]);
    var blank := SkipBackwards(s[1..]);
    ValueArray(s, u);
    assert s == "[" + s[1..];
    var rest := ValueAt(s).rest;
    if Starts(u, ']') {
      t := Elements(blank, []);
      assert u == "]" + rest;
      Associate("[", blank + "]", rest);
      Associate(blank, "]", rest);
      NoItems();
    } else {
      var items := ItemsBackwards([], blank, u);
      t := Elements("", items);
      Associate("[", ItemsText(items) + "]", rest);
      Associate(ItemsText(items), "]", rest);
      assert [] + ItemsMeaning(items) == ItemsMeaning(items);
      NoSpace();
    }
  }

  lemma NoItems()
    ensures GoodItems([], false) && ItemsMeaning([]) == [] && GoodEntries([], false) && EntriesMeaning([]) == []
  {
  }

  lemma NoSpace()
    ensures Space("", false)
  {
  }

  // The element that begins s, with blanks before it, and all that follow.
  lemma {:induction false} ItemsBackwards(done: seq<Value>, before: string, s: string) returns (items: seq<Item>)
    requires ItemsAt(done, s).Parsed? && Space(before, false)
    ensures items != [] && GoodItems(items, false)
    ensures ItemsAt(done, s).value == Array(done + ItemsMeaning(items))
    ensures before + s == ItemsText(items) + ("]" + ItemsAt(done, s).rest)
    decreases |s|, 3
  {
    var t := ValueBackwards(s);
    var tail := ValueAt(s).rest;
    var after := SkipBackwards(tail);
    var u := Skip(tail);
    SkipNone(tail);
    hide ValueAt, Skip, TextOf, ItemText, ItemsText, WellFormed, Meaning, Space, ItemsAt;
    AfterValue(done, s, Meaning(t), tail);
    var i := Item(before, t, after);
    ItemSplits(i, u);
    var rest := ItemsAt(done, s).rest;
    if Starts(u, ',') {
      var blank := SkipBackwards(u[1..]);
      var more := ItemsBackwards(done + [Meaning(t)], blank, Skip(u[1..]));
      items := [i] + more;
      GoodCons(i, more);
      ItemsTail(done, items);
      ItemsSplit(items, "]" + rest);
      assert u == [','] + u[1..];
    } else {
      items := [i];
      NoItems();
      GoodCons(i, []);
      assert [i] + [] == [i];
      ItemsTail(done, items);
      ItemsSplit(items, "]" + rest);
      assert u == "]" + rest;
    }
  }

  lemma SkipNone(s: string)
    ensures s == "" ==> Skip(s) == ""
  {
  }

  lemma GoodCons(i: Item, more: seq<Item>)
    requires GoodItem(i, false) && GoodItems(more, false)
    ensures GoodItems([i] + more, false) && ([i] + more)[1..] == more
  {
    hide GoodItem;
  }

  lemma ObjectBackwards(s: string) returns (t: Syntax)
    requires Starts(s, '{') && ValueAt(s).Parsed?
    ensures WellFormed(t, false) && s == TextOf(t) + ValueAt(s).rest && Meaning(t) == ValueAt(s).value
    decreases |s|, 1
  {
    hide MembersAt, Skip, EntriesText, GoodEntries, EntriesMeaning, Space, ValueAt;
    var u := Skip(s[1..]);
    var blank := SkipBackwards(s[1..]);
    ValueObject(s, u);
    assert s == "{" + s[1..];
    var rest := ValueAt(s).rest;
    if Starts(u, '}') {
      t := Entries(blank, []);
      assert u == "}" + rest;
      Associate("{", blank + "}", rest);
      Associate(blank, "}", rest);
      NoItems();
    } else {
      var entries := EntriesBackwards([], blank, u);
      t := Entries("", entries);
      Associate("{", EntriesText(entries) + "}", rest);
      Associate(EntriesText(entries), "}", rest);
      assert [] + EntriesMeaning(entries) == EntriesMeaning(entries);
      NoSpace();
    }
  }

  // The member that begins s; the blanks before it and behind it are given.
  lemma MemberBackwards(before: string, s: string, after: string, u: string) returns (e: Entry)
    requires MemberAt(s).Parsed? && Space(before, false) && Space(after, false)
    requires MemberAt(s).rest == after + u && u != ""
    ensures GoodEntry(e, false) && EntryMeaning(e) == MemberAt(s).value && before + s == EntryText(e) + u
    decreases |s|, 2
  {
    var name := TextBackwards(s);
    var r := StringAt(s[1..]);
    var middle := SkipBackwards(r.rest);
    var colon := Skip(r.rest);
    var blank := SkipBackwards(colon[1..]);
    var v := Skip(colon[1..]);
    SkipNone(r.rest);
    var t := ValueBackwards(v);
    hide ValueAt, Skip, TextOf, CharsText, WellFormed, Meaning, Space, StringAt, CharsMeaning;
    var i := Item(blank, t, after);
    e := Entry(before, name.chars, middle, i);
    EntrySplits(e, u);
    ItemSplits(i, u);
    assert colon == ":" + colon[1..];
    BareText(name, e, r.rest, u, s);
  }

  lemma BareText(name: Syntax, e: Entry, rest: string, u: string, s: string)
    requires name.Characters? && name.closed && name.chars == e.name && s == TextOf(name) + rest
    requires rest == e.middle + (":" + (ItemText(e.item) + u))
    ensures s == Bare(e, u)
  {
    hide CharsText, ItemText;
    Associate("\"", CharsText(e.name) + "\"", rest);
    Associate(CharsText(e.name), "\"", rest);
  }

  lemma AfterTail(done: seq<Member>, u: string)
    requires AfterMember(done, u).Parsed?
    ensures u != "" && if Starts(u, ',') then AfterMember(done, u) == MembersAt(done, Skip(u[1..]))
            else u == "}" + u[1..] && AfterMember(done, u) == Parsed(Object(done), u[1..])
  {
    hide MembersAt, Skip;
  }

  lemma {:induction false} EntriesBackwards(done: seq<Member>, before: string, s: string) returns (entries: seq<Entry>)
    requires MembersAt(done, s).Parsed? && Space(before, false)
    ensures entries != [] && GoodEntries(entries, false)
    ensures MembersAt(done, s).value == Object(done + EntriesMeaning(entries))
    ensures before + s == EntriesText(entries) + ("}" + MembersAt(done, s).rest)
    decreases |s|, 3
  {
    var m, tail := MemberAt(s).value, MemberAt(s).rest;
    var after := SkipBackwards(tail);
    var u := Skip(tail);
    AfterOne(done, s, m, tail);
    AfterTail(done + [m], u);
    hide MemberAt, Skip, EntryText, EntriesText, EntriesMeaning, EntryMeaning, GoodEntry, Space, MembersAt, AfterMember;
    var e := MemberBackwards(before, s, after, u);
    var rest := MembersAt(done, s).rest;
    if Starts(u, ',') {
      var blank := SkipBackwards(u[1..]);
      var more := EntriesBackwards(done + [m], blank, Skip(u[1..]));
      entries := [e] + more;
      GoodEntriesCons(e, more);
      EntriesTail(done, entries);
      EntriesSplit(entries, "}" + rest);
      assert u == [','] + u[1..];
    } else {
      entries := [e];
      NoItems();
      GoodEntriesCons(e, []);
      assert [e] + [] == [e];
      EntriesTail(done, entries);
      EntriesSplit(entries, "}" + rest);
    }
  }

  lemma GoodEntriesCons(e: Entry, more: seq<Entry>)
    requires GoodEntry(e, false) && GoodEntries(more, false)
    ensures GoodEntries([e] + more, false) && ([e] + more)[1..] == more
  {
    hide GoodEntry;
  }

  // An accepted text is one of the wider grammar.
  lemma AcceptedIsGood(s: string) returns (d: Item)
    requires Document(s, true).Parsed?
    ensures GoodDocument(d, false) && s == ItemText(d) && Document(s, true) == Parsed(Meaning(d.value), "")
  {
    var blank := SkipBackwards(s);
    var t := ValueBackwards(Skip(s));
    var rest := ValueAt(Skip(s)).rest;
    SpaceEnds(rest);
    NoSpace();
    hide ValueAt, Skip, TextOf, WellFormed, Meaning, Space;
    d := Item(blank, t, rest);
  }

  // The parser accepts a text with a value, and nothing behind it, if and only if the wider
  // grammar gives the text that meaning.
  lemma AcceptsExactly(s: string, v: Value)
    ensures Document(s, true) == Parsed(v, "") <==> exists d :: Reads(d, s, v)
  {
    hide Document, GoodDocument, ItemText, Meaning;
    if Document(s, true) == Parsed(v, "") {
      var d := AcceptedIsGood(s);
      assert Reads(d, s, v);
    }
    if d :| Reads(d, s, v) {
      Accepts(d, false, true);
    }
  }

  // d is a tree of the text s, which means v.
  predicate Reads(d: Item, s: string, v: Value) {
    GoodDocument(d, false) && ItemText(d) == s && Meaning(d.value) == v
  }

  // ---- where the parser departs from the standard ----

  lemma {:induction false} EndsBehind(xs: seq<Char>, tail: string)
    requires GoodChars(xs, false) && Closes(tail)
    ensures Closes(CharsText(xs) + tail)
    ensures JsonParser.Ends(CharsText(xs) + tail) == |CharsText(xs)| + JsonParser.Ends(tail)
  {
    if xs == [] {
      assert "" + tail == tail;
    } else {
      EndsBehind(xs[1..], tail);
      hide Closes, JsonParser.Ends, CharText, GoodChar;
      Associate(CharText(xs[0]), CharsText(xs[1..]), tail);
      OneEnds(xs[0], CharsText(xs[1..]) + tail);
    }
  }

  lemma OneEnds(x: Char, tail: string)
    requires GoodChar(x, false) && Closes(tail)
    ensures Closes(CharText(x) + tail)
    ensures JsonParser.Ends(CharText(x) + tail) == |CharText(x)| + JsonParser.Ends(tail)
  {
    CharReads(x, tail);
    var s := CharText(x) + tail;
    match x
    case Unescaped(c) =>
      assert s[1..] == tail;
    case Letter(letter) =>
      assert s[2..] == tail;
    case Unit(hex) =>
      UnitAgrees(hex);
      UnitEnds(hex, tail);
    case Pair(high, low) =>
      UnitAgrees(high);
      UnitAgrees(low);
      HexCloses4(low, tail);
      UnitEnds(low, tail);
      UnitEnds(high, ['\\', 'u'] + low + tail);
      PairText(high, low, tail);
  }

  lemma UnitEnds(hex: string, tail: string)
    requires |hex| == 4 && IsHex(hex) && Closes(tail)
    ensures var s := ['\\', 'u'] + hex + tail;
            Closes(s) && JsonParser.Ends(s) == 6 + JsonParser.Ends(tail)
  {
    HexCloses4(hex, tail);
    var s := ['\\', 'u'] + hex + tail;
    JsonParser.Backslash(s);
    assert s[2..] == hex + tail && IsHex(hex + tail) && (hex + tail)[4..] == tail;
    JsonParser.FourHex(hex + tail);
  }

  // A string that is read has no closing quote if and only if the scan for it ends with the
  // text; s begins behind the opening one.
  lemma ReadUnclosed(s: string)
    requires StringAt(s).Parsed?
    ensures (exists xs, rest :: ClosedBy(s, xs, rest)) <==> JsonParser.Ends(s) < |s|
    ensures JsonParser.Ends(s) == |s| ==> StringAt(s).rest == ""
  {
    var xs, closed := CharsBackwards(s);
    var rest := StringAt(s).rest;
    hide Chars, Closes, CharsText, CharsMeaning, GoodChars;
    if closed {
      assert ClosedBy(s, xs, rest);
    } else {
      assert CharsText(xs) + "" == CharsText(xs);
      assert Closes("") && JsonParser.Ends("") == 0;
      EndsBehind(xs, "");
    }
    if ys, more :| ClosedBy(s, ys, more) {
      QuoteEnds(more);
      EndsBehind(ys, "\"" + more);
    }
  }

  lemma QuoteEnds(more: string)
    ensures Closes("\"" + more) && JsonParser.Ends("\"" + more) == 0
  {
  }

  predicate ClosedBy(s: string, xs: seq<Char>, rest: string) {
    GoodChars(xs, false) && s == CharsText(xs) + ("\"" + rest)
  }

  // A sign is read alone, as zero, if and only if neither a digit nor a fraction follows.
  lemma ReadSign(s: string)
    requires Starts(s, '-')
    ensures NumberAt(s) == Parsed(Number(0), s[1..]) <==> !StartsDigit(s[1..]) && !Fractional(s[1..])
  {
    hide Fractional;
    var s1 := s[1..];
    if !StartsDigit(s1) {
      assert s1[..0] == "" && s1[0..] == s1;
    }
  }

  // An escape is taken if and only if it is a code unit that is neither zero nor a half of a
  // surrogate pair, or a whole pair; t begins behind the u.
  lemma EscapeTaken(t: string)
    requires Closes(t)
    ensures Unicode(t).Parsed? <==> exists x, tail :: EscapeOf(x, t, tail)
  {
    if Unicode(t).Parsed? {
      var x, tail := UnicodeBack(t);
      hide Closes, Unicode, GoodChar, CharMeaning;
      EscapeIsUnits(x, t, tail);
    }
    if x, tail :| EscapeOf(x, t, tail) {
      hide Closes, Hex4, IsHex, Utf8;
      if x.Unit? {
        UnitAgrees(x.hex);
        Hex4Prefix(x.hex, tail);
        assert t == (['\\', 'u'] + t)[2..] == x.hex + tail;
      } else {
        PairText(x.high, x.low, tail);
        PairUnits(x.high, x.low, tail);
        assert t == (['\\', 'u'] + t)[2..];
      }
    }
  }

  predicate EscapeOf(x: Char, t: string, tail: string) {
    (x.Unit? || x.Pair?) && GoodChar(x, false) && ['\\', 'u'] + t == CharText(x) + tail
  }

  lemma EscapeIsUnits(x: Char, t: string, tail: string)
    requires GoodChar(x, false) && ['\\', 'u'] + t == CharText(x) + tail
    ensures EscapeOf(x, t, tail)
  {
    var s := CharText(x) + tail;
    assert s[0] == '\\' && s[1] == 'u';
  }

  // One text for each of the three.
  lemma UnclosedText()
    ensures Document("\"a", true) == Parsed(Text("a"), "")
  {
    var d := Item("", Characters([Unescaped('a')], false), "");
    assert [Unescaped('a')][1..] == [];
    assert CharsText([Unescaped('a')]) == "a" && CharsMeaning([Unescaped('a')]) == "a";
    assert ItemText(d) == "\"a";
    Accepts(d, false, true);
  }

  lemma LoneSign()
    ensures Document("-", true) == Parsed(Number(0), "")
  {
    var d := Item("", Numeral(true, false, ""), "");
    assert ItemText(d) == "-";
    Accepts(d, false, true);
  }

  lemma ZeroUnit()
    ensures Document("\"\\u0000\"", true) == Malformed
  {
    var s, t := "\"\\u0000\"", "0000\"";
    HexCloses4("0000", "\"");
    QuoteEnds("");
    assert "0000" + "\"" == t && ['\\', 'u'] + "0000" + "\"" == s[1..];
    assert Hex4(t) == 0;
    hide Hex4, IsHex, Closes;
    assert s[1..][2..] == t && Unicode(t) == Malformed;
    assert StringAt(s[1..]) == Malformed;
    hide StringAt;
    ValueText(s);
    SkipNothing(s);
  }
}
