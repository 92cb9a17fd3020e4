// Printed text is text of RFC 8259 that means the printed value: so parsing inverts printing.

module JsonRoundTrip {
  import opened Json
  import opened Texts
  import opened JsonGrammar
  import opened JsonStandard

  // ---- numbers ----

  lemma {:induction false} DecimalBack(n: nat)
    ensures DigitsBelow(10, Decimal(n)) && DecimalValue(Decimal(n)) == n && (n > 0 ==> Decimal(n)[0] != '0')
  {
    var d := Decimal(n);
    NaturalAgrees(d);
    if n < 10 {
      assert d[..0] == "";
    } else {
      DecimalBack(n / 10);
      assert d[..|d| - 1] == Decimal(n / 10);
    }
  }

  // t is a text of the standard with this meaning.
  ghost predicate Writes(t: Syntax, text: string, v: Value) {
    WellFormed(t, true) && WellFormed(t, false) && TextOf(t) == text && Meaning(t) == v
  }

  lemma PrintedNumber(n: int) returns (t: Syntax)
    requires -0x8000_0000 <= n < 0x8000_0000
    ensures Writes(t, PrintNumber(n), Number(n))
  {
    if n == 0 {
      t := Numeral(false, true, "");
      assert Decimal(0) == "0";
    } else {
      var m: nat := if n < 0 then -n else n;
      DecimalBack(m);
      t := Numeral(n < 0, false, Decimal(m));
      NumeralWrites(n < 0, m, Decimal(m));
    }
  }

  lemma NumeralWrites(minus: bool, m: nat, d: string)
    requires DigitsBelow(10, d) && DecimalValue(d) == m <= EXACT && d != "" && d[0] != '0'
    ensures Writes(Numeral(minus, false, d), (if minus then "-" else "") + d,
                   Number(if minus then 0 - m as int else m as int))
  {
    hide DecimalValue, DigitsBelow;
    assert "" + d == d && "" + ("" + d) == d && !Starts(d, '0');
    assert GoodNumeral(minus, false, d, true) && GoodNumeral(minus, false, d, false);
    assert NumeralMeaning(minus, d) == if minus then 0 - m as int else m as int;
    hide GoodNumeral, NumeralMeaning;
  }

  // ---- strings ----

  lemma HexBack(v: nat)
    requires v < 16
    ensures DigitValue(HexChar(v)) == v
  {
  }

  lemma PrintedChar(c: char) returns (x: Char)
    requires c != '\0'
    ensures GoodChar(x, true) && GoodChar(x, false) && CharText(x) == Escape(c) && CharMeaning(x) == [c]
  {
    if Short(c) != '\0' {
      x := Letter(Short(c));
    } else if IsControl(c) {
      var hex := ['0', '0', HexChar(c as int / 16), HexChar(c as int % 16)];
      HexBack(c as int / 16);
      HexBack(c as int % 16);
      assert DigitValue('0') == 0;
      hide HexChar, DigitValue;
      x := Unit(hex);
      assert UnitValue(hex) == c as int;
      assert CharText(x) == Escape(c);
    } else {
      x := Unescaped(c);
    }
  }

  lemma {:induction false} PrintedChars(s: string) returns (xs: seq<Char>)
    requires '\0' !in s
    ensures GoodChars(xs, true) && GoodChars(xs, false) && CharsText(xs) == Escaped(s) && CharsMeaning(xs) == s
  {
    if s == "" {
      xs := [];
    } else {
      var x := PrintedChar(s[0]);
      var more := PrintedChars(s[1..]);
      hide GoodChar, CharText, CharMeaning, Escape;
      xs := [x] + more;
      assert xs[1..] == more && [s[0]] + s[1..] == s;
    }
  }

  lemma PrintedText(s: string) returns (t: Syntax)
    requires '\0' !in s
    ensures Writes(t, Quoted(s), Value.Text(s))
  {
    var xs := PrintedChars(s);
    t := Characters(xs, true);
    hide GoodChars, CharsText, CharsMeaning, Escaped;
    Associate("\"", CharsText(xs), "\"");
  }

  // ---- values ----

  // The blanks of formatted output.
  lemma Formats(fmt: bool, depth: nat)
    ensures Space(If(fmt, " "), true) && Space(If(fmt, "\t"), true) && Space("", true)
    ensures Space(If(fmt, "\n"), true) && Space(If(fmt, Tabs(depth)), true)
    ensures Space(If(fmt, "\n") + If(fmt, Tabs(depth)), true)
  {
  }

  // What is printed is a text of the standard, and means the value that is printed.
  lemma {:induction false} PrintsStandard(v: Value, depth: nat, fmt: bool) returns (t: Syntax)
    requires Printable(v)
    ensures Writes(t, Print(v, depth, fmt), v)
    decreases v, 0
  {
    Formats(fmt, depth);
    hide PrintItems, PrintMembers, ItemsText, EntriesText, GoodItems, GoodEntries, ItemsMeaning, EntriesMeaning, Space,
      PrintNumber, Quoted, Tabs, If;
    match v
    case Null => t := NullWord;
    case False => t := FalseWord;
    case True => t := TrueWord;
    case Number(n) => t := PrintedNumber(n);
    case Text(s) => t := PrintedText(s);
    case Array(items) =>
      var ts := [];
      if items != [] {
        ts := PrintedItems("", items, depth + 1, fmt);
      }
      t := ArrayWrites(ts, items, depth, fmt);
    case Object(members) =>
      var es := [];
      if members != [] {
        es := PrintedMembers(If(fmt, "\n"), members, depth + 1, fmt, If(fmt, Tabs(depth)));
      }
      t := ObjectWrites(es, members, depth, fmt);
  }

  lemma ArrayWrites(ts: seq<Item>, items: seq<Value>, depth: nat, fmt: bool) returns (t: Syntax)
    requires if items == [] then ts == [] else WritesItems(ts, "" + PrintItems(items, depth + 1, fmt), items)
    ensures Writes(t, Print(Array(items), depth, fmt), Array(items))
  {
    t := Elements("", ts);
    Formats(fmt, depth);
    EmptyLists();
    EmptyText(depth + 1, fmt);
    hide PrintItems, ItemsText, GoodItems, ItemsMeaning, Space;
    Brackets(PrintItems(items, depth + 1, fmt));
  }

  lemma ObjectWrites(es: seq<Entry>, members: seq<Member>, depth: nat, fmt: bool) returns (t: Syntax)
    requires var text := If(fmt, "\n") + PrintMembers(members, depth + 1, fmt) + If(fmt, Tabs(depth));
             if members == [] then es == [] else WritesEntries(es, text, members)
    ensures Writes(t, Print(Object(members), depth, fmt), Object(members))
  {
    t := Entries(if members == [] then If(fmt, "\n") + If(fmt, Tabs(depth)) else "", es);
    Formats(fmt, depth);
    EmptyLists();
    EmptyText(depth + 1, fmt);
    hide PrintMembers, EntriesText, GoodEntries, EntriesMeaning, Space, If, Tabs;
    Braces(If(fmt, "\n"), PrintMembers(members, depth + 1, fmt), If(fmt, Tabs(depth)));
  }

  lemma EmptyLists()
    ensures GoodItems([], true) && GoodItems([], false) && ItemsMeaning([]) == []
    ensures GoodEntries([], true) && GoodEntries([], false) && EntriesMeaning([]) == []
  {
  }

  lemma Brackets(x: string)
    ensures "[" + x + "]" == "[" + (x + "]") && "" + x == x
  {
  }

  lemma Braces(open: string, x: string, close: string)
    ensures "{" + open + x + close + "}" == "{" + (open + x + close + "}")
    ensures "" + (open + x + close) == open + x + close && (x == "" ==> open + x + close == open + close)
  {
  }

  // ---- elements ----

  ghost predicate WritesItems(ts: seq<Item>, text: string, items: seq<Value>) {
    && ts != [] && GoodItems(ts, true) && GoodItems(ts, false)
    && ItemsText(ts) == text && ItemsMeaning(ts) == items
  }

  lemma OneItem(i: Item, v: Value, p: string)
    requires Writes(i.value, p, v) && Space(i.before, true) && i.after == ""
    ensures WritesItems([i], i.before + p, [v])
  {
    hide TextOf, Meaning, WellFormed;
    ItemPlain(i, v, p);
    EmptyLists();
    GoodItemsCons(i, [], true);
    GoodItemsCons(i, [], false);
    hide Writes, GoodItem, GoodItems, ItemText;
    assert [i] + [] == [i] && [i][1..] == [] && ItemText(i) + "" == ItemText(i);
  }

  lemma ItemPlain(i: Item, v: Value, p: string)
    requires Writes(i.value, p, v) && Space(i.before, true) && i.after == ""
    ensures GoodItem(i, true) && GoodItem(i, false) && ItemText(i) == i.before + p
  {
    hide TextOf, Meaning, WellFormed;
    assert p + "" == p;
  }

  lemma MoreItems(i: Item, v: Value, p: string, more: seq<Item>, text: string, vs: seq<Value>)
    requires Writes(i.value, p, v) && Space(i.before, true) && i.after == "" && WritesItems(more, text, vs)
    ensures WritesItems([i] + more, i.before + p + ("," + text), [v] + vs)
  {
    hide TextOf, Meaning, WellFormed;
    ItemPlain(i, v, p);
    GoodItemsCons(i, more, true);
    GoodItemsCons(i, more, false);
    hide GoodItem, GoodItems, ItemText;
    assert ([i] + more)[1..] == more;
  }

  lemma GoodItemsCons(i: Item, more: seq<Item>, strict: bool)
    requires GoodItem(i, strict) && GoodItems(more, strict)
    ensures GoodItems([i] + more, strict)
  {
    hide GoodItem;
  }

  lemma {:induction false} PrintedItems(before: string, items: seq<Value>, depth: nat, fmt: bool)
    returns (ts: seq<Item>)
    requires items != [] && (forall i :: 0 <= i < |items| ==> Printable(items[i])) && Space(before, true)
    ensures WritesItems(ts, before + PrintItems(items, depth, fmt), items)
    decreases items
  {
    hide Print, Writes, WritesItems, Space, Printable;
    var p, rest := Print(items[0], depth, fmt), PrintItems(items[1..], depth, fmt);
    var t := PrintsStandard(items[0], depth, fmt);
    var i := Item(before, t, "");
    if |items| == 1 {
      OneItem(i, items[0], p);
      EmptyText(depth, fmt);
      assert items == [items[0]] && items[1..] == [] && p + "" + "" == p;
      ts := [i];
    } else {
      Formats(fmt, depth);
      var more := PrintedItems(If(fmt, " "), items[1..], depth, fmt);
      MoreItems(i, items[0], p, more, If(fmt, " ") + rest, items[1..]);
      assert items == [items[0]] + items[1..];
      hide PrintItems, If;
      assert PrintItems(items, depth, fmt) == p + ("," + If(fmt, " ")) + rest by {
        ItemsStep(items, depth, fmt);
      }
      ItemsJoin(before, p, If(fmt, " "), rest);
      ts := [i] + more;
    }
  }

  lemma ItemsStep(items: seq<Value>, depth: nat, fmt: bool)
    requires |items| > 1
    ensures PrintItems(items, depth, fmt) ==
            Print(items[0], depth, fmt) + ("," + If(fmt, " ")) + PrintItems(items[1..], depth, fmt)
  {
    hide Print, If;
  }

  lemma ItemsJoin(before: string, p: string, sp: string, rest: string)
    ensures before + p + ("," + (sp + rest)) == before + (p + ("," + sp) + rest)
  {
  }

  // ---- members ----

  ghost predicate WritesEntries(es: seq<Entry>, text: string, members: seq<Member>) {
    && es != [] && GoodEntries(es, true) && GoodEntries(es, false)
    && EntriesText(es) == text && EntriesMeaning(es) == members
  }

  lemma OneEntry(e: Entry, m: Member)
    requires GoodEntry(e, true) && GoodEntry(e, false) && EntryMeaning(e) == m
    ensures WritesEntries([e], EntryText(e), [m])
  {
    hide EntryText, EntryMeaning, GoodEntry;
    assert EntryText(e) + "" == EntryText(e) && [e][1..] == [];
    EmptyLists();
  }

  lemma MoreEntries(e: Entry, m: Member, more: seq<Entry>, text: string, ms: seq<Member>)
    requires GoodEntry(e, true) && GoodEntry(e, false) && EntryMeaning(e) == m && WritesEntries(more, text, ms)
    ensures WritesEntries([e] + more, EntryText(e) + ("," + text), [m] + ms)
  {
    hide EntryText, EntryMeaning, GoodEntry;
    assert ([e] + more)[1..] == more;
    hide GoodEntries, EntriesMeaning;
    GoodEntriesMore(e, more, true);
    GoodEntriesMore(e, more, false);
  }

  lemma GoodEntriesMore(e: Entry, more: seq<Entry>, strict: bool)
    requires GoodEntry(e, strict) && GoodEntries(more, strict)
    ensures GoodEntries([e] + more, strict)
  {
    hide GoodEntry;
  }

  // One member with what the format puts before and behind it.
  lemma {:induction false} PrintedMember(before: string, m: Member, depth: nat, fmt: bool, after: string)
    returns (e: Entry)
    requires '\0' !in m.name && Printable(m.value) && Space(before, true) && Space(after, true)
    ensures GoodEntry(e, true) && GoodEntry(e, false) && EntryMeaning(e) == m
    ensures EntryText(e) == before + PrintMember(m, depth, fmt) + after
    decreases m, 0
  {
    hide Printable, Print, TextOf, Meaning, WellFormed, CharsText, CharsMeaning, GoodChars, Escaped;
    var name := PrintedChars(m.name);
    var t := PrintsStandard(m.value, depth, fmt);
    Formats(fmt, depth);
    IndentSpace(before, fmt, depth);
    e := Entry(before + If(fmt, Tabs(depth)), name, "", Item(If(fmt, "\t"), t, after));
    assert GoodItem(e.item, true) && GoodItem(e.item, false);
    hide If, Tabs;
    MemberJoin(before, If(fmt, Tabs(depth)), Escaped(m.name), If(fmt, "\t"), Print(m.value, depth, fmt), after);
  }

  lemma IndentSpace(before: string, fmt: bool, depth: nat)
    requires Space(before, true)
    ensures Space(before + If(fmt, Tabs(depth)), true)
  {
  }

  lemma MemberJoin(before: string, tabs: string, name: string, tab: string, p: string, after: string)
    ensures before + tabs + ("\"" + (name + ("\"" + ("" + (":" + (tab + (p + after))))))) ==
            before + (tabs + ("\"" + name + "\"") + ":" + tab + p) + after
  {
  }

  lemma {:induction false} PrintedMembers(before: string, members: seq<Member>, depth: nat, fmt: bool, close: string)
    returns (es: seq<Entry>)
    requires members != [] && Space(before, true) && Space(close, true)
    requires forall i :: 0 <= i < |members| ==> '\0' !in members[i].name && Printable(members[i].value)
    ensures WritesEntries(es, before + PrintMembers(members, depth, fmt) + close, members)
    decreases members
  {
    hide WritesEntries, Space, Printable, PrintMember, EntryText, GoodEntry, EntryMeaning;
    var m, last := members[0], |members| == 1;
    var nl, p, rest := If(fmt, "\n"), PrintMember(m, depth, fmt), PrintMembers(members[1..], depth, fmt);
    if last {
      CloseSpace(fmt, close);
      var e := PrintedMember(before, m, depth, fmt, nl + close);
      OneEntry(e, m);
      EmptyText(depth, fmt);
      assert members == [m] && members[1..] == [];
      hide PrintMembers, If;
      assert PrintMembers(members, depth, fmt) == p + nl by {
        LastStep(members, depth, fmt);
      }
      LastJoin(before, p, nl, close);
      es := [e];
    } else {
      Formats(fmt, depth);
      var e := PrintedMember(before, m, depth, fmt, "");
      var more := PrintedMembers(nl, members[1..], depth, fmt, close);
      MoreEntries(e, m, more, nl + rest + close, members[1..]);
      assert members == [m] + members[1..];
      hide PrintMembers, If;
      assert PrintMembers(members, depth, fmt) == p + ("," + nl) + rest by {
        MembersStep(members, depth, fmt);
      }
      MembersJoin(before, p, nl, rest, close);
      es := [e] + more;
    }
  }

  lemma CloseSpace(fmt: bool, close: string)
    requires Space(close, true)
    ensures Space(If(fmt, "\n") + close, true)
  {
  }

  lemma LastStep(members: seq<Member>, depth: nat, fmt: bool)
    requires |members| == 1
    ensures PrintMembers(members, depth, fmt) == PrintMember(members[0], depth, fmt) + If(fmt, "\n")
  {
    hide PrintMember, If;
    var p, nl := PrintMember(members[0], depth, fmt), If(fmt, "\n");
    assert members[1..] == [] && "" + nl == nl && p + nl + "" == p + nl;
  }

  lemma MembersStep(members: seq<Member>, depth: nat, fmt: bool)
    requires |members| > 1
    ensures PrintMembers(members, depth, fmt) ==
            PrintMember(members[0], depth, fmt) + ("," + If(fmt, "\n")) + PrintMembers(members[1..], depth, fmt)
  {
    hide PrintMember, If;
  }

  lemma LastJoin(before: string, p: string, nl: string, close: string)
    ensures before + p + (nl + close) == before + (p + nl) + close
  {
  }

  lemma MembersJoin(before: string, p: string, nl: string, rest: string, close: string)
    ensures before + p + "" + ("," + (nl + rest + close)) == before + (p + ("," + nl) + rest) + close
  {
  }

  // ---- reading back what was written ----

  // A printed value is a text of the standard with that value, formatted or not.
  lemma PrintedIsStandard(v: Value, fmt: bool) returns (d: Item)
    requires Printable(v)
    ensures GoodDocument(d, true) && GoodDocument(d, false) && ItemText(d) == Print(v, 0, fmt)
    ensures Meaning(d.value) == v && d.after == ""
  {
    var t := PrintsStandard(v, 0, fmt);
    d := Item("", t, "");
    hide TextOf, Print, Meaning, WellFormed;
    assert "" + (Print(v, 0, fmt) + "") == Print(v, 0, fmt);
  }

  lemma RoundTrip(v: Value, fmt: bool, requireEnd: bool)
    requires Printable(v)
    ensures Document(Print(v, 0, fmt), requireEnd) == Parsed(v, "")
  {
    var d := PrintedIsStandard(v, fmt);
    hide GoodDocument, ItemText, Meaning, Print, Printable, Document;
    Accepts(d, true, requireEnd);
  }

  // So no two values are printed alike, in either format.
  lemma PrintedOnce(v: Value, w: Value, fmt: bool, fmt': bool)
    requires Printable(v) && Printable(w) && Print(v, 0, fmt) == Print(w, 0, fmt')
    ensures v == w
  {
    hide Print, Printable, Document;
    RoundTrip(v, fmt, true);
    RoundTrip(w, fmt', true);
  }
}
