// cJSON.c: values, and how they are printed, formatted or not. A list of children that
// the source links by next is a sequence here; text is a C string without its zero.

module Json {
  import opened Texts

  datatype Value =
    | Null
    | False
    | True
    | Number(n: int)
    | Text(s: string)
    | Array(items: seq<Value>)
    | Object(members: seq<Member>)

  datatype Member = Member(name: string, value: Value)

  // Strings are C strings, numbers 32-bit integers.
  ghost predicate Printable(v: Value) {
    match v
    case Number(n) => -0x8000_0000 <= n < 0x8000_0000
    case Text(s) => '\0' !in s
    case Array(items) => forall i :: 0 <= i < |items| ==> Printable(items[i])
    case Object(members) => forall i :: 0 <= i < |members| ==> '\0' !in members[i].name && Printable(members[i].value)
    case _ => true
  }

  // ---- the text of a value ----

  function PrintNumber(n: int): string {
    if n < 0 then "-" + Decimal(-n) else Decimal(n)
  }

  const BACKSPACE: char := 8 as char
  const FORM_FEED: char := 12 as char

  predicate IsControl(c: char) {
    c as int < 32
  }

  // The letter of a short escape.
  function Short(c: char): (letter: char)
    ensures letter == '\0' <==> c !in ['\\', '"', BACKSPACE, FORM_FEED, '\n', '\r', '\t']
  {
    if c == '\\' || c == '"' then c
    else if c == BACKSPACE then 'b'
    else if c == FORM_FEED then 'f'
    else if c == '\n' then 'n'
    else if c == '\r' then 'r'
    else if c == '\t' then 't'
    else '\0'
  }

  function Escape(c: char): (s: string)
    ensures 1 <= |s| <= 6
  {
    if Short(c) != '\0' then ['\\', Short(c)]
    else if IsControl(c) then ['\\', 'u', '0', '0', HexChar(c as int / 16), HexChar(c as int % 16)]
    else [c]
  }

  function Escaped(s: string): string {
    if s == "" then "" else Escape(s[0]) + Escaped(s[1..])
  }

  function Quoted(s: string): string {
    "\"" + Escaped(s) + "\""
  }

  lemma QuotedTail(s: string, t: string)
    ensures Quoted(s) + t != "" && (Quoted(s) + t)[0] == '"' && (Quoted(s) + t)[1..] == Escaped(s) + ("\"" + t)
    ensures Escaped(s) + ("\"" + t) == Escaped(s) + "\"" + t
  {
    QuoteTail(Escaped(s), t);
  }

  lemma QuoteTail(e: string, t: string)
    ensures ("\"" + e + "\"" + t)[1..] == e + ("\"" + t) == e + "\"" + t
  {
  }

  function Tabs(n: nat): (s: string)
    ensures |s| == n
  {
    seq(n, _ => '\t')
  }

  // Only formatted output has the text x.
  function If(fmt: bool, x: string): string {
    if fmt then x else ""
  }

  function ItemEnd(last: bool, fmt: bool): string {
    if last then "" else "," + If(fmt, " ")
  }

  function MemberEnd(last: bool, fmt: bool): string {
    (if last then "" else ",") + If(fmt, "\n")
  }

  function Print(v: Value, depth: nat, fmt: bool): string
    decreases v, 0
  {
    match v
    case Null => "null"
    case False => "false"
    case True => "true"
    case Number(n) => PrintNumber(n)
    case Text(s) => Quoted(s)
    case Array(items) => "[" + PrintItems(items, depth + 1, fmt) + "]"
    case Object(members) => "{" + If(fmt, "\n") + PrintMembers(members, depth + 1, fmt) + If(fmt, Tabs(depth)) + "}"
  }

  function PrintItems(items: seq<Value>, depth: nat, fmt: bool): string
    decreases items
  {
    if items == [] then ""
    else Print(items[0], depth, fmt) + ItemEnd(|items| == 1, fmt) + PrintItems(items[1..], depth, fmt)
  }

  function PrintMember(m: Member, depth: nat, fmt: bool): string
    decreases m
  {
    If(fmt, Tabs(depth)) + Quoted(m.name) + ":" + If(fmt, "\t") + Print(m.value, depth, fmt)
  }

  function PrintMembers(members: seq<Member>, depth: nat, fmt: bool): string
    decreases members
  {
    if members == [] then ""
    else PrintMember(members[0], depth, fmt) + MemberEnd(|members| == 1, fmt) + PrintMembers(members[1..], depth, fmt)
  }

  // ---- print_string_ptr ----

  lemma EscapedNext(s: string, k: nat, done: string)
    requires k < |s| && done + Escaped(s[k..]) == Escaped(s)
    ensures (done + Escape(s[k])) + Escaped(s[k + 1..]) == Escaped(s)
  {
    hide Escape;
    assert s[k..][1..] == s[k + 1..];
    EscapedFirst(s[k..]);
    hide Escaped;
    Associate(done, Escape(s[k]), Escaped(s[k + 1..]));
  }

  lemma EscapedFirst(s: string)
    ensures Escaped("") == "" && (s != "" ==> Escaped(s) == Escape(s[0]) + Escaped(s[1..]))
  {
  }

  lemma EscapedStart(s: string)
    ensures "" + Escaped(s[0..]) == Escaped(s) && Escaped("") == ""
  {
    assert s[0..] == s;
  }

  lemma {:induction false} PlainText(s: string)
    requires forall i :: 0 <= i < |s| ==> s[i] !in "\"\\" && !IsControl(s[i])
    ensures Escaped(s) == s
  {
    if s != "" {
      PlainText(s[1..]);
      assert s == [s[0]] + s[1..];
    }
  }

  // The text takes exactly the room that was counted.
  method PrintString(s: string) returns (out: string)
    ensures out == Quoted(s)
  {
    var flag, k: nat := false, 0;
    while k < |s|
      invariant k <= |s| && (flag || forall i :: 0 <= i < k ==> s[i] !in "\"\\" && !IsControl(s[i]))
    {
      flag := flag || IsControl(s[k]) || s[k] == '"' || s[k] == '\\';
      k := k + 1;
    }
    if !flag {
      PlainText(s);
      return "\"" + s + "\"";
    }
    var len := CountEscaped(s);
    out, k := "\"", 0;
    EscapedStart(s);
    ghost var done := "";
    while k < |s|
      invariant k <= |s| && out == "\"" + done && done + Escaped(s[k..]) == Escaped(s)
    {
      EscapedNext(s, k, done);
      var c := s[k];
      if !IsControl(c) && c != '"' && c != '\\' {
        out := out + [c];
      } else {
        out := out + "\\";
        if Short(c) != '\0' {
          out := out + [Short(c)];
        } else {
          out := out + ['u', '0', '0', HexChar(c as int / 16), HexChar(c as int % 16)];
        }
      }
      assert out == ("\"" + done) + Escape(c);
      done := done + Escape(c);
      k := k + 1;
    }
    assert done + "" == done;
    out := out + "\"";
    assert |out| + 1 == len + 3;
  }

  method CountEscaped(s: string) returns (len: nat)
    ensures len == |Escaped(s)|
  {
    len := 0;
    var k: nat := 0;
    ghost var done := "";
    EscapedStart(s);
    while k < |s|
      invariant k <= |s| && len == |done| && done + Escaped(s[k..]) == Escaped(s)
    {
      EscapedNext(s, k, done);
      len := len + 1;
      if Short(s[k]) != '\0' {
        len := len + 1;
      } else if IsControl(s[k]) {
        len := len + 5;
      }
      done := done + Escape(s[k]);
      k := k + 1;
    }
    assert done + "" == done;
  }

  // ---- print_value, print_array, print_object ----

  method PrintValue(v: Value, depth: nat, fmt: bool) returns (out: string)
    ensures out == Print(v, depth, fmt)
    decreases v, 1
  {
    match v
    case Null => out := "null";
    case False => out := "false";
    case True => out := "true";
    case Number(n) => out := if n == 0 then "0" else PrintNumber(n);
    case Text(s) => out := PrintString(s);
    case Array(items) => out := PrintArray(items, depth, fmt);
    case Object(members) => out := PrintObject(members, depth, fmt);
  }

  // What the entries contribute to the length that is allocated.
  function Room(entries: seq<string>, each: nat): nat {
    if entries == [] then 0 else |entries[0]| + each + Room(entries[1..], each)
  }

  lemma {:induction false} RoomMore(entries: seq<string>, e: string, each: nat)
    ensures Room(entries + [e], each) == Room(entries, each) + |e| + each
  {
    if entries == [] {
      assert [e][1..] == [] && [] + [e] == [e];
    } else {
      assert (entries + [e])[1..] == entries[1..] + [e];
      RoomMore(entries[1..], e, each);
    }
  }

  lemma RoomNext(entries: seq<string>, k: nat, each: nat)
    requires k < |entries|
    ensures Room(entries[k..], each) == |entries[k]| + each + Room(entries[k + 1..], each)
  {
    assert entries[k..][1..] == entries[k + 1..];
  }

  lemma ItemsNext(goal: string, done: string, items: seq<Value>, k: nat, depth: nat, fmt: bool)
    requires k < |items| && goal == done + PrintItems(items[k..], depth, fmt)
    ensures goal ==
      done + Print(items[k], depth, fmt) + ItemEnd(k == |items| - 1, fmt) + PrintItems(items[k + 1..], depth, fmt)
  {
    assert items[k..][1..] == items[k + 1..];
    hide Print;
    Glue3(done, Print(items[k], depth, fmt), ItemEnd(k == |items| - 1, fmt), PrintItems(items[k + 1..], depth, fmt));
  }

  lemma Glue3(a: string, b: string, c: string, d: string)
    ensures a + (b + c + d) == a + b + c + d
  {
  }

  method PrintArray(items: seq<Value>, depth: nat, fmt: bool) returns (out: string)
    ensures out == Print(Array(items), depth, fmt)
    decreases items
  {
    hide Print, PrintItems;
    if |items| == 0 {
      EmptyText(depth, fmt);
      return "[]";
    }
    var entries: seq<string>, len: nat, i: nat := [], 5, 0;
    ghost var each: nat := if fmt then 3 else 2;
    while i < |items|
      invariant i <= |items| && |entries| == i && forall k ::
        0 <= k < i ==> entries[k] == Print(items[k], depth + 1, fmt)
      invariant len == 5 + Room(entries, each)
    {
      var ret := PrintValue(items[i], depth + 1, fmt);
      RoomMore(entries, ret, each);
      entries := entries + [ret];
      len := len + |ret| + 2 + if fmt then 1 else 0;
      i := i + 1;
    }
    out := ComposeArray(items, entries, len, depth + 1, fmt);
    ArrayText(items, depth, fmt);
  }

  // The output is composed in the length that was allocated.
  method ComposeArray(items: seq<Value>, entries: seq<string>, len: nat, depth: nat, fmt: bool) returns (out: string)
    requires |entries| == |items| && forall k :: 0 <= k < |items| ==> entries[k] == Print(items[k], depth, fmt)
    requires len == 5 + Room(entries, if fmt then 3 else 2)
    ensures out == "[" + PrintItems(items, depth, fmt) + "]" && |out| + 1 <= len
  {
    hide Print, PrintItems;
    ghost var each: nat, goal, done := if fmt then 3 else 2, PrintItems(items, depth, fmt), "";
    var i: nat := 0;
    out := "[";
    assert items[0..] == items && entries[0..] == entries;
    while i < |items|
      invariant i <= |items| && out == "[" + done && goal == done + PrintItems(items[i..], depth, fmt)
      invariant |out| + Room(entries[i..], each) + 4 <= len
    {
      ItemsNext(goal, done, items, i, depth, fmt);
      RoomNext(entries, i, each);
      var text := entries[i];
      if i != |items| - 1 {
        text := text + ",";
        if fmt {
          text := text + " ";
        }
      }
      assert text == Print(items[i], depth, fmt) + ItemEnd(i == |items| - 1, fmt);
      Extend("[", done, Print(items[i], depth, fmt), ItemEnd(i == |items| - 1, fmt), out, text);
      done := done + Print(items[i], depth, fmt) + ItemEnd(i == |items| - 1, fmt);
      out := out + text;
      i := i + 1;
    }
    EmptyText(depth, fmt);
    assert items[i..] == [] && done + "" == done;
    out := out + "]";
  }

  lemma Extend(start: string, done: string, a: string, b: string, out: string, text: string)
    requires out == start + done && text == a + b
    ensures out + text == start + (done + a + b)
  {
  }

  lemma MembersNext(goal: string, done: string, members: seq<Member>, k: nat, depth: nat, fmt: bool)
    requires k < |members| && goal == done + PrintMembers(members[k..], depth, fmt)
    ensures goal ==
      done + PrintMember(members[k], depth, fmt) + MemberEnd(k == |members| - 1, fmt)
        + PrintMembers(members[k + 1..], depth, fmt)
  {
    assert members[k..][1..] == members[k + 1..];
    hide PrintMember, MemberEnd;
    Glue3(done, PrintMember(members[k], depth, fmt), MemberEnd(k == |members| - 1, fmt),
      PrintMembers(members[k + 1..], depth, fmt));
  }

  // The name and the value of one member, printed.
  ghost predicate Collected(name: string, entry: string, m: Member, depth: nat, fmt: bool) {
    name == Quoted(m.name) && entry == Print(m.value, depth, fmt)
  }

  method PrintObject(members: seq<Member>, depth: nat, fmt: bool) returns (out: string)
    ensures out == Print(Object(members), depth, fmt)
    decreases members
  {
    hide Print, PrintMembers, PrintMember, Tabs, Quoted;
    if |members| == 0 {
      EmptyText(depth, fmt);
      out := "{";
      if fmt {
        out := out + "\n" + Tabs(depth);
      }
      out := out + "}";
      return;
    }
    var names: seq<string>, entries: seq<string>, len: nat, i: nat := [], [], 7 + if fmt then depth + 1 else 0, 0;
    ghost var each: nat, rows: seq<string> := if fmt then depth + 5 else 2, [];
    while i < |members|
      invariant i <= |members| && |names| == |entries| == |rows| == i
      invariant forall k :: 0 <= k < i ==> Collected(names[k], entries[k], members[k], depth + 1, fmt)
      invariant forall k :: 0 <= k < i ==> |rows[k]| == |names[k]| + |entries[k]|
      invariant len == 7 + (if fmt then depth + 1 else 0) + Room(rows, each)
    {
      var str := PrintString(members[i].name);
      var ret := PrintValue(members[i].value, depth + 1, fmt);
      RoomMore(rows, str + ret, each);
      names, entries, rows := names + [str], entries + [ret], rows + [str + ret];
      len := len + |ret| + |str| + 2 + if fmt then 2 + depth + 1 else 0;
      i := i + 1;
    }
    out := ComposeObject(members, names, entries, rows, len, depth + 1, fmt);
    ObjectText(members, depth, fmt);
  }

  // The output is composed in the length that was allocated; depth is that of the members.
  method ComposeObject(members: seq<Member>, names: seq<string>, entries: seq<string>, ghost rows: seq<string>,
                       len: nat, depth: nat, fmt: bool)
    returns (out: string)
    requires |names| == |entries| == |rows| == |members| && depth >= 1
    requires forall k :: 0 <= k < |members| ==> Collected(names[k], entries[k], members[k], depth, fmt)
    requires forall k :: 0 <= k < |members| ==> |rows[k]| == |names[k]| + |entries[k]|
    requires len == 7 + (if fmt then depth else 0) + Room(rows, if fmt then depth + 4 else 2)
    ensures out == "{" + If(fmt, "\n") + PrintMembers(members, depth, fmt) + If(fmt, Tabs(depth - 1)) + "}"
      && |out| + 1 <= len
  {
    hide Print, PrintMembers, PrintMember, Tabs, Quoted, Collected;
    ghost var each: nat := if fmt then depth + 4 else 2;
    var i: nat := 0;
    out := "{";
    if fmt {
      out := out + "\n";
    }
    ghost var start, goal, done := out, PrintMembers(members, depth, fmt), "";
    assert members[0..] == members && rows[0..] == rows;
    while i < |members|
      invariant i <= |members| && out == start + done && goal == done + PrintMembers(members[i..], depth, fmt)
      invariant |out| + Room(rows[i..], each) + (if fmt then depth + 5 else 5) <= len
    {
      MembersNext(goal, done, members, i, depth, fmt);
      RoomNext(rows, i, each);
      var text := ComposeMember(members[i], names[i], entries[i], depth, fmt);
      if i != |members| - 1 {
        text := text + ",";
      }
      if fmt {
        text := text + "\n";
      }
      assert text == PrintMember(members[i], depth, fmt) + MemberEnd(i == |members| - 1, fmt);
      Extend(start, done, PrintMember(members[i], depth, fmt), MemberEnd(i == |members| - 1, fmt), out, text);
      done := done + PrintMember(members[i], depth, fmt) + MemberEnd(i == |members| - 1, fmt);
      out := out + text;
      i := i + 1;
    }
    EmptyText(depth, fmt);
    assert members[i..] == [] && done + "" == done;
    if fmt {
      out := out + Tabs(depth - 1);
    }
    out := out + "}";
  }

  method ComposeMember(ghost m: Member, name: string, entry: string, depth: nat, fmt: bool) returns (text: string)
    requires Collected(name, entry, m, depth, fmt)
    ensures text == PrintMember(m, depth, fmt) && |text| == |name| + |entry| + 1 + if fmt then depth + 1 else 0
  {
    hide Print, Tabs, Quoted;
    text := "";
    if fmt {
      text := text + Tabs(depth);
    }
    text := text + name + ":";
    if fmt {
      text := text + "\t";
    }
    text := text + entry;
  }

  lemma ObjectText(members: seq<Member>, depth: nat, fmt: bool)
    ensures Print(Object(members), depth, fmt) ==
            "{" + If(fmt, "\n") + PrintMembers(members, depth + 1, fmt) + If(fmt, Tabs(depth)) + "}"
  {
  }

  lemma EmptyText(depth: nat, fmt: bool)
    ensures PrintItems([], depth, fmt) == "" && PrintMembers([], depth, fmt) == ""
    ensures Print(Array([]), depth, fmt) == "[]"
    ensures Print(Object([]), depth, fmt) == "{" + If(fmt, "\n") + If(fmt, Tabs(depth)) + "}"
  {
  }

  lemma ArrayText(items: seq<Value>, depth: nat, fmt: bool)
    ensures Print(Array(items), depth, fmt) == "[" + PrintItems(items, depth + 1, fmt) + "]"
  {
  }

  // What stands between the parts of arrays and objects, in both formats.
  lemma PrintedArray(x: Value, y: Value, depth: nat)
    ensures Print(Array([x, y]), depth, false) ==
            "[" + Print(x, depth + 1, false) + "," + Print(y, depth + 1, false) + "]"
    ensures Print(Array([x, y]), depth, true) ==
            "[" + Print(x, depth + 1, true) + ", " + Print(y, depth + 1, true) + "]"
  {
    TwoItems(x, y, depth + 1);
    ArrayText([x, y], depth, false);
    ArrayText([x, y], depth, true);
    hide Print, PrintItems;
    ArrayJoin(Print(x, depth + 1, false), Print(y, depth + 1, false), ",");
    ArrayJoin(Print(x, depth + 1, true), Print(y, depth + 1, true), ", ");
  }

  lemma ArrayJoin(p: string, q: string, sep: string)
    ensures "[" + (p + sep + q) + "]" == "[" + p + sep + q + "]"
  {
  }

  lemma TwoItems(x: Value, y: Value, depth: nat)
    ensures PrintItems([x, y], depth, false) == Print(x, depth, false) + "," + Print(y, depth, false)
    ensures PrintItems([x, y], depth, true) == Print(x, depth, true) + ", " + Print(y, depth, true)
  {
    OneItem(y, depth, false);
    OneItem(y, depth, true);
    hide Print;
    assert [x, y][1..] == [y] && "," + "" == "," && "," + " " == ", ";
    hide PrintItems;
  }

  lemma OneItem(y: Value, depth: nat, fmt: bool)
    ensures PrintItems([y], depth, fmt) == Print(y, depth, fmt)
  {
    hide Print;
    assert [y][1..] == [];
  }

  lemma PrintedObject(m: Member, n: Member, depth: nat)
    ensures Print(Object([m, n]), depth, false) ==
            "{" + (Quoted(m.name) + ":" + Print(m.value, depth + 1, false)) + ","
            + (Quoted(n.name) + ":" + Print(n.value, depth + 1, false)) + "}"
    ensures Print(Object([m, n]), depth, true) ==
            "{\n" + (Tabs(depth + 1) + Quoted(m.name) + ":\t" + Print(m.value, depth + 1, true)) + ",\n"
            + (Tabs(depth + 1) + Quoted(n.name) + ":\t" + Print(n.value, depth + 1, true)) + "\n" + Tabs(depth) + "}"
  {
    TwoMembers(m, n, depth + 1);
    ObjectText([m, n], depth, false);
    ObjectText([m, n], depth, true);
    OneMember(m, depth + 1);
    OneMember(n, depth + 1);
    hide Print, PrintMembers, PrintMember, Tabs, Quoted;
    JoinPlain(PrintMember(m, depth + 1, false), PrintMember(n, depth + 1, false));
    JoinFormatted(PrintMember(m, depth + 1, true), PrintMember(n, depth + 1, true), Tabs(depth));
  }

  lemma OneMember(m: Member, depth: nat)
    ensures PrintMember(m, depth, false) == Quoted(m.name) + ":" + Print(m.value, depth, false)
    ensures PrintMember(m, depth, true) == Tabs(depth) + Quoted(m.name) + ":\t" + Print(m.value, depth, true)
  {
    hide Print, Tabs, Quoted;
    var q, p := Quoted(m.name), Print(m.value, depth, false);
    assert "" + q + ":" + "" + p == q + ":" + p;
    assert Tabs(depth) + q + ":" + "\t" == Tabs(depth) + q + ":\t";
  }

  lemma TwoMembers(m: Member, n: Member, depth: nat)
    ensures PrintMembers([m, n], depth, false) == PrintMember(m, depth, false) + "," + PrintMember(n, depth, false)
    ensures PrintMembers([m, n], depth, true) ==
            PrintMember(m, depth, true) + ",\n" + (PrintMember(n, depth, true) + "\n")
  {
    hide PrintMember;
    assert [m, n][1..] == [n] && [n][1..] == [];
    forall fmt: bool
      ensures PrintMembers([n], depth, fmt) == PrintMember(n, depth, fmt) + If(fmt, "\n")
    {
      assert "" + If(fmt, "\n") == If(fmt, "\n");
    }
    assert "," + "" == "," && "," + "\n" == ",\n";
  }

  lemma JoinPlain(p: string, q: string)
    ensures "{" + "" + (p + "," + q) + "" + "}" == "{" + p + "," + q + "}"
  {
  }

  lemma JoinFormatted(p: string, q: string, tabs: string)
    ensures "{" + "\n" + (p + ",\n" + (q + "\n")) + tabs + "}" == "{\n" + p + ",\n" + q + "\n" + tabs + "}"
  {
  }
}
