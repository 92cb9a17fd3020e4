// cJSON_Minify: white space and comments are removed in place; string literals are kept.

module JsonMinify {
  import opened Json
  import opened Texts

  // A part of the text and what is behind it; Open if the text ends first.
  datatype Cut = Cut(text: string, rest: string) | Open

  // The result, or that the source would run past the end of the text.
  datatype Result = Done(text: string) | Overrun

  predicate White(c: char) {
    c == ' ' || c == '\t' || c == '\r' || c == '\n'
  }

  // A literal behind its opening quote, with the closing one.
  function Literal(s: string): (r: Cut)
    ensures r.Cut? ==> s == r.text + r.rest && r.text != ""
  {
    if s == "" then Open
    else if s[0] == '"' then Cut(s[..1], s[1..])
    else if s[0] != '\\' then
      match Literal(s[1..])
      case Cut(t, rest) => Cut([s[0]] + t, rest)
      case Open => Open
    else if |s| == 1 then Open
    else
      match Literal(s[2..])
      case Cut(t, rest) => Cut(s[..2] + t, rest)
      case Open => Open
  }

  function LineEnd(s: string): (r: string)
    ensures |r| <= |s|
  {
    if s == "" || s[0] == '\n' then s else LineEnd(s[1..])
  }

  // Behind a comment; its opening star may close it too.
  function CommentEnd(s: string): (r: Cut)
    ensures r.Cut? ==> |r.rest| < |s|
  {
    if s == "" then Open else if "*/" <= s then Cut("", s[2..]) else CommentEnd(s[1..])
  }

  function Keep(a: string, r: Result): Result {
    match r
    case Done(t) => Done(a + t)
    case Overrun => Overrun
  }

  function Minified(s: string): Result
    decreases |s|
  {
    if s == "" then Done("")
    else if White(s[0]) then Minified(s[1..])
    else if "//" <= s then
      assert LineEnd(s) == LineEnd(s[1..]);
      Minified(LineEnd(s))
    else if "/*" <= s then
      match CommentEnd(s)
      case Cut(_, rest) => Minified(rest)
      case Open => Overrun
    else if s[0] == '"' then
      match Literal(s[1..])
      case Cut(t, rest) => Keep("\"" + t, Minified(rest))
      case Open => Overrun
    else Keep([s[0]], Minified(s[1..]))
  }

  // ---- what goes and what stays, on the text ----

  lemma {:induction false} LineGoes(x: string, s: string)
    requires '\n' !in x
    ensures LineEnd(x + "\n" + s) == "\n" + s
  {
    var t := x + "\n" + s;
    if x == "" {
      assert t == "\n" + s;
    } else {
      assert t[0] == x[0] && t[1..] == x[1..] + "\n" + s && x[0] in x;
      LineGoes(x[1..], s);
    }
  }

  // x does not close a comment, even with the star in front of its end.
  predicate Within(x: string) {
    forall k :: 0 <= k < |x| - 1 ==> !(x[k] == '*' && x[k + 1] == '/')
  }

  lemma {:induction false} CommentGoes(x: string, s: string)
    requires Within(x) && x != "" && x[|x| - 1] == '*'
    ensures CommentEnd(x + ("/" + s)) == Cut("", s)
  {
    var t := x + ("/" + s);
    if |x| == 1 {
      assert t == "*/" + s && ("*/" + s)[2..] == s;
    } else {
      assert t[0] == x[0] && t[1] == x[1] && t[1..] == x[1..] + ("/" + s);
      CommentGoes(x[1..], s);
    }
  }

  lemma {:induction false} LiteralStays(x: string, s: string)
    requires '"' !in x && '\\' !in x
    ensures Literal(x + "\"" + s) == Cut(x + "\"", s)
  {
    var t := x + "\"" + s;
    if x == "" {
      assert t == "\"" + s && t[..1] == "\"" && t[1..] == s;
    } else {
      assert t[0] == x[0] && t[1..] == x[1..] + "\"" + s && x[0] in x;
      LiteralStays(x[1..], s);
      assert [x[0]] + (x[1..] + "\"") == x + "\"";
    }
  }

  // White space goes, and comments of both kinds go; strings stay with all that is in them, and
  // so does every other character.
  lemma MinifyMeans(c: char, x: string, s: string)
    ensures c in " \t\r\n" ==> Minified([c] + s) == Minified(s)
    ensures '\n' !in x ==> Minified("//" + x + "\n" + s) == Minified(s)
    ensures Within("*" + x + "*") ==> Minified("/*" + x + "*/" + s) == Minified(s)
    ensures '"' !in x && '\\' !in x ==> Minified("\"" + x + "\"" + s) == Keep("\"" + x + "\"", Minified(s))
    ensures c !in " \t\r\n/\"" ==> Minified([c] + s) == Keep([c], Minified(s))
    ensures Minified("") == Done("")
  {
    assert ([c] + s)[0] == c && ([c] + s)[1..] == s;
    if '\n' !in x {
      LineComment(x, s);
    }
    if Within("*" + x + "*") {
      BlockComment(x, s);
    }
    if '"' !in x && '\\' !in x {
      StringLiteral(x, s);
    }
  }

  lemma LineComment(x: string, s: string)
    requires '\n' !in x
    ensures Minified("//" + x + "\n" + s) == Minified(s)
  {
    var t := "//" + x + "\n" + s;
    LineGoes("//" + x, s);
    assert "//" <= t && ("\n" + s)[1..] == s && ("\n" + s)[0] == '\n';
  }

  lemma BlockComment(x: string, s: string)
    requires Within("*" + x + "*")
    ensures Minified("/*" + x + "*/" + s) == Minified(s)
  {
    var t, u := "/*" + x + "*/" + s, "*" + x + "*";
    CommentGoes(u, s);
    assert t[1..] == u + ("/" + s) && t[0] == '/' && t[1] == '*';
    assert "/*" <= t && !("//" <= t) && !("*/" <= t);
    assert CommentEnd(t) == CommentEnd(t[1..]);
  }

  lemma StringLiteral(x: string, s: string)
    requires '"' !in x && '\\' !in x
    ensures Minified("\"" + x + "\"" + s) == Keep("\"" + x + "\"", Minified(s))
  {
    var t := "\"" + x + "\"" + s;
    LiteralStays(x, s);
    assert t[0] == '"' && t[1..] == x + "\"" + s && "\"" + (x + "\"") == "\"" + x + "\"";
  }

  // ---- the pass in place ----

  // From k on the array still holds the text and its terminating zero.
  ghost predicate Ahead(a: string, s: string, k: nat) {
    k <= |s| && '\0' !in s && Unread(a, s, k)
  }

  // out has been written, and the rest of the result is that of the text from k on.
  ghost predicate Toward(s: string, out: string, k: nat) {
    k <= |s| && Minified(s) != Overrun && Minified(s) == Keep(out, Minified(s[k..]))
  }

  lemma TowardKeep(s: string, out: string, k: nat, a: string, k': nat)
    requires Toward(s, out, k) && k' <= |s| && Minified(s[k..]) == Keep(a, Minified(s[k'..]))
    ensures Toward(s, out + a, k')
  {
    hide Minified;
    if Minified(s[k'..]).Done? {
      var t := Minified(s[k'..]).text;
      assert out + (a + t) == (out + a) + t;
    }
  }

  lemma TowardDrop(s: string, out: string, k: nat, k': nat)
    requires Toward(s, out, k) && k' <= |s| && Minified(s[k..]) == Minified(s[k'..])
    ensures Toward(s, out, k')
  {
  }

  lemma TowardEnds(s: string, out: string)
    requires Minified(s) != Overrun
    ensures Toward(s, "", 0)
    ensures Toward(s, out, |s|) ==> Minified(s) == Done(out)
  {
    assert s[0..] == s && s[|s|..] == "";
    if Minified(s).Done? {
      assert "" + Minified(s).text == Minified(s).text;
    }
    assert out + "" == out;
  }

  method SkipLine(a: array<char>, ghost s: string, k: nat) returns (k': nat)
    requires Ahead(a[..], s, k)
    ensures k <= k' <= |s| && LineEnd(s[k..]) == s[k'..]
  {
    k' := k;
    while a[k'] != '\0' && a[k'] != '\n'
      invariant k <= k' <= |s| && LineEnd(s[k'..]) == LineEnd(s[k..])
      decreases |s| - k'
    {
      assert a[..][k'] == At(s, k');
      assert s[k'..][1..] == s[k' + 1..];
      k' := k' + 1;
    }
    assert a[..][k'] == At(s, k');
  }

  method SkipComment(a: array<char>, ghost s: string, k: nat) returns (k': nat)
    requires Ahead(a[..], s, k) && CommentEnd(s[k..]).Cut?
    ensures k < k' <= |s| && CommentEnd(s[k..]).rest == s[k'..]
  {
    k' := k;
    while a[k'] != '\0' && !(a[k'] == '*' && a[k' + 1] == '/')
      invariant k <= k' < |s| && CommentEnd(s[k'..]) == CommentEnd(s[k..])
      decreases |s| - k'
    {
      assert a[..][k'] == At(s, k') && a[..][k' + 1] == At(s, k' + 1);
      assert s[k'..][1..] == s[k' + 1..];
      k' := k' + 1;
    }
    assert a[..][k'] == At(s, k') && a[..][k' + 1] == At(s, k' + 1);
    assert s[k'..][2..] == s[k' + 2..];
    k' := k' + 2;
  }

  // One character is copied; what has not been read yet stays.
  method Copy(a: array<char>, ghost s: string, into: nat, k: nat)
    requires into <= k < |s| && Ahead(a[..], s, k)
    modifies a
    ensures Ahead(a[..], s, k + 1) && a[..into + 1] == old(a[..into]) + [s[k]]
  {
    ghost var before := a[..into];
    assert a[..][k] == At(s, k);
    a[into] := a[k];
    assert a[..into + 1] == before + [s[k]];
  }

  // What has been written: the text from k on has been copied.
  ghost predicate Copied(a: string, into: nat, before: string, s: string, k: nat, k': nat) {
    into <= |a| && k <= k' <= |s| && a[..into] == before + s[k..k']
  }

  method CopyNext(a: array<char>, ghost s: string, into: nat, k': nat, ghost before: string, ghost k: nat)
    requires k' < |s| && into <= k' && Ahead(a[..], s, k') && Copied(a[..], into, before, s, k, k')
    modifies a
    ensures Ahead(a[..], s, k' + 1) && Copied(a[..], into + 1, before, s, k, k' + 1)
  {
    assert a[..into] == a[..][..into];
    assert into + 1 <= |s| < a.Length;
    hide Ahead;
    Copy(a, s, into, k');
    assert s[k..k' + 1] == s[k..k'] + [s[k']];
    assert a[..][..into + 1] == a[..into + 1];
  }

  lemma CopiedText(a: array<char>, into: nat, before: string, s: string, k: nat, k': nat)
    requires Copied(a[..], into, before, s, k, k')
    ensures a[..into] == before + s[k..k']
  {
    assert a[..][..into] == a[..into];
  }

  lemma NothingCopied(a: array<char>, into: nat, s: string, k: nat)
    requires into <= a.Length && k <= |s|
    ensures Copied(a[..], into, a[..into], s, k, k)
  {
    assert a[..][..into] == a[..into] + s[k..k];
  }

  lemma LiteralStep(s: string, k: nat)
    requires k < |s| && Literal(s[k..]).Cut?
    ensures s[k] == '"' ==> Literal(s[k..]).rest == s[k + 1..]
    ensures s[k] == '\\' ==> k + 1 < |s| && Literal(s[k + 2..]).Cut? && Literal(s[k..]).rest == Literal(s[k + 2..]).rest
    ensures s[k] != '"' && s[k] != '\\' ==> Literal(s[k + 1..]).Cut? && Literal(s[k..]).rest == Literal(s[k + 1..]).rest
  {
    assert s[k..][1..] == s[k + 1..];
    if |s[k..]| >= 2 {
      assert s[k..][2..] == s[k + 2..];
    }
  }

  lemma LiteralGoesOn(s: string, k: nat)
    requires k <= |s| && Literal(s[k..]).Cut?
    ensures k < |s|
  {
  }

  // One turn of the inner loop: an escaped character goes with its backslash.
  method CopyItem(a: array<char>, ghost s: string, into: nat, k': nat, ghost before: string, ghost k: nat)
    returns (into': nat, next: nat)
    requires k' < |s| < a.Length && into <= k' && Ahead(a[..], s, k') && Copied(a[..], into, before, s, k, k')
    requires a[k'] == s[k'] != '"' && Literal(s[k'..]).Cut?
    modifies a
    ensures k' < next < |s| && into' <= next && Ahead(a[..], s, next) && Copied(a[..], into', before, s, k, next)
    ensures Literal(s[next..]).Cut? && Literal(s[next..]).rest == Literal(s[k'..]).rest
  {
    hide Literal, Ahead, Copied;
    LiteralStep(s, k');
    into', next := into, k';
    if a[next] == '\\' {
      CopyNext(a, s, into', next, before, k);
      into', next := into' + 1, next + 1;
    }
    CopyNext(a, s, into', next, before, k);
    into', next := into' + 1, next + 1;
    LiteralGoesOn(s, next);
  }

  method CopyLiteral(a: array<char>, ghost s: string, into: nat, k: nat) returns (into': nat, k': nat)
    requires into <= k < |s| && Ahead(a[..], s, k) && s[k] == '"' && Literal(s[k + 1..]).Cut?
    modifies a
    ensures into' <= k' <= |s| && k < k' && Ahead(a[..], s, k')
    ensures Literal(s[k + 1..]).rest == s[k'..] && a[..into'] == old(a[..into]) + ("\"" + Literal(s[k + 1..]).text)
  {
    assert |s| < a.Length;
    hide Literal, Ahead, Copied;
    ghost var before, rest := a[..into], Literal(s[k + 1..]).rest;
    NothingCopied(a, into, s, k);
    CopyNext(a, s, into, k, before, k);
    into', k' := into + 1, k + 1;
    LiteralGoesOn(s, k');
    Reads(a, s, k');
    while a[k'] != '\0' && a[k'] != '"'
      invariant into' <= k' && k < k' < |s| && Ahead(a[..], s, k') && Copied(a[..], into', before, s, k, k')
      invariant Literal(s[k'..]).Cut? && Literal(s[k'..]).rest == rest && a[k'] == s[k'] && s[k'] != '\0'
      decreases |s| - k'
    {
      into', k' := CopyItem(a, s, into', k', before, k);
      Reads(a, s, k');
    }
    LiteralStep(s, k');
    CopyNext(a, s, into', k', before, k);
    into', k' := into' + 1, k' + 1;
    CopiedText(a, into', before, s, k, k');
    LiteralText(s, k, k');
  }

  lemma Reads(a: array<char>, s: string, k: nat)
    requires Ahead(a[..], s, k) && k < |s|
    ensures k < a.Length && a[k] == s[k] && s[k] != '\0'
  {
    assert a[..][k] == At(s, k);
  }

  lemma LiteralText(s: string, k: nat, k': nat)
    requires k < k' <= |s| && s[k] == '"' && Literal(s[k + 1..]).Cut? && Literal(s[k + 1..]).rest == s[k'..]
    ensures s[k..k'] == "\"" + Literal(s[k + 1..]).text
  {
    var t := Literal(s[k + 1..]).text;
    hide Literal;
    assert s[k + 1..] == t + s[k'..];
    assert t == s[k + 1..][..|t|];
    assert |t| == k' - k - 1;
    assert s[k..k'] == [s[k]] + s[k + 1..k'];
  }

  // One turn of the loop, by what the first character is.
  lemma MinifiedStep(s: string, k: nat)
    requires k < |s|
    ensures var r := s[k..];
      && (White(r[0]) ==> Minified(r) == Minified(s[k + 1..]))
      && ("//" <= r ==> Minified(r) == Minified(LineEnd(r)))
      && ("/*" <= r ==> Minified(r) == if CommentEnd(r).Cut? then Minified(CommentEnd(r).rest) else Overrun)
      && (r[0] == '"' ==>
        Minified(r) ==
          if Literal(s[k + 1..]).Cut? then Keep("\"" + Literal(s[k + 1..]).text, Minified(Literal(s[k + 1..]).rest))
          else Overrun)
      && (!White(r[0]) && !("//" <= r) && !("/*" <= r) && r[0] != '"' ==>
        Minified(r) == Keep([r[0]], Minified(s[k + 1..])))
  {
    hide LineEnd, CommentEnd, Literal, Keep;
    var r := s[k..];
    assert r[1..] == s[k + 1..];
    assert ("//" <= r ==> r[0] == '/' && r[1] == '/') && ("/*" <= r ==> r[0] == '/' && r[1] == '*');
  }

  // The text is a C string that ends at index |s|; its literals and comments are closed.
  method Minify(a: array<char>, ghost s: string) returns (into: nat)
    requires Ahead(a[..], s, 0) && Minified(s) != Overrun
    modifies a
    ensures into <= |s| && a[into] == '\0' && Minified(s) == Done(a[..into])
  {
    hide Minified, Literal, LineEnd, CommentEnd, Toward;
    into := 0;
    var k: nat := 0;
    TowardEnds(s, "");
    assert a[..0] == "";
    while a[k] != '\0'
      invariant into <= k && Ahead(a[..], s, k) && Toward(s, a[..into], k)
      decreases |s| - k
    {
      assert a[..][k] == At(s, k) && (k + 1 <= |s| ==> a[..][k + 1] == At(s, k + 1));
      MinifiedStep(s, k);
      NoOverrun(s, a[..into], k);
      ghost var out := a[..into];
      if White(a[k]) {
        TowardDrop(s, out, k, k + 1);
        k := k + 1;
      } else if a[k] == '/' && a[k + 1] == '/' {
        assert "//" <= s[k..];
        var k' := SkipLine(a, s, k);
        LinePassed(s, k, k');
        TowardDrop(s, out, k, k');
        k := k';
      } else if a[k] == '/' && a[k + 1] == '*' {
        assert "/*" <= s[k..];
        var k' := SkipComment(a, s, k);
        TowardDrop(s, out, k, k');
        k := k';
      } else if a[k] == '"' {
        ghost var k0 := k;
        into, k := CopyLiteral(a, s, into, k);
        TowardKeep(s, out, k0, "\"" + Literal(s[k0 + 1..]).text, k);
      } else {
        Copy(a, s, into, k);
        TowardKeep(s, out, k, [s[k]], k + 1);
        into, k := into + 1, k + 1;
      }
    }
    assert a[..][k] == At(s, k);
    ghost var out := a[..into];
    a[into] := '\0';
    assert a[..into] == out;
    TowardEnds(s, out);
  }

  lemma NoOverrun(s: string, out: string, k: nat)
    requires Toward(s, out, k)
    ensures Minified(s[k..]) != Overrun
  {
    hide Minified;
  }

  lemma LinePassed(s: string, k: nat, k': nat)
    requires k <= k' <= |s| && "//" <= s[k..] && LineEnd(s[k..]) == s[k'..]
    ensures k < k'
  {
    assert s[k..][0] == '/';
  }

  // ---- what is printed formatted is minified to what is printed unformatted ----

  // In front of any text, a is minified to b.
  ghost predicate Gives(a: string, b: string) {
    forall t: string :: Minified(t) != Overrun ==> Minified(a + t) == Keep(b, Minified(t))
  }

  lemma GivesBoth(a: string, b: string, c: string, d: string)
    requires Gives(a, b) && Gives(c, d)
    ensures Gives(a + c, b + d)
  {
    hide Minified;
    forall t: string | Minified(t) != Overrun
      ensures Minified((a + c) + t) == Keep(b + d, Minified(t))
    {
      assert (a + c) + t == a + (c + t);
      assert (b + d) + Minified(t).text == b + (d + Minified(t).text);
    }
  }

  lemma GivesNothing(c: char)
    requires White(c)
    ensures Gives([c], "") && Gives("", "")
  {
    forall t: string | Minified(t) != Overrun
      ensures Minified([c] + t) == Keep("", Minified(t)) && Minified("" + t) == Keep("", Minified(t))
    {
      MinifiedStep([c] + t, 0);
      assert ([c] + t)[0..] == [c] + t && ([c] + t)[1..] == t && "" + t == t
        && "" + Minified(t).text == Minified(t).text;
    }
  }

  predicate Solid(c: char) {
    !White(c) && c != '/' && c != '"'
  }

  lemma GivesSolid(c: char)
    requires Solid(c)
    ensures Gives([c], [c])
  {
    forall t: string | Minified(t) != Overrun
      ensures Minified([c] + t) == Keep([c], Minified(t))
    {
      MinifiedStep([c] + t, 0);
      hide Minified;
      assert ([c] + t)[0..] == [c] + t && ([c] + t)[1..] == t;
    }
  }

  lemma {:induction false} GivesWord(s: string)
    requires forall i :: 0 <= i < |s| ==> Solid(s[i])
    ensures Gives(s, s)
  {
    if s == "" {
      GivesNothing(' ');
    } else {
      GivesSolid(s[0]);
      GivesWord(s[1..]);
      GivesBoth([s[0]], [s[0]], s[1..], s[1..]);
      assert [s[0]] + s[1..] == s;
    }
  }

  lemma MoreTabs(n: nat)
    requires n > 0
    ensures "\t" + Tabs(n - 1) == Tabs(n)
  {
  }

  lemma {:induction false} GivesTabs(n: nat)
    ensures Gives(Tabs(n), "")
  {
    GivesNothing('\t');
    hide Gives;
    if n == 0 {
      assert Tabs(0) == "";
    } else {
      GivesTabs(n - 1);
      GivesBoth("\t", "", Tabs(n - 1), "");
      MoreTabs(n);
    }
  }

  lemma GivesIf(fmt: bool, x: string)
    requires Gives(x, "")
    ensures Gives(If(fmt, x), "")
  {
    GivesNothing(' ');
  }

  lemma LiteralPlain(c: char, t: string)
    requires c != '"' && c != '\\' && Literal(t).Cut?
    ensures Literal([c] + t) == Cut([c] + Literal(t).text, Literal(t).rest)
  {
    assert ([c] + t)[1..] == t;
  }

  lemma LiteralPair(c: char, t: string)
    requires Literal(t).Cut?
    ensures Literal(['\\', c] + t) == Cut(['\\', c] + Literal(t).text, Literal(t).rest)
  {
    var s := ['\\', c] + t;
    assert s[2..] == t && s[..2] == ['\\', c];
  }

  lemma HexPlain(v: nat)
    requires v < 16
    ensures HexChar(v) != '"' && HexChar(v) != '\\'
  {
  }

  lemma LiteralOfEscape(c: char, t: string)
    requires Literal(t).Cut?
    ensures Literal(Escape(c) + t) == Cut(Escape(c) + Literal(t).text, Literal(t).rest)
  {
    hide Literal, HexChar;
    if Short(c) != '\0' {
      LiteralPair(Short(c), t);
    } else if IsControl(c) {
      var h1, h2 := HexChar(c as int / 16), HexChar(c as int % 16);
      HexPlain(c as int / 16);
      HexPlain(c as int % 16);
      LiteralPlain(h2, t);
      LiteralPlain(h1, [h2] + t);
      LiteralPlain('0', [h1] + ([h2] + t));
      LiteralPlain('0', ['0'] + ([h1] + ([h2] + t)));
      LiteralPair('u', ['0'] + (['0'] + ([h1] + ([h2] + t))));
      Six(h1, h2, t);
      Six(h1, h2, Literal(t).text);
    } else {
      LiteralPlain(c, t);
    }
  }

  lemma Six(h1: char, h2: char, t: string)
    ensures ['\\', 'u'] + (['0'] + (['0'] + ([h1] + ([h2] + t)))) == ['\\', 'u', '0', '0', h1, h2] + t
  {
  }

  lemma LiteralEnd(t: string)
    ensures Literal("\"" + t) == Cut("\"", t)
  {
    assert ("\"" + t)[1..] == t && ("\"" + t)[..1] == "\"";
  }

  lemma {:induction false} LiteralOfText(s: string, t: string)
    ensures Literal(Escaped(s) + ("\"" + t)) == Cut(Escaped(s) + "\"", t)
  {
    hide Escape, Escaped, Literal;
    EscapedFirst(s);
    if s == "" {
      LiteralEnd(t);
      assert "" + ("\"" + t) == "\"" + t && "" + "\"" == "\"";
    } else {
      LiteralOfText(s[1..], t);
      LiteralOfEscape(s[0], Escaped(s[1..]) + ("\"" + t));
      Associate(Escape(s[0]), Escaped(s[1..]), "\"" + t);
      Associate(Escape(s[0]), Escaped(s[1..]), "\"");
    }
  }

  lemma MinifiedQuote(q: string, text: string, rest: string)
    requires q != "" && q[0] == '"' && Literal(q[1..]) == Cut(text, rest)
    ensures Minified(q) == Keep("\"" + text, Minified(rest))
  {
    MinifiedStep(q, 0);
    hide Minified, Literal, Keep;
    assert q[0..] == q;
  }

  lemma QuotedMinified(s: string, t: string)
    requires Minified(t) != Overrun
    ensures Minified(Quoted(s) + t) == Keep(Quoted(s), Minified(t))
  {
    hide Minified, Literal, Escaped;
    LiteralOfText(s, t);
    Associate("\"", Escaped(s), "\"");
    assert Quoted(s) == "\"" + (Escaped(s) + "\"");
    hide Quoted;
    QuotedTail(s, t);
    MinifiedQuote(Quoted(s) + t, Escaped(s) + "\"", t);
  }

  lemma GivesQuoted(s: string)
    ensures Gives(Quoted(s), Quoted(s))
  {
    hide Minified, Quoted;
    forall t: string | Minified(t) != Overrun
      ensures Minified(Quoted(s) + t) == Keep(Quoted(s), Minified(t))
    {
      QuotedMinified(s, t);
    }
  }

  lemma {:induction false} GivesNumber(n: int)
    ensures Gives(PrintNumber(n), PrintNumber(n))
  {
    GivesWord(PrintNumber(n));
  }

  lemma GivesPart(a: string, b: string, c: string, d: string, e: string, f: string)
    requires Gives(a, b) && Gives(c, d) && Gives(e, f)
    ensures Gives(a + c + e, b + d + f)
  {
    hide Gives;
    GivesBoth(a, b, c, d);
    GivesBoth(a + c, b + d, e, f);
  }

  lemma {:induction false} GivesValue(v: Value, depth: nat, fmt: bool)
    ensures Gives(Print(v, depth, fmt), Print(v, depth, false))
    decreases v, 0
  {
    hide Gives, PrintItems, PrintMembers, PrintNumber, Quoted;
    match v
    case Null => GivesWord("null");
    case False => GivesWord("false");
    case True => GivesWord("true");
    case Number(n) => GivesNumber(n);
    case Text(s) => GivesQuoted(s);
    case Array(items) =>
      GivesItems(items, depth + 1, fmt);
      GivesWord("[");
      GivesWord("]");
      GivesPart("[", "[", PrintItems(items, depth + 1, fmt), PrintItems(items, depth + 1, false), "]", "]");
    case Object(members) =>
      GivesMembers(members, depth + 1, fmt);
      GivesBraces(depth, fmt);
      var inner, inner' := PrintMembers(members, depth + 1, fmt), PrintMembers(members, depth + 1, false);
      GivesPart("{" + If(fmt, "\n"), "{", inner, inner', If(fmt, Tabs(depth)) + "}", "}");
      assert Print(v, depth, fmt) == ("{" + If(fmt, "\n")) + inner + (If(fmt, Tabs(depth)) + "}");
      assert Print(v, depth, false) == "{" + inner' + "}";
  }

  lemma GivesBraces(depth: nat, fmt: bool)
    ensures Gives("{" + If(fmt, "\n"), "{") && Gives(If(fmt, Tabs(depth)) + "}", "}")
  {
    GivesNothing('\n');
    GivesTabs(depth);
    GivesIf(fmt, "\n");
    GivesIf(fmt, Tabs(depth));
    GivesWord("{");
    GivesWord("}");
    GivesBoth("{", "{", If(fmt, "\n"), "");
    GivesBoth(If(fmt, Tabs(depth)), "", "}", "}");
    hide Gives;
    assert "{" + "" == "{" && "" + "}" == "}";
  }

  lemma GivesEnds(last: bool, fmt: bool)
    ensures Gives(ItemEnd(last, fmt), ItemEnd(last, false)) && Gives(MemberEnd(last, fmt), MemberEnd(last, false))
  {
    GivesNothing(' ');
    GivesNothing('\n');
    GivesWord(",");
    GivesIf(fmt, " ");
    GivesIf(fmt, "\n");
    GivesBoth(",", ",", If(fmt, " "), "");
    GivesBoth(",", ",", If(fmt, "\n"), "");
    GivesBoth("", "", If(fmt, "\n"), "");
    hide Gives;
    assert "," + "" == "," && ("" + If(fmt, "\n")) == If(fmt, "\n");
  }

  lemma {:induction false} GivesItems(items: seq<Value>, depth: nat, fmt: bool)
    ensures Gives(PrintItems(items, depth, fmt), PrintItems(items, depth, false))
    decreases items
  {
    if items == [] {
      GivesNothing(' ');
    } else {
      hide Gives, Print, ItemEnd;
      var last := |items| == 1;
      GivesValue(items[0], depth, fmt);
      GivesEnds(last, fmt);
      GivesItems(items[1..], depth, fmt);
      GivesPart(Print(items[0], depth, fmt), Print(items[0], depth, false), ItemEnd(last, fmt), ItemEnd(last, false),
                PrintItems(items[1..], depth, fmt), PrintItems(items[1..], depth, false));
    }
  }

  lemma GivesMember(m: Member, depth: nat, fmt: bool)
    requires Gives(Print(m.value, depth, fmt), Print(m.value, depth, false))
    ensures Gives(PrintMember(m, depth, fmt), PrintMember(m, depth, false))
  {
    hide Gives, Print, Quoted, Tabs;
    GivesTabs(depth);
    GivesIf(fmt, Tabs(depth));
    GivesNothing('\t');
    GivesIf(fmt, "\t");
    GivesQuoted(m.name);
    GivesWord(":");
    GivesPart(If(fmt, Tabs(depth)), "", Quoted(m.name), Quoted(m.name), ":", ":");
    GivesPart(If(fmt, Tabs(depth)) + Quoted(m.name) + ":", "" + Quoted(m.name) + ":", If(fmt, "\t"), "",
              Print(m.value, depth, fmt), Print(m.value, depth, false));
  }

  lemma {:induction false} GivesMembers(members: seq<Member>, depth: nat, fmt: bool)
    ensures Gives(PrintMembers(members, depth, fmt), PrintMembers(members, depth, false))
    decreases members
  {
    if members == [] {
      GivesNothing(' ');
    } else {
      hide Gives, PrintMember, MemberEnd;
      var last, m := |members| == 1, members[0];
      GivesValue(m.value, depth, fmt);
      GivesMember(m, depth, fmt);
      GivesEnds(last, fmt);
      GivesMembers(members[1..], depth, fmt);
      GivesPart(PrintMember(m, depth, fmt), PrintMember(m, depth, false), MemberEnd(last, fmt), MemberEnd(last, false),
                PrintMembers(members[1..], depth, fmt), PrintMembers(members[1..], depth, false));
    }
  }

  // Minifying what was printed, formatted or not, gives the unformatted text.
  lemma MinifyPrinted(v: Value, depth: nat, fmt: bool)
    ensures Minified(Print(v, depth, fmt)) == Done(Print(v, depth, false))
  {
    GivesValue(v, depth, fmt);
    hide Print;
    assert Minified("") == Done("");
    assert Minified(Print(v, depth, fmt) + "") == Keep(Print(v, depth, false), Done(""));
    assert Print(v, depth, fmt) + "" == Print(v, depth, fmt) && Print(v, depth, false) + "" == Print(v, depth, false);
  }
}
