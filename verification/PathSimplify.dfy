// buffer_path_simplify of buffer.c: one pass over the path, possibly in place, against
// the specification by a stack of path segments.

module PathSimplify {
  import opened Buffers
  import opened Texts

  // ---- the specification ----

  // The path is a C string: it ends at its first zero.
  function CString(s: string): (t: string)
    ensures '\0' !in t && |t| <= |s|
  {
    if s == "" || s[0] == '\0' then "" else [s[0]] + CString(s[1..])
  }

  function SkipSpaces(s: string): string {
    if s != "" && s[0] == ' ' then SkipSpaces(s[1..]) else s
  }

  // Cut at every '/': one more piece than there are slashes.
  function Split(s: string): (pieces: seq<string>)
    ensures |pieces| >= 1
  {
    if s == "" then [""]
    else
      var rest := Split(s[1..]);
      if s[0] == '/' then [""] + rest else [[s[0]] + rest[0]] + rest[1..]
  }

  predicate Plain(seg: string) {
    seg != "" && seg != "." && seg != ".." && '/' !in seg && '\0' !in seg
  }

  // Drop "" and ".", pop on "..", push the others.
  function Resolve(stack: seq<string>, seg: string): seq<string> {
    if seg == "" || seg == "." then stack
    else if seg == ".." then (if stack == [] then [] else stack[..|stack| - 1])
    else stack + [seg]
  }

  function ResolveAll(stack: seq<string>, segs: seq<string>): seq<string>
    decreases |segs|
  {
    if segs == [] then stack else ResolveAll(Resolve(stack, segs[0]), segs[1..])
  }

  // "/a/b" for [a, b]
  function Path(stack: seq<string>): string {
    if stack == [] then "" else Path(stack[..|stack| - 1]) + "/" + stack[|stack| - 1]
  }

  predicate Dropped(seg: string) {
    seg == "" || seg == "." || seg == ".."
  }

  // The path of the segments; a last segment that is dropped or popped leaves a slash.
  function Rendered(stack: seq<string>, segs: seq<string>): string
    requires segs != []
  {
    Path(ResolveAll(stack, segs)) + if Dropped(segs[|segs| - 1]) then "/" else ""
  }

  function Simplified(s: string): string {
    if s == "" then "" else Rendered([], Split(Relative(SkipSpaces(CString(s)))))
  }

  function Relative(t: string): string {
    if t != "" && t[0] == '/' then t[1..] else t
  }

  // ---- what a simplified path looks like ----

  ghost predicate AllPlain(stack: seq<string>) {
    forall k :: 0 <= k < |stack| ==> Plain(stack[k])
  }

  // "/a/b", "/a/b/" or "/", with plain segments.
  ghost predicate CleanPath(path: string, stack: seq<string>, slash: bool) {
    AllPlain(stack) && (stack != [] || slash) && path == Path(stack) + if slash then "/" else ""
  }

  lemma {:induction false} SplitClean(s: string)
    requires '\0' !in s
    ensures forall k :: 0 <= k < |Split(s)| ==> '/' !in Split(s)[k] && '\0' !in Split(s)[k]
  {
    if s != "" {
      SplitClean(s[1..]);
    }
  }

  lemma {:induction false} ResolveAllPlain(stack: seq<string>, segs: seq<string>)
    requires AllPlain(stack) && segs != [] && forall k :: 0 <= k < |segs| ==> '/' !in segs[k] && '\0' !in segs[k]
    ensures AllPlain(ResolveAll(stack, segs))
    ensures !Dropped(segs[|segs| - 1]) ==> ResolveAll(stack, segs) != []
    decreases |segs|
  {
    var next := Resolve(stack, segs[0]);
    assert AllPlain(next);
    if |segs| > 1 {
      ResolveAllPlain(next, segs[1..]);
    } else {
      assert ResolveAll(next, segs[1..]) == next;
    }
  }

  // The result is a clean path, of the segments left on the stack.
  lemma SimplifiedIsClean(s: string) returns (stack: seq<string>, slash: bool)
    requires s != ""
    ensures CleanPath(Simplified(s), stack, slash) && Simplified(s)[0] == '/'
  {
    var segs := Split(Relative(SkipSpaces(CString(s))));
    SkipSpacesSuffix(CString(s));
    SplitClean(Relative(SkipSpaces(CString(s))));
    ResolveAllPlain([], segs);
    stack, slash := ResolveAll([], segs), Dropped(segs[|segs| - 1]);
    PathStart(stack);
  }

  lemma {:induction false} SkipSpacesSuffix(s: string)
    requires '\0' !in s
    ensures '\0' !in SkipSpaces(s)
  {
    if s != "" && s[0] == ' ' {
      SkipSpacesSuffix(s[1..]);
    }
  }

  lemma {:induction false} PathStart(stack: seq<string>)
    ensures stack != [] ==> Path(stack) != "" && Path(stack)[0] == '/'
  {
    if stack != [] {
      PathStart(stack[..|stack| - 1]);
    }
  }

  // ---- simplifying again changes nothing ----

  lemma {:induction false} SplitAppend(a: string, seg: string)
    requires '/' !in seg
    ensures Split(a + "/" + seg) == Split(a) + [seg]
  {
    if a == "" {
      SplitWhole(seg);
      assert ("" + "/" + seg)[1..] == seg;
    } else {
      assert (a + "/" + seg)[1..] == a[1..] + "/" + seg;
      SplitAppend(a[1..], seg);
    }
  }

  lemma {:induction false} SplitWhole(seg: string)
    requires '/' !in seg
    ensures Split(seg) == [seg]
  {
    if seg != "" {
      SplitWhole(seg[1..]);
      assert [seg[0]] + seg[1..] == seg;
    }
  }

  lemma {:induction false} SplitPath(stack: seq<string>)
    requires AllPlain(stack) && stack != []
    ensures Split(Relative(Path(stack))) == stack
  {
    var low, top := stack[..|stack| - 1], stack[|stack| - 1];
    if low == [] {
      assert Path(stack) == "/" + top && ("/" + top)[1..] == top;
      SplitWhole(top);
    } else {
      SplitPath(low);
      PathStart(low);
      assert (Path(low) + "/" + top)[1..] == Path(low)[1..] + "/" + top;
      SplitAppend(Path(low)[1..], top);
    }
  }

  lemma {:induction false} ResolvePlain(stack: seq<string>, segs: seq<string>)
    requires AllPlain(segs)
    ensures ResolveAll(stack, segs) == stack + segs && ResolveAll(stack, segs + [""]) == stack + segs
    decreases |segs|
  {
    if segs == [] {
      assert ResolveAll(stack, [""]) == ResolveAll(stack, [""][1..]);
    } else {
      ResolvePlain(stack + [segs[0]], segs[1..]);
      var more := segs + [""];
      assert more[0] == segs[0] && more[1..] == segs[1..] + [""];
      assert ResolveAll(stack, more) == ResolveAll(Resolve(stack, more[0]), more[1..]);
      assert stack + [segs[0]] + segs[1..] == stack + segs;
    }
  }

  lemma {:induction false} NoZero(s: string)
    ensures '\0' !in s ==> CString(s) == s
  {
    if s != "" && s[0] != '\0' {
      NoZero(s[1..]);
      assert '\0' !in s ==> '\0' !in s[1..];
    }
  }

  lemma {:induction false} PathNoZero(stack: seq<string>)
    requires AllPlain(stack)
    ensures '\0' !in Path(stack)
  {
    if stack != [] {
      PathNoZero(stack[..|stack| - 1]);
    }
  }

  lemma CleanSplit(path: string, stack: seq<string>, slash: bool)
    requires CleanPath(path, stack, slash)
    ensures path != "" && path[0] == '/' && Split(path[1..]) == stack + if slash then [""] else []
  {
    PathStart(stack);
    if stack == [] {
      assert Path(stack) == "";
      assert path == "/" && path[1..] == "" && Split("") == stack + [""];
    } else {
      SplitPath(stack);
      if slash {
        hide AllPlain, Path;
        assert path[1..] == Path(stack)[1..] + "/" + "";
        SplitAppend(Path(stack)[1..], "");
      } else {
        hide AllPlain, Path;
        assert path == Path(stack) && stack + [] == stack;
      }
    }
  }

  lemma SlashedPath(path: string)
    requires path != "" && path[0] == '/' && '\0' !in path
    ensures Simplified(path) == Rendered([], Split(path[1..]))
  {
    NoZero(path);
    hide Rendered, Split, CString;
  }

  lemma CleanIsFixed(path: string, stack: seq<string>, slash: bool)
    requires CleanPath(path, stack, slash)
    ensures Simplified(path) == path
  {
    CleanSplit(path, stack, slash);
    PathNoZero(stack);
    SlashedPath(path);
    ResolvePlain([], stack);
    assert stack != [] ==> Plain(stack[|stack| - 1]);
    hide Split, Path, AllPlain, ResolveAll, Simplified;
    var segs := stack + if slash then [""] else [];
    assert [] + stack == stack && stack + [] == stack;
    assert ResolveAll([], segs) == stack && segs != [];
    assert Dropped(segs[|segs| - 1]) <==> slash;
  }

  lemma SimplifiedTwice(s: string)
    ensures Simplified(Simplified(s)) == Simplified(s)
  {
    if s != "" {
      var stack, slash := SimplifiedIsClean(s);
      CleanIsFixed(Simplified(s), stack, slash);
    }
  }

  // ---- what simplifying does, on the text of the path ----

  lemma {:induction false} CStringBehind(a: string, b: string)
    requires '\0' !in a
    ensures CString(a + b) == a + CString(b)
  {
    if a == "" {
      assert a + b == b;
    } else {
      assert (a + b)[1..] == a[1..] + b && a[0] in a;
      CStringBehind(a[1..], b);
      assert [a[0]] + (a[1..] + CString(b)) == a + CString(b);
    }
  }

  lemma {:induction false} SplitJoined(a: string, b: string)
    ensures Split(a + "/" + b) == Split(a) + Split(b)
  {
    if a == "" {
      assert (a + "/" + b)[1..] == b;
    } else {
      assert (a + "/" + b)[1..] == a[1..] + "/" + b;
      SplitJoined(a[1..], b);
      FirstPiece(a[0], Split(a[1..]), Split(b));
    }
  }

  lemma FirstPiece(c: char, p: seq<string>, q: seq<string>)
    requires p != []
    ensures [""] + (p + q) == ([""] + p) + q
    ensures [[c] + (p + q)[0]] + (p + q)[1..] == ([[c] + p[0]] + p[1..]) + q
  {
  }

  lemma {:induction false} SkipSpacesBehind(t: string, b: string)
    ensures SkipSpaces(t + "/" + b) == SkipSpaces(t) + "/" + b
  {
    if t != "" && t[0] == ' ' {
      assert (t + "/" + b)[1..] == t[1..] + "/" + b;
      SkipSpacesBehind(t[1..], b);
    }
  }

  lemma {:induction false} ResolveAllBoth(stack: seq<string>, p: seq<string>, q: seq<string>)
    ensures ResolveAll(stack, p + q) == ResolveAll(ResolveAll(stack, p), q)
    decreases |p|
  {
    if p == [] {
      assert p + q == q;
    } else {
      assert (p + q)[0] == p[0] && (p + q)[1..] == p[1..] + q;
      ResolveAllBoth(Resolve(stack, p[0]), p[1..], q);
    }
  }

  lemma ResolveAllOne(stack: seq<string>, seg: string)
    ensures ResolveAll(stack, [seg]) == Resolve(stack, seg)
  {
    assert [seg][1..] == [];
  }

  // The segments of t when a slash follows.
  function Head(t: string): seq<string> {
    var u := SkipSpaces(t);
    if u == "" then [] else Split(Relative(u))
  }

  lemma HeadFirst(t: string, b: string)
    ensures Split(Relative(SkipSpaces(t + "/" + b))) == Head(t) + Split(b)
  {
    SkipSpacesBehind(t, b);
    var u := SkipSpaces(t);
    if u == "" {
      assert Relative("" + "/" + b) == b && [] + Split(b) == Split(b);
    } else {
      SplitJoined(Relative(u), b);
      assert u[0] == '/' ==> (u + "/" + b)[1..] == u[1..] + "/" + b;
    }
  }

  // A path is simplified piece by piece: t gives a stack, and what is behind it goes on from there.
  lemma SimplifiedBehind(t: string, b: string)
    requires '\0' !in t
    ensures Simplified(t + "/" + b) == Rendered(ResolveAll([], Head(t)), Split(CString(b)))
  {
    CStringBehind(t + "/", b);
    HeadFirst(t, CString(b));
    hide Split, CString, Head, Relative, SkipSpaces;
    assert (t + "/") + CString(b) == t + "/" + CString(b) && t + "/" + b != "";
    RenderedBoth(Head(t), Split(CString(b)));
  }

  lemma RenderedBoth(p: seq<string>, q: seq<string>)
    requires q != []
    ensures Rendered([], p + q) == Rendered(ResolveAll([], p), q)
  {
    ResolveAllBoth([], p, q);
    hide ResolveAll, Path, Dropped;
    assert (p + q)[|p + q| - 1] == q[|q| - 1];
  }

  // The same with one segment more in between, or at the end.
  lemma SimplifiedPast(t: string, seg: string, b: string)
    requires '\0' !in t && '\0' !in seg && '/' !in seg
    ensures Simplified(t + "/" + seg + "/" + b) ==
            Rendered(Resolve(ResolveAll([], Head(t)), seg), Split(CString(b)))
  {
    SplitPast(seg, b);
    SimplifiedBehind(t, seg + "/" + b);
    hide Split, Head, CString, Simplified, Resolve, ResolveAll, Rendered;
    PastText(t, seg, b);
    RenderedCons(ResolveAll([], Head(t)), seg, Split(CString(b)));
  }

  lemma SplitPast(seg: string, b: string)
    requires '\0' !in seg && '/' !in seg
    ensures Split(CString(seg + "/" + b)) == [seg] + Split(CString(b))
  {
    CStringBehind(seg + "/", b);
    SplitJoined(seg, CString(b));
    SplitWhole(seg);
  }

  lemma PastText(t: string, seg: string, b: string)
    ensures t + "/" + seg + "/" + b == t + "/" + (seg + "/" + b)
  {
  }

  lemma SimplifiedLast(t: string, seg: string)
    requires '\0' !in t && '\0' !in seg && '/' !in seg
    ensures Simplified(t + "/" + seg) == Path(Resolve(ResolveAll([], Head(t)), seg)) + if Dropped(seg) then "/" else ""
  {
    SimplifiedBehind(t, seg);
    NoZero(seg);
    SplitWhole(seg);
    RenderedCons(ResolveAll([], Head(t)), seg, []);
  }

  // "/./" and "//" become a slash, a component and the ".." behind it go together, and at the
  // start ".." has nothing to remove; behind each of them the path goes on as if it had not been
  // there. At the end "/." and "/.." leave their slash.
  lemma DotsGo(t: string, seg: string, y: string)
    requires '\0' !in t && '\0' !in seg && '/' !in seg && seg != "" && seg != "." && seg != ".."
    ensures Simplified(t + "/./" + y) == Simplified(t + "//" + y) == Simplified(t + "/" + y)
    ensures Simplified(t + "/" + seg + "/../" + y) == Simplified(t + "/" + y)
    ensures Simplified("/../" + y) == Simplified("/" + y)
    ensures Simplified(t + "/.") == Simplified(t + "/" + seg + "/..") == Simplified(t + "/")
    ensures Simplified("/..") == Simplified("/") == "/"
  {
    OneGoes(t, y);
    PairGoes(t, seg, y);
    RootStays(y);
  }

  lemma OneGoes(t: string, y: string)
    requires '\0' !in t
    ensures Simplified(t + "/./" + y) == Simplified(t + "//" + y) == Simplified(t + "/" + y)
    ensures Simplified(t + "/.") == Simplified(t + "/")
  {
    SimplifiedBehind(t, y);
    SimplifiedPast(t, ".", y);
    SimplifiedPast(t, "", y);
    SimplifiedLast(t, ".");
    SimplifiedLast(t, "");
    hide Simplified, Head, Split, CString, ResolveAll, Rendered, Path;
    DotText(t, y);
  }

  lemma DotText(t: string, y: string)
    ensures t + "/./" + y == t + "/" + "." + "/" + y && t + "//" + y == t + "/" + "" + "/" + y
    ensures t + "/../" + y == t + "/" + ".." + "/" + y
    ensures t + "/." == t + "/" + "." && t + "/.." == t + "/" + ".." && t + "/" == t + "/" + ""
  {
  }

  lemma PairGoes(t: string, seg: string, y: string)
    requires '\0' !in t && '\0' !in seg && '/' !in seg && seg != "" && seg != "." && seg != ".."
    ensures Simplified(t + "/" + seg + "/../" + y) == Simplified(t + "/" + y)
    ensures Simplified(t + "/" + seg + "/..") == Simplified(t + "/")
  {
    var stack, u := ResolveAll([], Head(t)), t + "/" + seg;
    PairStack(t, seg);
    SimplifiedPast(u, "..", y);
    SimplifiedLast(u, "..");
    SimplifiedBehind(t, y);
    SimplifiedLast(t, "");
    hide Simplified, Head, Split, CString, ResolveAll, Rendered, Path;
    DotText(t, y);
    DotText(u, y);
    assert (stack + [seg])[..|stack|] == stack;
  }

  lemma PairStack(t: string, seg: string)
    requires '/' !in seg && seg != "" && seg != "." && seg != ".."
    ensures ResolveAll([], Head(t + "/" + seg)) == ResolveAll([], Head(t)) + [seg]
  {
    HeadMore(t, seg);
    ResolveAllBoth([], Head(t), [seg]);
    ResolveAllOne(ResolveAll([], Head(t)), seg);
  }

  lemma HeadMore(t: string, seg: string)
    requires '/' !in seg
    ensures Head(t + "/" + seg) == Head(t) + [seg]
  {
    HeadFirst(t, seg);
    SkipSpacesBehind(t, seg);
    SplitWhole(seg);
  }

  lemma RootStays(y: string)
    ensures Simplified("/../" + y) == Simplified("/" + y) && Simplified("/..") == Simplified("/") == "/"
  {
    SimplifiedBehind("", y);
    SimplifiedPast("", "..", y);
    SimplifiedLast("", "..");
    SimplifiedLast("", "");
    assert Head("") == [] && ResolveAll([], []) == [] && Path([]) == "";
    hide Simplified, Head, Split, CString, ResolveAll, Rendered, Path;
    DotText("", y);
    assert "" + "/../" == "/../" && "" + "/.." == "/.." && "" + "/" == "/";
  }

  // Every other component stays where it is, and so does the slash behind it at the end.
  lemma ComponentStays(t: string, seg: string)
    requires '\0' !in t && '\0' !in seg && '/' !in seg && seg != "" && seg != "." && seg != ".."
    ensures Simplified(t + "/" + seg) == Simplified(t + "/") + seg
    ensures Simplified(t + "/" + seg + "/") == Simplified(t + "/" + seg) + "/"
  {
    var stack, u := ResolveAll([], Head(t)), t + "/" + seg;
    PairStack(t, seg);
    SimplifiedLast(t, seg);
    SimplifiedLast(t, "");
    SimplifiedLast(u, "");
    PathPush(stack, seg);
    hide Simplified, Head, Split, CString, ResolveAll, Rendered, Path;
    DotText(t, "");
    DotText(u, "");
    assert Path(stack) + "/" + seg == Path(stack) + "/" + seg + "";
  }

  // A missing slash is put in front, spaces in front go, and so does all from a zero on.
  lemma StartAndEnd(s: string, u: string)
    requires s != "" && '\0' !in s
    ensures s[0] != '/' && s[0] != ' ' ==> Simplified(s) == Simplified("/" + s)
    ensures Simplified(" " + s) == Simplified(s) == Simplified(s + "\0" + u)
    ensures Simplified("") == ""
  {
    CStringBehind(s, "");
    CStringBehind(s, "\0" + u);
    CStringBehind("/" + s, "");
    CStringBehind(" " + s, "");
    assert s + "" == s && ("/" + s) + "" == "/" + s && (" " + s) + "" == " " + s && s + ("\0" + u) == s + "\0" + u;
    assert ("/" + s)[1..] == s && (" " + s)[1..] == s;
  }

  // ---- the pass, as a function: stack, segment begun, rest of the input ----

  function Pass(stack: seq<string>, seg: string, rest: string): string
    decreases |rest|
  {
    if rest == "" then Path(Resolve(stack, seg)) + if Dropped(seg) then "/" else ""
    else if rest[0] == '/' then Pass(Resolve(stack, seg), "", rest[1..])
    else Pass(stack, seg + [rest[0]], rest[1..])
  }

  // The begun segment continues in the first piece.
  function Glue(seg: string, pieces: seq<string>): (r: seq<string>)
    requires pieces != []
    ensures r != []
  {
    [seg + pieces[0]] + pieces[1..]
  }

  lemma GlueCases(seg: string, c: char, more: seq<string>)
    requires more != []
    ensures Glue("", more) == more
    ensures Glue(seg, [""]) == [seg] && Glue(seg, [""] + more) == [seg] + more
    ensures Glue(seg, [[c] + more[0]] + more[1..]) == Glue(seg + [c], more)
  {
    assert [more[0]] + more[1..] == more && "" + more[0] == more[0];
    assert seg + "" == seg && ([""] + more)[1..] == more && [""][1..] == [];
    assert seg + ([c] + more[0]) == seg + [c] + more[0];
    assert ([[c] + more[0]] + more[1..])[1..] == more[1..];
  }

  lemma RenderedCons(stack: seq<string>, seg: string, more: seq<string>)
    ensures more != [] ==> Rendered(stack, [seg] + more) == Rendered(Resolve(stack, seg), more)
    ensures Rendered(stack, [seg]) == Path(Resolve(stack, seg)) + if Dropped(seg) then "/" else ""
  {
    assert ([seg] + more)[1..] == more && [seg][1..] == [];
    assert ResolveAll(stack, [seg]) == ResolveAll(Resolve(stack, seg), []);
    assert more != [] ==> ([seg] + more)[|more|] == more[|more| - 1];
  }

  // It equals resolving the pieces one after the other.
  lemma {:induction false} PassResolves(stack: seq<string>, seg: string, rest: string)
    ensures Pass(stack, seg, rest) == Rendered(stack, Glue(seg, Split(rest)))
    decreases |rest|
  {
    hide Rendered, Glue, Resolve;
    if rest == "" {
      GlueCases(seg, ' ', [""]);
      RenderedCons(stack, seg, []);
    } else {
      var more := Split(rest[1..]);
      GlueCases(seg, rest[0], more);
      RenderedCons(stack, seg, more);
      if rest[0] == '/' {
        PassResolves(Resolve(stack, seg), "", rest[1..]);
      } else {
        PassResolves(stack, seg + [rest[0]], rest[1..]);
      }
    }
  }

  // ---- the pass on arrays ----

  ghost predicate Segments(stack: seq<string>) {
    forall k :: 0 <= k < |stack| ==> stack[k] != "" && '/' !in stack[k]
  }

  lemma PathPush(stack: seq<string>, seg: string)
    ensures Path(stack + [seg]) == Path(stack) + "/" + seg
  {
    assert (stack + [seg])[..|stack|] == stack;
  }

  lemma PathTop(stack: seq<string>)
    requires stack != []
    ensures Path(stack) == Path(stack[..|stack| - 1]) + "/" + stack[|stack| - 1]
  {
  }

  // ".." steps back over the last component, to its slash or the start.
  method StepBack(d: array<char>, slash: nat, ghost stack: seq<string>) returns (out: nat)
    requires Segments(stack) && slash < d.Length && d[..slash] == Path(stack) && d[slash] == '/'
    ensures out <= slash && d[..out] == Path(Resolve(stack, "..")) && d[out] == '/'
  {
    out := slash;
    if out > 0 {
      ghost var seg, below := stack[|stack| - 1], Path(stack[..|stack| - 1]);
      PathTop(stack);
      SlashAt(d[..slash], below, seg);
      out := out - 1;
      while out > 0 && d[out] != '/'
        invariant |below| <= out < slash
      {
        assert d[out] == d[..slash][out];
        out := out - 1;
      }
      assert d[out] == d[..slash][out];
      assert d[..out] == d[..slash][..out];
    }
  }

  // The only slash of the last component is its first character.
  lemma SlashAt(path: string, below: string, seg: string)
    requires path == below + "/" + seg && '/' !in seg
    ensures path[|below|] == '/' && path[..|below|] == below
    ensures forall k :: |below| < k < |path| ==> path[k] != '/'
  {
    forall k | |below| < k < |path|
      ensures path[k] != '/'
    {
      assert path[k] == seg[k - |below| - 1];
    }
  }

  // The pass at the head of its loop: all before walk has been read, and the segment
  // begun ends with the character c, which is still to be written.
  ghost predicate Begun(d: string, out: nat, slash: nat, stack: seq<string>, seg: string, pre1: char, c: char) {
    && out <= |d| && slash == |Path(stack)| <= out && Segments(stack) && '/' !in seg
    && d[..out] + [c] == Path(stack) + "/" + seg
    && (seg == "" ==> c == '/')
    && (|seg| == 1 ==> pre1 == '/') && (|seg| > 1 ==> pre1 == seg[|seg| - 2])
  }

  // Whether the completed segment seg is "..", or "" or ".", as the pass tells it from
  // the token length and the last two characters.
  lemma Recognized(seg: string, toklen: nat, pre2: char, pre1: char)
    requires toklen == |seg| + 1 && '/' !in seg && (seg == "" ==> pre1 == '/') && (seg != "" ==> pre1 == seg[|seg| - 1])
    requires (|seg| == 1 ==> pre2 == '/') && (|seg| > 1 ==> pre2 == seg[|seg| - 2])
    ensures toklen == 3 && pre2 == '.' && pre1 == '.' <==> seg == ".."
    ensures toklen == 1 || (pre2 == '/' && pre1 == '.') <==> seg == "" || seg == "."
  {
    if |seg| == 2 {
      assert seg == [pre2, pre1];
    } else if |seg| == 1 {
      assert seg == [pre1];
    } else if |seg| > 2 {
      assert pre2 in seg;
    }
  }

  // The decision at the end of a segment: the new end of the output.
  method EndSegment(d: array<char>, slash: nat, out: nat, pre2: char, pre1: char, c: char, ghost stack: seq<string>,
                    ghost seg: string)
    returns (out': nat)
    requires Segments(stack) && '/' !in seg && slash == |Path(stack)| && out < d.Length
      && d[..out] == Path(stack) + "/" + seg
    requires (seg == "" ==> pre1 == '/') && (seg != "" ==> pre1 == seg[|seg| - 1])
    requires (|seg| == 1 ==> pre2 == '/') && (|seg| > 1 ==> pre2 == seg[|seg| - 2])
    ensures out' <= out && Segments(Resolve(stack, seg))
    ensures d[..out'] == Path(Resolve(stack, seg)) + if c == '\0' && Dropped(seg) then "/" else ""
  {
    out' := out;
    var toklen := out - slash;
    Recognized(seg, toklen, pre2, pre1);
    assert d[slash] == d[..out][slash] == '/' && d[..slash] == d[..out][..slash] == Path(stack);
    if toklen == 3 && pre2 == '.' && pre1 == '.' {
      out' := StepBack(d, slash, stack);
      if c == '\0' {
        assert d[..out' + 1] == d[..out'] + "/";
        out' := out' + 1;
      }
    } else if toklen == 1 || (pre2 == '/' && pre1 == '.') {
      out' := slash;
      if c == '\0' {
        assert d[..out' + 1] == d[..out'] + "/";
        out' := out' + 1;
      }
    } else {
      PathPush(stack, seg);
    }
  }

  // What the pass still has to do is what is left of the goal.
  ghost predicate Heading(d: string, out: nat, slash: nat, stack: seq<string>, seg: string, pre1: char, c: char,
                          text: string, walk: nat, goal: string) {
    && 0 < walk <= |text| + 1 && out <= walk && out <= |d| && c == At(text, walk - 1)
    && (c != '\0' ==>
      walk <= |text| && Begun(d, out, slash, stack, seg, pre1, c) && goal == Pass(stack, seg, text[walk..]))
    && (c == '\0' ==> d[..out] == goal)
  }

  lemma PassTurn(stack: seq<string>, seg: string, text: string, walk: nat)
    requires walk <= |text| && '\0' !in text
    ensures var c, goal := At(text, walk), Pass(stack, seg, text[walk..]);
            && (c == '\0' ==> goal == Path(Resolve(stack, seg)) + if Dropped(seg) then "/" else "")
            && (c == '/' ==> goal == Pass(Resolve(stack, seg), "", text[walk + 1..]))
            && (c != '\0' && c != '/' ==> goal == Pass(stack, seg + [c], text[walk + 1..]))
  {
    if walk < |text| {
      assert text[walk..][1..] == text[walk + 1..] && text[walk] in text;
    }
  }

  // One turn: the pending character is written after the next one has been read.
  method Turn(d: array<char>, s: array<char>, ghost text: string, walk: nat, out: nat, slash: nat, pre1: char, c: char,
              ghost stack: seq<string>, ghost seg: string, ghost goal: string)
    returns (out': nat, slash': nat, c': char, ghost stack': seq<string>, ghost seg': string)
    requires '\0' !in text && c != '\0' && |text| + 2 <= d.Length && Unread(s[..], text, walk)
    requires Heading(d[..], out, slash, stack, seg, pre1, c, text, walk, goal)
    modifies d
    ensures Unread(s[..], text, walk + 1)
    ensures Heading(d[..], out', slash', stack', seg', c, c', text, walk + 1, goal)
  {
    ghost var before := d[..];
    c' := s[walk];
    d[out] := c;
    assert d[..out + 1] == before[..out] + [c];
    PassTurn(stack, seg, text, walk);
    LastOf(before[..out], Path(stack), seg, c);
    out', slash', stack', seg' := out + 1, slash, stack, seg;
    if c' == '/' || c' == '\0' {
      out' := EndSegment(d, slash, out + 1, pre1, c, c', stack, seg);
      slash', stack', seg' := out', Resolve(stack, seg), "";
    } else {
      seg' := seg + [c'];
    }
  }

  lemma LastOf(out: string, path: string, seg: string, c: char)
    requires out + [c] == path + "/" + seg
    ensures seg != "" ==> seg[|seg| - 1] == c
    ensures seg == "" ==> c == '/'
  {
    assert (out + [c])[|out|] == c;
    assert seg != "" ==> (path + "/" + seg)[|path| + |seg|] == seg[|seg| - 1];
  }

  // The loop of buffer_path_simplify on the string text, which ends at index |text| of
  // s. The arrays may be the same: the output never gets ahead of the input.
  method Loop(d: array<char>, s: array<char>, ghost text: string, from: nat) returns (out: nat)
    requires '\0' !in text && |text| + 2 <= d.Length && from <= |text| && Unread(s[..], text, 0)
    modifies d
    ensures out <= |text| + 1 && d[..out] == Pass([], "", Relative(text[from..]))
  {
    var walk, pre1, c, slash := from + 1, '\0', s[from], 0;
    out := 0;
    ghost var stack, seg, goal := [], "", Pass([], "", Relative(text[from..]));
    PassTurn([], "", text, from);
    if c != '/' {
      pre1 := '/';
      d[0] := '/';
      out := 1;
      seg := [c];
      assert d[..1] == "/";
      assert "" + [c] == [c];
    } else {
      assert text[from..][1..] == text[from + 1..];
    }
    while c != '\0'
      invariant Unread(s[..], text, walk) && Heading(d[..], out, slash, stack, seg, pre1, c, text, walk, goal)
      decreases |text| + 1 - walk
    {
      var c';
      out, slash, c', stack, seg := Turn(d, s, text, walk, out, slash, pre1, c, stack, seg, goal);
      pre1, c, walk := c, c', walk + 1;
    }
  }

  // ---- buffer_path_simplify ----

  method SkipLeading(s: array<char>, ghost text: string) returns (from: nat)
    requires '\0' !in text && Unread(s[..], text, 0)
    ensures from <= |text| && text[from..] == SkipSpaces(text)
  {
    from := 0;
    while s[from] == ' '
      invariant from <= |text| && SkipSpaces(text[from..]) == SkipSpaces(text)
      decreases |text| - from
    {
      assert text[from..][1..] == text[from + 1..];
      from := from + 1;
    }
  }

  lemma {:induction false} CStringPrefix(s: string)
    ensures CString(s) == s[..|CString(s)|] && (|CString(s)| < |s| ==> s[|CString(s)|] == '\0')
  {
    if s != "" && s[0] != '\0' {
      CStringPrefix(s[1..]);
      assert s == [s[0]] + s[1..];
    }
  }

  lemma SimplifiedPass(s: string)
    requires s != ""
    ensures Simplified(s) == Pass([], "", Relative(SkipSpaces(CString(s))))
  {
    var rest := Relative(SkipSpaces(CString(s)));
    PassResolves([], "", rest);
    GlueCases("", ' ', Split(rest));
  }

  lemma EmptyPath()
    ensures Simplified("") == ""
  {
  }

  // dest may be src: then the path is simplified in place.
  method BufferPathSimplify(dest: Buffer, src: Buffer)
    requires dest.Valid() && src.Valid() && (dest != src ==> dest.ptr != src.ptr)
    modifies dest, dest.ptr
    ensures dest.Valid() && dest.Contents() == Simplified(old(src.Contents()))
    ensures dest != src ==> src.ptr[..] == old(src.ptr[..])
  {
    ghost var s, text := src.Contents(), CString(src.Contents());
    EmptyPath();
    hide CString, SkipSpaces, Relative, Pass, Simplified;
    if src.used <= 1 {
      dest.PrepareCopy(0);
      return;
    }
    CStringPrefix(s);
    if src == dest {
      dest.PrepareAppend(1);
    } else {
      dest.PrepareCopy(src.used);
    }
    forall k | 0 <= k <= |text|
      ensures src.ptr[k] == At(text, k)
    {
      assert k < |s| ==> src.ptr[k] == s[k];
    }
    var from := SkipLeading(src.ptr, text);
    var out := Loop(dest.ptr, src.ptr, text, from);
    SimplifiedPass(s);
    dest.SetLength(out);
  }
}
