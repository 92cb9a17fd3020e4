// CompressTables of lemon.c for one state: the most frequent reduce becomes the
// action on the pseudo symbol {default}, if it occurs at least twice.

module Compress {
  import opened Wrappers
  import opened Grammars
  import opened Automaton
  import opened Actions

  predicate ReducesBy(x: Action, r: nat) {
    x.typ == REDUCE && x.arg == r
  }

  // How often the reduce by rule r occurs from position i on.
  function CountFrom(s: seq<Action>, r: nat, i: nat): nat
    requires i <= |s|
    decreases |s| - i
  {
    if i == |s| then 0 else (if ReducesBy(s[i], r) then 1 else 0) + CountFrom(s, r, i + 1)
  }

  ghost function Positions(s: seq<Action>, r: nat, i: nat): set<nat> {
    set k: nat | i <= k < |s| && s[k].typ == REDUCE && s[k].arg == r
  }

  // That is the number of its positions.
  lemma {:induction false} CountMeans(s: seq<Action>, r: nat, i: nat)
    requires i <= |s|
    ensures CountFrom(s, r, i) == |Positions(s, r, i)|
    decreases |s| - i
  {
    if i == |s| {
      assert Positions(s, r, i) == {};
    } else {
      CountMeans(s, r, i + 1);
      PositionsStep(s, r, i);
      hide Positions, ReducesBy;
    }
  }

  lemma PositionsStep(s: seq<Action>, r: nat, i: nat)
    requires i < |s|
    ensures i !in Positions(s, r, i + 1)
    ensures Positions(s, r, i) == if ReducesBy(s[i], r) then {i} + Positions(s, r, i + 1) else Positions(s, r, i + 1)
  {
  }

  lemma {:induction false} CountPrefix(s: seq<Action>, r: nat, i: nat)
    requires i <= |s|
    ensures CountFrom(s, r, i) <= CountFrom(s, r, 0)
    ensures (forall k :: 0 <= k < i ==> !ReducesBy(s[k], r)) ==> CountFrom(s, r, i) == CountFrom(s, r, 0)
  {
    if i > 0 {
      CountPrefix(s, r, i - 1);
    }
  }

  lemma {:induction false} CountedOccurs(s: seq<Action>, r: nat, i: nat) returns (k: nat)
    requires i <= |s| && CountFrom(s, r, i) > 0
    ensures i <= k < |s| && ReducesBy(s[k], r)
    decreases |s| - i
  {
    if ReducesBy(s[i], r) {
      k := i;
    } else {
      k := CountedOccurs(s, r, i + 1);
    }
  }

  // No reduce among the first i actions is more frequent than rbest.
  ghost predicate BestOf(s: seq<Action>, i: nat, nbest: nat, rbest: nat) {
    && i <= |s|
    && (forall k :: 0 <= k < i && s[k].typ == REDUCE ==> CountFrom(s, s[k].arg, 0) <= nbest)
    && (nbest > 0 ==> CountFrom(s, rbest, 0) == nbest)
  }

  lemma BestStep(s: seq<Action>, i: nat, nbest: nat, rbest: nat, n: nat)
    requires BestOf(s, i, nbest, rbest) && i < |s| && s[i].typ == REDUCE && n == CountFrom(s, s[i].arg, i)
    ensures if n > nbest then BestOf(s, i + 1, n, s[i].arg) else BestOf(s, i + 1, nbest, rbest)
  {
    var r := s[i].arg;
    CountPrefix(s, r, i);
    if k :| 0 <= k < i && ReducesBy(s[k], r) {
      assert CountFrom(s, r, 0) <= nbest;
    }
  }

  method FindBest(s: seq<Action>) returns (nbest: nat, rbest: nat)
    ensures BestOf(s, |s|, nbest, rbest)
  {
    nbest, rbest := 0, 0;
    for i := 0 to |s|
      invariant BestOf(s, i, nbest, rbest)
    {
      if s[i].typ == REDUCE && !(nbest > 0 && s[i].arg == rbest) {
        var rp := s[i].arg;
        var n := 1;
        for j := i + 1 to |s|
          invariant n + CountFrom(s, rp, j) == CountFrom(s, rp, i)
        {
          if s[j].typ == REDUCE && !(nbest > 0 && s[j].arg == rbest) && s[j].arg == rp {
            n := n + 1;
          }
        }
        BestStep(s, i, nbest, rbest, n);
        if n > nbest {
          nbest, rbest := n, rp;
        }
      }
    }
  }

  // The living actions of out are those of s without the reduces by r, plus the default.
  ghost predicate FoldedInto(g: Grammar, s: seq<Action>, out: seq<Action>, r: nat) {
    forall x :: x in out && Alive(x) <==> (x in s && Alive(x) && !ReducesBy(x, r)) || x == Action(g.nsymbol, REDUCE, r)
  }

  // Some(r): r was the most frequent reduce, at least two of them, and is folded.
  ghost predicate CompressedInto(g: Grammar, s: seq<Action>, out: seq<Action>, best: Option<nat>) {
    && OneEach(out)
    && match best
       case None => out == s && forall k :: 0 <= k < |s| && s[k].typ == REDUCE ==> CountFrom(s, s[k].arg, 0) < 2
       case Some(r) =>
         && FoldedInto(g, s, out, r) && CountFrom(s, r, 0) >= 2
         && forall k :: 0 <= k < |s| && s[k].typ == REDUCE ==> CountFrom(s, s[k].arg, 0) <= CountFrom(s, r, 0)
  }

  // The combining loop after position k0, the first reduce by r.
  ghost predicate Combining(g: Grammar, s: seq<Action>, out: seq<Action>, r: nat, k0: nat, j: nat) {
    && |out| == |s| && k0 < j <= |s| && ReducesBy(s[k0], r)
    && (forall k :: 0 <= k < k0 ==> !ReducesBy(s[k], r) && out[k] == s[k])
    && out[k0] == Action(g.nsymbol, REDUCE, r)
    && (forall k :: k0 < k < j ==> out[k] == if ReducesBy(s[k], r) then s[k].(typ := NOT_USED) else s[k])
    && (forall k :: j <= k < |s| ==> out[k] == s[k])
  }

  lemma CombinedFolds(g: Grammar, s: seq<Action>, out: seq<Action>, r: nat, k0: nat)
    requires Combining(g, s, out, r, k0, |s|) && OneEach(s) && forall x :: x in s ==> x.sp < g.nsymbol
    ensures FoldedInto(g, s, out, r) && OneEach(out)
  {
    forall x
      ensures x in out && Alive(x) <==> (x in s && Alive(x) && !ReducesBy(x, r)) || x == Action(g.nsymbol, REDUCE, r)
    {
      if x in out && Alive(x) {
        var k :| 0 <= k < |out| && out[k] == x;
        assert k != k0 ==> s[k] == x && x in s;
      }
      if x in s && Alive(x) && !ReducesBy(x, r) {
        var k :| 0 <= k < |s| && s[k] == x;
        assert out[k] == x;
      }
      assert out[k0] in out;
    }
    forall i, j | 0 <= i < j < |out| && out[i].sp == out[j].sp
      ensures !(Alive(out[i]) && Alive(out[j]))
    {
      assert s[i] in s && s[j] in s;
    }
  }

  method Combine(g: Grammar, s: seq<Action>, r: nat) returns (out: seq<Action>)
    requires CountFrom(s, r, 0) >= 2 && OneEach(s) && forall x :: x in s ==> x.sp < g.nsymbol
    ensures FoldedInto(g, s, out, r) && OneEach(out) && |out| == |s|
  {
    ghost var some := CountedOccurs(s, r, 0);
    var k := 0;
    while !ReducesBy(s[k], r)
      invariant k <= some && forall i :: 0 <= i < k ==> !ReducesBy(s[i], r)
      decreases some - k
    {
      k := k + 1;
    }
    out := s[k := s[k].(sp := g.nsymbol)];
    for j := k + 1 to |s|
      invariant Combining(g, s, out, r, k, j)
    {
      if ReducesBy(out[j], r) {
        out := out[j := out[j].(typ := NOT_USED)];
      }
    }
    CombinedFolds(g, s, out, r, k);
  }

  lemma PermutedFolds(g: Grammar, s: seq<Action>, out: seq<Action>, sorted: seq<Action>, r: nat)
    requires FoldedInto(g, s, out, r) && OneEach(out) && multiset(sorted) == multiset(out)
    ensures FoldedInto(g, s, sorted, r) && OneEach(sorted)
  {
    forall x
      ensures x in sorted <==> x in out
    {
      assert x in sorted <==> x in multiset(sorted);
      assert x in out <==> x in multiset(out);
    }
    forall i, j | 0 <= i < j < |sorted| && sorted[i].sp == sorted[j].sp
      ensures !(Alive(sorted[i]) && Alive(sorted[j]))
    {
      if Alive(sorted[i]) && Alive(sorted[j]) {
        TwoPlaces(sorted, i, j);
        OneAlive(out, sorted[i], sorted[j]);
      }
    }
  }

  lemma TwoPlaces(s: seq<Action>, i: nat, j: nat)
    requires i < j < |s|
    ensures s[i] == s[j] ==> multiset(s)[s[i]] >= 2
  {
    SplitCount(s, i);
    assert s[j] in s[i + 1..];
  }

  lemma OneAlive(s: seq<Action>, x: Action, y: Action)
    requires OneEach(s) && x in s && y in s && x.sp == y.sp && Alive(x) && Alive(y)
    ensures x == y && multiset(s)[x] == 1
  {
    var i :| 0 <= i < |s| && s[i] == x;
    var j :| 0 <= j < |s| && s[j] == y;
    SplitCount(s, i);
    assert x !in s[..i] && x !in s[i + 1..];
  }

  method CompressState(g: Grammar, s: seq<Action>) returns (out: seq<Action>, ghost best: Option<nat>)
    requires OneEach(s) && |s| < 0x4000_0000 && forall x :: x in s ==> x.sp < g.nsymbol
    ensures CompressedInto(g, s, out, best)
  {
    var nbest, rbest := FindBest(s);
    if nbest < 2 {
      out, best := s, None;
    } else {
      var combined := Combine(g, s, rbest);
      out := ActionSort(combined);
      best := Some(rbest);
      PermutedFolds(g, s, combined, out, rbest);
    }
  }

  // ---- what compression means for lookups ----

  // The action of a list on symbol x: Some of the living action, if there is one.
  ghost predicate Acts(s: seq<Action>, x: Symbol, act: Action) {
    act in s && Alive(act) && act.sp == x
  }

  ghost predicate Silent(s: seq<Action>, x: Symbol) {
    forall act :: act in s && Alive(act) ==> act.sp != x
  }

  // A lookup in the compressed list that falls back on the default finds the same
  // action; a symbol without action now gets the default reduce or nothing.
  lemma CompressionPreserves(g: Grammar, s: seq<Action>, out: seq<Action>, best: Option<nat>, x: Symbol, act: Action)
    requires OneEach(s) && CompressedInto(g, s, out, best) && x < g.nsymbol
    requires forall y :: y in s ==> y.sp < g.nsymbol
    ensures Acts(s, x, act) ==>
      || Acts(out, x, act)
      || (best.Some? && act == Action(x, REDUCE, best.value) && Silent(out, x)
          && Acts(out, g.nsymbol, Action(g.nsymbol, REDUCE, best.value)))
    ensures Acts(out, x, act) ==> Acts(s, x, act)
    ensures Silent(s, x) ==> Silent(out, x)
    ensures Acts(out, g.nsymbol, act) ==> best.Some? && act == Action(g.nsymbol, REDUCE, best.value)
  {
    if best.Some? && Acts(s, x, act) && ReducesBy(act, best.value) {
      forall b | b in out && Alive(b)
        ensures b.sp != x
      {
        if b.sp == x && b in s {
          OneAliveSame(s, act, b);
        }
      }
    }
  }

  lemma OneAliveSame(s: seq<Action>, x: Action, y: Action)
    requires x in s && y in s && x.sp == y.sp && Alive(x) && Alive(y)
    ensures OneEach(s) ==> x == y
  {
  }
}
