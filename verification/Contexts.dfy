// Where a lookahead comes from: a stack on which the terminal really can follow the item.
// Every LALR(1) lookahead has such a stack, because the lookaheads are the least family.

module Contexts {
  import opened Grammars
  import opened FirstSets
  import opened States
  import opened Automaton
  import opened Lookaheads
  import opened Lalr
  import opened Driver
  import opened Soundness

  // On the stack st the terminal l can follow the item it of the top state; k bounds the
  // number of steps down to where l comes from.
  ghost predicate Legit(g: Grammar, info: FirstInfo, a: Auto, k: nat, st: Stack, it: Item, l: Symbol)
    requires g.Valid() && Shaped(g, info)
    decreases k, 2
  {
    && k > 0 && Chain(g, a, st) && Top(st) < |a.states| && it in a.states[Top(st)].c.items
    && if it.dot > 0 then |st| > 1 && Legit(g, info, a, k - 1, st[..|st| - 1], Prev(it), l)
       else if StartItem(g, it) then l == 0 && |st| == 1
       else exists p :: Origin(g, info, a, k, st, p, it, l)
  }

  // Item p of the top state predicts it, and l comes after the predicted symbol.
  ghost predicate Origin(g: Grammar, info: FirstInfo, a: Auto, k: nat, st: Stack, p: Item, it: Item, l: Symbol)
    requires g.Valid() && Shaped(g, info) && st != [] && Top(st) < |a.states|
    decreases k, 1
  {
    p in a.states[Top(st)].c.items && Predicts(g, p, it) && After(g, info, a, k, st, p, it, l)
  }

  ghost predicate After(g: Grammar, info: FirstInfo, a: Auto, k: nat, st: Stack, p: Item, it: Item, l: Symbol)
    requires g.Valid() && Shaped(g, info) && Predicts(g, p, it)
    decreases k, 0
  {
    Spontaneous(g, info, p, it, l) || (NullSeq(g, info, Rest(g, p)) && k >= 2 && Legit(g, info, a, k - 2, st, p, l))
  }

  lemma LegitParts(g: Grammar, info: FirstInfo, a: Auto, k: nat, st: Stack, it: Item, l: Symbol)
    requires g.Valid() && Shaped(g, info) && Legit(g, info, a, k, st, it, l)
    ensures k > 0 && Chain(g, a, st) && Top(st) < |a.states| && it in a.states[Top(st)].c.items
    ensures it.dot > 0 ==> |st| > 1 && Legit(g, info, a, k - 1, st[..|st| - 1], Prev(it), l)
    ensures it.dot == 0 && StartItem(g, it) ==> l == 0 && |st| == 1
  {
  }

  lemma LegitOrigin(g: Grammar, info: FirstInfo, a: Auto, k: nat, st: Stack, it: Item, l: Symbol) returns (p: Item)
    requires g.Valid() && Shaped(g, info) && Legit(g, info, a, k, st, it, l) && it.dot == 0 && !StartItem(g, it)
    ensures Chain(g, a, st) && Top(st) < |a.states| && p in a.states[Top(st)].c.items && Predicts(g, p, it)
    ensures After(g, info, a, k, st, p, it, l)
  {
    p :| Origin(g, info, a, k, st, p, it, l);
  }

  // The steps up.
  lemma LegitStart(g: Grammar, info: FirstInfo, a: Auto, st: Stack, it: Item)
    requires g.Valid() && Shaped(g, info) && Chain(g, a, st) && |st| == 1 && it in a.states[0].c.items && it.dot == 0
      && StartItem(g, it)
    ensures Legit(g, info, a, 1, st, it, 0)
  {
  }

  lemma LegitDown(g: Grammar, info: FirstInfo, a: Auto, k: nat, st: Stack, p: Item, it: Item, l: Symbol)
    requires g.Valid() && Shaped(g, info) && Chain(g, a, st) && Top(st) < |a.states| && it in a.states[Top(st)].c.items
    requires p in a.states[Top(st)].c.items && Predicts(g, p, it) && k > 0 && After(g, info, a, k, st, p, it, l)
    ensures Legit(g, info, a, k, st, it, l)
  {
    PredictedNotStart(g, p, it);
    assert Origin(g, info, a, k, st, p, it, l);
  }

  lemma LegitAcross(g: Grammar, info: FirstInfo, a: Auto, k: nat, st: Stack, p: Item, l: Symbol, e: Entry)
    requires g.Valid() && Shaped(g, info) && Legit(g, info, a, k, st, p, l)
    requires Chain(g, a, st + [e]) && e.stateno < |a.states| && Next(p) in a.states[e.stateno].c.items
    ensures Legit(g, info, a, k + 1, st + [e], Next(p), l)
  {
    var st' := st + [e];
    assert st'[..|st'| - 1] == st && Prev(Next(p)) == p && Top(st') == e.stateno;
    LegitParts(g, info, a, k, st, p, l);
  }

  // Down to where the rule of the item began.
  lemma {:induction false} LegitBase(g: Grammar, info: FirstInfo, a: Auto, k: nat, st: Stack, it: Item, l: Symbol)
    requires g.Valid() && Shaped(g, info) && Legit(g, info, a, k, st, it, l)
    ensures it.dot < k && it.dot < |st| && Legit(g, info, a, k - it.dot, st[..|st| - it.dot], Item(it.rule, 0), l)
    decreases it.dot
  {
    LegitParts(g, info, a, k, st, it, l);
    if it.dot == 0 {
      assert st[..|st|] == st && it == Item(it.rule, 0);
    } else {
      LegitBase(g, info, a, k - 1, st[..|st| - 1], Prev(it), l);
      assert st[..|st| - 1][..|st| - 1 - (it.dot - 1)] == st[..|st| - it.dot];
    }
  }

  // ---- what is legitimate is a lookahead ----

  lemma {:induction false} LegitInFollow(g: Grammar, info: FirstInfo, a: Auto, f: Follow, k: nat, st: Stack, it: Item,
                                         l: Symbol)
    requires g.Valid() && Shaped(g, info) && ShiftedItems(g, a) && LalrClosed(g, info, a.states, f)
    requires Legit(g, info, a, k, st, it, l)
    ensures Cfg(Top(st), it) in f && l in f[Cfg(Top(st), it)]
    decreases k
  {
    LegitParts(g, info, a, k, st, it, l);
    hide Legit, LalrClosed;
    ClosedParts(g, info, a, f);
    assert IsConfig(a.states, Cfg(Top(st), it));
    if it.dot > 0 {
      LegitInFollow(g, info, a, f, k - 1, st[..|st| - 1], Prev(it), l);
      ItemBelow(g, a, st, it);
      AcrossTop(g, info, a, st, it);
      hide GoesTo, Predicts, IsConfig;
      assert GoesTo(g, a.states, st[|st| - 2].stateno, Prev(it), Top(st));
      assert Next(Prev(it)) == it && Top(st[..|st| - 1]) == st[|st| - 2].stateno;
    } else if StartItem(g, it) {
      StartTop(g, a, st);
    } else {
      var p := LegitOrigin(g, info, a, k, st, it, l);
      assert IsConfig(a.states, Cfg(Top(st), p)) && HandsDown(g, info, f, Top(st), p, it);
      if !Spontaneous(g, info, p, it, l) {
        LegitInFollow(g, info, a, f, k - 2, st, p, l);
      }
    }
  }

  lemma ClosedParts(g: Grammar, info: FirstInfo, a: Auto, f: Follow)
    requires g.Valid() && Shaped(g, info) && LalrClosed(g, info, a.states, f)
    ensures AllConfigs(a.states, f) && StartsWithEnd(g, a.states, f) && ClosedInside(g, info, a.states, f)
      && ClosedAcross(g, a.states, f)
  {
  }

  lemma StartTop(g: Grammar, a: Auto, st: Stack)
    requires Chain(g, a, st) && |st| == 1
    ensures Top(st) == 0
  {
  }

  lemma AcrossTop(g: Grammar, info: FirstInfo, a: Auto, st: Stack, it: Item)
    requires ShiftedItems(g, a) && Chain(g, a, st) && Top(st) < |a.states| && it in a.states[Top(st)].c.items
      && it.dot > 0
    ensures |st| > 1 && GoesTo(g, a.states, st[|st| - 2].stateno, Prev(it), Top(st))
  {
    ItemBelow(g, a, st, it);
    assert LinkAt(g, a, st, |st| - 1);
  }

  // ---- every lookahead is legitimate ----

  // Every state is reached by some stack.
  lemma {:induction false} StackTo(g: Grammar, info: FirstInfo, a: Auto, n: nat) returns (st: Stack)
    requires g.Valid() && Shaped(g, info) && Tight(g, info, a) && ShiftedItems(g, a) && n < |a.states|
    ensures Chain(g, a, st) && Top(st) == n
  {
    if n == 0 {
      st := [Entry(0, 0, Leaf(0))];
    } else {
      assert HasSource(g, a.states, n);
      var m: nat, x :| m < n && CanShift(g, a.states[m], x) && LeadsTo(g, a.states[m], x, a.states[n]);
      hide Tight, HasSource, ShiftedItems, CanShift, LeadsTo;
      var below := StackTo(g, info, a, m);
      st := below + [Entry(n, x, Leaf(x))];
      ChainPush(g, a, below, Entry(n, x, Leaf(x)));
    }
  }

  ghost predicate LegitAt(g: Grammar, info: FirstInfo, a: Auto, c: Cfg, l: Symbol)
    requires g.Valid() && Shaped(g, info)
  {
    exists k: nat, st: Stack :: st != [] && Top(st) == c.state && Legit(g, info, a, k, st, c.item, l)
  }

  ghost function Legitimate(g: Grammar, info: FirstInfo, a: Auto, f: Follow): (s: Follow)
    requires g.Valid() && Shaped(g, info)
    ensures forall c :: c in s <==> c in f
    ensures forall c, l :: c in s ==> (l in s[c] <==> l in f[c] && LegitAt(g, info, a, c, l))
  {
    map c | c in f :: set l | l in f[c] && LegitAt(g, info, a, c, l)
  }

  ghost predicate Ready(g: Grammar, info: FirstInfo, a: Auto, f: Follow)
    requires g.Valid() && Shaped(g, info)
  {
    Tight(g, info, a) && ShiftedItems(g, a) && LalrClosed(g, info, a.states, f)
  }

  lemma LegitimateStarts(g: Grammar, info: FirstInfo, a: Auto, f: Follow)
    requires g.Valid() && Shaped(g, info) && Ready(g, info, a, f)
    ensures StartsWithEnd(g, a.states, Legitimate(g, info, a, f))
  {
    ClosedParts(g, info, a, f);
    hide Ready, LalrClosed, Legit, Legitimate;
    forall it | IsConfig(a.states, Cfg(0, it)) && StartItem(g, it) && it.dot == 0
      ensures Cfg(0, it) in f && 0 in f[Cfg(0, it)] && LegitAt(g, info, a, Cfg(0, it), 0)
    {
      LegitStart(g, info, a, [Entry(0, 0, Leaf(0))], it);
    }
  }

  lemma LegitimateInside(g: Grammar, info: FirstInfo, a: Auto, f: Follow, n: nat, p: Item, d: Item)
    requires g.Valid() && Shaped(g, info) && Ready(g, info, a, f) && IsConfig(a.states, Cfg(n, p)) && Predicts(g, p, d)
    ensures IsConfig(a.states, Cfg(n, d)) && Cfg(n, p) in f && Cfg(n, d) in f
    ensures HandsDown(g, info, Legitimate(g, info, a, f), n, p, d)
  {
    ClosedParts(g, info, a, f);
    assert HandsDown(g, info, f, n, p, d);
    var st0 := StackTo(g, info, a, n);
    hide Ready, LalrClosed, ClosedInside, Legit, Legitimate, NullSeq;
    var s := Legitimate(g, info, a, f);
    forall t | Spontaneous(g, info, p, d, t)
      ensures t in s[Cfg(n, d)]
    {
      LegitDown(g, info, a, 1, st0, p, d, t);
    }
    if NullSeq(g, info, Rest(g, p)) {
      forall l | l in s[Cfg(n, p)]
        ensures l in s[Cfg(n, d)]
      {
        var k: nat, st: Stack :| st != [] && Top(st) == n && Legit(g, info, a, k, st, p, l);
        LegitParts(g, info, a, k, st, p, l);
        LegitDown(g, info, a, k + 2, st, p, d, l);
      }
    }
  }

  lemma LegitimateAcross(g: Grammar, info: FirstInfo, a: Auto, f: Follow, n: nat, p: Item, m: nat)
    requires g.Valid() && Shaped(g, info) && Ready(g, info, a, f) && BasisListed(a) && GoesTo(g, a.states, n, p, m)
    ensures Cfg(n, p) in f && Cfg(m, Next(p)) in f
    ensures Legitimate(g, info, a, f)[Cfg(n, p)] <= Legitimate(g, info, a, f)[Cfg(m, Next(p))]
  {
    ClosedParts(g, info, a, f);
    assert f[Cfg(n, p)] <= f[Cfg(m, Next(p))];
    NextListed(g, a, n, p, m);
    hide Ready, LalrClosed, ClosedAcross, Legit, Legitimate, ShiftedItems;
    var s, x := Legitimate(g, info, a, f), g.rules[p.rule].rhs[p.dot];
    forall l | l in s[Cfg(n, p)]
      ensures l in s[Cfg(m, Next(p))]
    {
      var k: nat, st: Stack :| st != [] && Top(st) == n && Legit(g, info, a, k, st, p, l);
      LegitParts(g, info, a, k, st, p, l);
      var e := Entry(m, x, Leaf(x));
      ChainPush(g, a, st, e);
      LegitAcross(g, info, a, k, st, p, l, e);
      assert Top(st + [e]) == m;
    }
  }

  lemma NextListed(g: Grammar, a: Auto, n: nat, p: Item, m: nat)
    requires ShiftedItems(g, a) && BasisListed(a) && GoesTo(g, a.states, n, p, m)
    ensures 0 < m < |a.states| && Next(p) in a.states[m].c.items
  {
    assert Prev(Next(p)) == p;
    assert Next(p) in a.states[m].basis;
  }

  lemma LegitimateClosed(g: Grammar, info: FirstInfo, a: Auto, f: Follow)
    requires g.Valid() && Shaped(g, info) && Ready(g, info, a, f) && BasisListed(a)
    ensures LalrClosed(g, info, a.states, Legitimate(g, info, a, f))
  {
    var s := Legitimate(g, info, a, f);
    ClosedParts(g, info, a, f);
    LegitimateStarts(g, info, a, f);
    hide Ready, Legitimate, GoesTo, Predicts, HandsDown, StartsWithEnd, BasisListed, ClosedInside, ClosedAcross;
    assert AllConfigs(a.states, s);
    assert ClosedInside(g, info, a.states, s) by { InsideClosed(g, info, a, f); }
    assert ClosedAcross(g, a.states, s) by { AcrossClosed(g, info, a, f); }
  }

  lemma InsideClosed(g: Grammar, info: FirstInfo, a: Auto, f: Follow)
    requires g.Valid() && Shaped(g, info) && Ready(g, info, a, f)
    ensures ClosedInside(g, info, a.states, Legitimate(g, info, a, f))
  {
    hide Ready, Legitimate, Predicts, HandsDown;
    forall n: nat, p, d | IsConfig(a.states, Cfg(n, p)) && Predicts(g, p, d)
      ensures IsConfig(a.states, Cfg(n, d)) && Cfg(n, p) in f && Cfg(n, d) in f
        && HandsDown(g, info, Legitimate(g, info, a, f), n, p, d)
    {
      LegitimateInside(g, info, a, f, n, p, d);
    }
  }

  lemma AcrossClosed(g: Grammar, info: FirstInfo, a: Auto, f: Follow)
    requires g.Valid() && Shaped(g, info) && Ready(g, info, a, f) && BasisListed(a)
    ensures ClosedAcross(g, a.states, Legitimate(g, info, a, f))
  {
    hide Ready, Legitimate, GoesTo, BasisListed;
    var s := Legitimate(g, info, a, f);
    forall n: nat, p, m: nat | GoesTo(g, a.states, n, p, m)
      ensures Cfg(n, p) in s && Cfg(m, Next(p)) in s && s[Cfg(n, p)] <= s[Cfg(m, Next(p))]
    {
      LegitimateAcross(g, info, a, f, n, p, m);
    }
  }

  // Every LALR(1) lookahead can really follow its item, on some stack.
  lemma LookaheadLegit(g: Grammar, info: FirstInfo, a: Auto, f: Follow, c: Cfg, l: Symbol) returns (k: nat, st: Stack)
    requires g.Valid() && Shaped(g, info) && LalrLookaheads(g, info, a, f) && Tight(g, info, a) && ShiftedItems(g, a)
      && BasisListed(a)
    requires IsConfig(a.states, c) && c in f && l in f[c]
    ensures st != [] && Top(st) == c.state && Legit(g, info, a, k, st, c.item, l)
  {
    hide Tight, ShiftedItems, BasisListed, LalrClosed, Legitimate, Legit;
    assert Ready(g, info, a, f);
    LegitimateClosed(g, info, a, f);
    assert FollowBelow(a, f, Legitimate(g, info, a, f));
    assert l in Legitimate(g, info, a, f)[c];
    assert LegitAt(g, info, a, c, l);
    k, st :| st != [] && Top(st) == c.state && Legit(g, info, a, k, st, c.item, l);
  }
}
