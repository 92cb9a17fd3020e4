// What the lookaheads of the generator are, without its sets and links: the least family
// closed under the rules that define LALR(1) lookaheads, on the LR(0) automaton.

module Lalr {
  import opened Grammars
  import opened FirstSets
  import opened States
  import opened Automaton
  import opened Lookaheads
  import opened Actions

  // Item p of a state predicts d: the terminals behind p's symbol follow d, and what
  // follows p too if nothing need be behind.
  ghost predicate HandsDown(g: Grammar, info: FirstInfo, s: Follow, n: nat, p: Item, d: Item)
    requires g.Valid() && Shaped(g, info) && Predicts(g, p, d) && Cfg(n, p) in s && Cfg(n, d) in s
  {
    && (forall t :: Spontaneous(g, info, p, d, t) ==> t in s[Cfg(n, d)])
    && (NullSeq(g, info, Rest(g, p)) ==> s[Cfg(n, p)] <= s[Cfg(n, d)])
  }

  ghost predicate AllConfigs(states: seq<State>, s: Follow) {
    forall c :: IsConfig(states, c) ==> c in s
  }

  ghost predicate StartsWithEnd(g: Grammar, states: seq<State>, s: Follow) {
    forall it ::
      IsConfig(states, Cfg(0, it)) && StartItem(g, it) && it.dot == 0 ==> Cfg(0, it) in s && 0 in s[Cfg(0, it)]
  }

  ghost predicate ClosedInside(g: Grammar, info: FirstInfo, states: seq<State>, s: Follow)
    requires g.Valid() && Shaped(g, info)
  {
    forall n: nat, p, d :: IsConfig(states, Cfg(n, p)) && Predicts(g, p, d) ==>
      IsConfig(states, Cfg(n, d)) && Cfg(n, p) in s && Cfg(n, d) in s && HandsDown(g, info, s, n, p, d)
  }

  // State n goes to state m over the symbol at the dot of p.
  ghost predicate GoesTo(g: Grammar, states: seq<State>, n: nat, p: Item, m: nat) {
    && n < |states| && m < |states| && p in states[n].c.items && ReadyDot(g, p)
    && LeadsTo(g, states[n], g.rules[p.rule].rhs[p.dot], states[m])
  }

  ghost predicate ClosedAcross(g: Grammar, states: seq<State>, s: Follow) {
    forall n: nat, p, m: nat :: GoesTo(g, states, n, p, m) ==>
      Cfg(n, p) in s && Cfg(m, Next(p)) in s && s[Cfg(n, p)] <= s[Cfg(m, Next(p))]
  }

  ghost predicate LalrClosed(g: Grammar, info: FirstInfo, states: seq<State>, s: Follow)
    requires g.Valid() && Shaped(g, info)
  {
    && AllConfigs(states, s) && StartsWithEnd(g, states, s)
    && ClosedInside(g, info, states, s) && ClosedAcross(g, states, s)
  }

  ghost predicate LalrLookaheads(g: Grammar, info: FirstInfo, a: Auto, f: Follow)
    requires g.Valid() && Shaped(g, info)
  {
    LalrClosed(g, info, a.states, f) && forall s :: LalrClosed(g, info, a.states, s) ==> FollowBelow(a, f, s)
  }

  // ---- a family closed under the rules is closed under the generator's links ----

  lemma InitialBelow(g: Grammar, info: FirstInfo, a: Auto, s: Follow, c: Cfg)
    requires g.Valid() && Shaped(g, info) && GoodAuto(g, info, a) && Tight(g, info, a)
      && LalrClosed(g, info, a.states, s)
    requires IsConfig(a.states, c) && c.item in a.states[c.state].c.fws
    ensures c in s && a.states[c.state].c.fws[c.item] <= s[c]
  {
    hide ClosedAcross, Rooted, LinksGiven, HasSource, Shifts;
    var st := a.states[c.state];
    assert JustifiedState(g, info, c.state, st) && GoodState(g, info, c.state, st);
    forall t | t in st.c.fws[c.item]
      ensures t in s[c]
    {
      if c.item in st.basis && t in Seed(c.state) {
        assert c.state == 0 && t == 0 && c == Cfg(0, c.item);
      } else {
        assert Given(g, info, st.c.items, c.item, t);
        var p :| p in st.c.items && Spontaneous(g, info, p, c.item, t);
        assert IsConfig(a.states, Cfg(c.state, p)) && HandsDown(g, info, s, c.state, p, c.item);
        assert c == Cfg(c.state, c.item);
      }
    }
  }

  lemma FlowsBelow(g: Grammar, info: FirstInfo, a: Auto, s: Follow, c: Cfg, d: Cfg)
    requires g.Valid() && Shaped(g, info) && GoodAuto(g, info, a) && Tight(g, info, a)
      && LalrClosed(g, info, a.states, s)
    requires IsConfig(a.states, c) && IsConfig(a.states, d) && Flows(a, c, d)
    ensures c in s && d in s && s[c] <= s[d]
  {
    hide Rooted, SetsGiven, HasSource, StartsWithEnd, Spontaneous, NullSeq;
    if ClosureLink(a.states, c, d) {
      assert JustifiedState(g, info, c.state, a.states[c.state]);
      assert IsConfig(a.states, Cfg(c.state, c.item)) && HandsDown(g, info, s, c.state, c.item, d.item);
      assert c == Cfg(c.state, c.item) && d == Cfg(c.state, d.item);
    } else {
      assert Shifts(g, a, d, c);
      assert GoesTo(g, a.states, c.state, c.item, d.state);
      assert c == Cfg(c.state, c.item) && d == Cfg(d.state, Next(c.item));
    }
  }

  lemma ClosedIsSolution(g: Grammar, info: FirstInfo, a: Auto, s: Follow)
    requires g.Valid() && Shaped(g, info) && GoodAuto(g, info, a) && Tight(g, info, a)
      && LalrClosed(g, info, a.states, s)
    ensures FollowSolution(a, s)
  {
    assert AllConfigs(a.states, s);
    hide GoodAuto, Tight, LalrClosed, Flows;
    forall c | IsConfig(a.states, c) && c.item in a.states[c.state].c.fws
      ensures c in s && a.states[c.state].c.fws[c.item] <= s[c]
    {
      InitialBelow(g, info, a, s, c);
    }
    forall c, d | IsConfig(a.states, c) && IsConfig(a.states, d) && Flows(a, c, d)
      ensures c in s && d in s && s[c] <= s[d]
    {
      FlowsBelow(g, info, a, s, c, d);
    }
  }

  // ---- and the other way round ----

  lemma SolutionInside(g: Grammar, info: FirstInfo, a: Auto, s: Follow, n: nat, p: Item, d: Item)
    requires g.Valid() && Shaped(g, info) && GoodAuto(g, info, a) && FollowSolution(a, s)
    requires IsConfig(a.states, Cfg(n, p)) && Predicts(g, p, d)
    ensures IsConfig(a.states, Cfg(n, d)) && Cfg(n, p) in s && Cfg(n, d) in s && HandsDown(g, info, s, n, p, d)
  {
    hide GrownItems, GrownSets, GrownLinks, BackLinksOk, NoDup;
    var c := a.states[n].c;
    assert GoodState(g, info, n, a.states[n]);
    assert ExpandedAll(g, info, c, p) && Expanded(g, info, c, p, d);
    if NullSeq(g, info, Rest(g, p)) {
      assert Flows(a, Cfg(n, p), Cfg(n, d));
    }
  }

  lemma SameTarget(g: Grammar, info: FirstInfo, a: Auto, n: nat, x: Symbol, m: nat, m': nat)
    requires g.Valid() && Shaped(g, info) && GoodAuto(g, info, a) && n < |a.states| && m < |a.states| && m' < |a.states|
    requires LeadsTo(g, a.states[n], x, a.states[m]) && LeadsTo(g, a.states[n], x, a.states[m'])
    ensures m == m'
  {
    hide GoodState, BackLinksOk;
    assert ItemSet(a.states[m].basis) == ItemSet(a.states[m'].basis);
  }

  // The finished automaton has a shift over the symbol at a dot ...
  lemma ShiftOver(g: Grammar, info: FirstInfo, a: Auto, n: nat, p: Item, x: Symbol) returns (act: Action)
    requires g.Valid() && Shaped(g, info) && Finished(g, info, a) && n < |a.states| && p in a.states[n].c.items
      && AtDot(g, p, x)
    ensures act.sp == x && GoodShift(g, a, n, act)
  {
    hide GoodAuto, GoodShift, AtDot;
    assert Complete(g, a, n) && HasShift(a.states[n].ap, x);
    var k :| 0 <= k < |a.states[n].ap| && a.states[n].ap[k].sp == x;
    act := a.states[n].ap[k];
  }

  lemma GoodShiftLinks(g: Grammar, a: Auto, n: nat, p: Item, act: Action)
    requires n < |a.states| && p in a.states[n].c.items && AtDot(g, p, act.sp) && GoodShift(g, a, n, act)
    ensures act.arg < |a.states| && LeadsTo(g, a.states[n], act.sp, a.states[act.arg])
    ensures Linked(a.bplp, Cfg(act.arg, Next(p)), Cfg(n, p))
  {
    hide LeadsTo, Linked, CanShift;
  }

  // ... and leads to the only state that is reached over it.
  lemma BackLink(g: Grammar, info: FirstInfo, a: Auto, n: nat, p: Item, m: nat)
    requires g.Valid() && Shaped(g, info) && Finished(g, info, a) && GoesTo(g, a.states, n, p, m)
    ensures Linked(a.bplp, Cfg(m, Next(p)), Cfg(n, p))
  {
    hide GoodAuto, LeadsTo, Linked, GoodShift, Complete;
    var x := g.rules[p.rule].rhs[p.dot];
    var act := ShiftOver(g, info, a, n, p, x);
    GoodShiftLinks(g, a, n, p, act);
    SameTarget(g, info, a, n, x, m, act.arg);
  }

  lemma SolutionAcross(g: Grammar, info: FirstInfo, a: Auto, s: Follow, n: nat, p: Item, m: nat)
    requires g.Valid() && Shaped(g, info) && Finished(g, info, a) && FollowSolution(a, s)
      && GoesTo(g, a.states, n, p, m)
    ensures Cfg(n, p) in s && Cfg(m, Next(p)) in s && s[Cfg(n, p)] <= s[Cfg(m, Next(p))]
  {
    BackLink(g, info, a, n, p, m);
    hide GoodAuto, GoesTo, Complete, Linked;
    LinkedConfig(g, info, a, Cfg(m, Next(p)), Cfg(n, p));
    assert Flows(a, Cfg(n, p), Cfg(m, Next(p)));
  }

  lemma LinkedConfig(g: Grammar, info: FirstInfo, a: Auto, d: Cfg, c: Cfg)
    requires g.Valid() && Shaped(g, info) && GoodAuto(g, info, a) && Linked(a.bplp, d, c)
    ensures IsConfig(a.states, d) && IsConfig(a.states, c)
  {
    hide GoodStates;
  }

  lemma SolutionStarts(g: Grammar, info: FirstInfo, a: Auto, s: Follow)
    requires g.Valid() && Shaped(g, info) && GoodAuto(g, info, a) && FollowSolution(a, s)
    ensures StartsWithEnd(g, a.states, s)
  {
    hide ExpandedAll, BackLinksOk, NoDup;
    if a.states != [] {
      assert GoodState(g, info, 0, a.states[0]);
      forall it | IsConfig(a.states, Cfg(0, it)) && StartItem(g, it) && it.dot == 0
        ensures Cfg(0, it) in s && 0 in s[Cfg(0, it)]
      {
        assert ValidItem(g, it) && it in a.states[0].basis && it in a.states[0].c.fws;
      }
    }
  }

  lemma SolutionIsClosed(g: Grammar, info: FirstInfo, a: Auto, s: Follow)
    requires g.Valid() && Shaped(g, info) && Finished(g, info, a) && FollowSolution(a, s)
    ensures LalrClosed(g, info, a.states, s)
  {
    SolutionStarts(g, info, a, s);
    assert AllConfigs(a.states, s);
    assert GoodAuto(g, info, a);
    hide GoodAuto, Finished, FollowSolution, GoesTo, Predicts, HandsDown, AllConfigs, StartsWithEnd;
    forall n: nat, p, d | IsConfig(a.states, Cfg(n, p)) && Predicts(g, p, d)
      ensures IsConfig(a.states, Cfg(n, d)) && Cfg(n, p) in s && Cfg(n, d) in s && HandsDown(g, info, s, n, p, d)
    {
      SolutionInside(g, info, a, s, n, p, d);
    }
    forall n: nat, p, m: nat | GoesTo(g, a.states, n, p, m)
      ensures Cfg(n, p) in s && Cfg(m, Next(p)) in s && s[Cfg(n, p)] <= s[Cfg(m, Next(p))]
    {
      SolutionAcross(g, info, a, s, n, p, m);
    }
  }

  // So the least solution of the generator's equations are the LALR(1) lookaheads.
  lemma FollowsAreLalr(g: Grammar, info: FirstInfo, a: Auto, f: Follow)
    requires g.Valid() && Shaped(g, info) && Finished(g, info, a) && Tight(g, info, a) && FollowsOf(a, f)
    ensures LalrLookaheads(g, info, a, f)
  {
    SolutionIsClosed(g, info, a, f);
    assert GoodAuto(g, info, a);
    hide GoodAuto, Finished, Tight, FollowSolution, LalrClosed, FollowBelow;
    forall s | LalrClosed(g, info, a.states, s)
      ensures FollowBelow(a, f, s)
    {
      ClosedIsSolution(g, info, a, s);
    }
  }
}
