// What a lookup in the generated tables means in terms of the automaton: the partner
// of the whole generator, and what the proofs about the driver rest on.

module Decisions {
  import opened Wrappers
  import opened Grammars
  import opened FirstSets
  import opened States
  import opened Automaton
  import opened Lookaheads
  import opened Actions
  import opened Compress
  import opened Tables

  // The generator's result: automaton, lookaheads, resolved action lists, tables.
  datatype Output = Output(a: Auto, f: Follow, lists: seq<seq<Action>>, t: Tables)

  // The tables of state i are those of its compressed action list.
  ghost predicate Tabulated(g: Grammar, t: Tables, i: nat, acts: seq<Action>, out: seq<Action>, best: Option<nat>)
    requires t.Shaped(|t.dflt|) && i < |t.dflt|
  {
    CompressedInto(g, acts, out, best) && ReportedState(g, t, i, out)
  }

  ghost predicate GeneratedState(g: Grammar, o: Output, i: nat)
    requires o.t.Shaped(|o.t.dflt|) && i < |o.t.dflt| == |o.lists|
  {
    && ActionsFound(g, o.a, o.f, i, o.lists[i]) && ConflictsResolved(g, o.a, o.f, i, o.lists[i])
    && exists out: seq<Action>, best: Option<nat> :: Tabulated(g, o.t, i, o.lists[i], out, best)
  }

  ghost predicate Generated(g: Grammar, info: FirstInfo, o: Output) {
    && g.Valid() && Exact(g, info) && Finished(g, info, o.a) && FollowsOf(o.a, o.f)
    && |o.lists| == |o.a.states| && o.t.Shaped(|o.lists|)
    && forall i :: 0 <= i < |o.lists| ==> GeneratedState(g, o, i)
  }

  // The driver's lookup: shift table on terminals, reduce table on nonterminals.
  function Value(g: Grammar, t: Tables, s: nat, x: Symbol): int
    requires t.Shaped(|t.dflt|) && s < |t.dflt|
  {
    if x < g.nterminal then FindShiftAction(g, t, s, x) else FindReduceAction(g, t, s, x)
  }

  // ---- start rules are reduced only at the end of the input ----

  ghost function Restricted(g: Grammar, f: Follow): Follow {
    map c | c in f :: if StartItem(g, c.item) then f[c] * {0} else f[c]
  }

  lemma RestrictedSolution(g: Grammar, info: FirstInfo, a: Auto, f: Follow)
    requires g.Valid() && Shaped(g, info) && GoodAuto(g, info, a) && FollowSolution(a, f)
    ensures FollowSolution(a, Restricted(g, f))
  {
    var r := Restricted(g, f);
    forall c | IsConfig(a.states, c) && c.item in a.states[c.state].c.fws
      ensures a.states[c.state].c.fws[c.item] <= r[c]
    {
      assert GoodState(g, info, c.state, a.states[c.state]);
    }
    forall c, d | IsConfig(a.states, c) && IsConfig(a.states, d) && Flows(a, c, d)
      ensures r[c] <= r[d]
    {
      assert f[c] <= f[d];
      FlowsFromStart(g, info, a, c, d);
    }
  }

  // Follow information reaches a start item only from the same rule.
  lemma FlowsFromStart(g: Grammar, info: FirstInfo, a: Auto, c: Cfg, d: Cfg)
    requires g.Valid() && Shaped(g, info) && GoodAuto(g, info, a) && Flows(a, c, d)
    ensures StartItem(g, d.item) ==> StartItem(g, c.item)
  {
    if ClosureLink(a.states, c, d) {
      assert GoodState(g, info, c.state, a.states[c.state]);
      PredictedNotStart(g, c.item, d.item);
    } else {
      assert d.item == Next(c.item);
    }
  }

  lemma StartFollows(g: Grammar, info: FirstInfo, a: Auto, f: Follow, c: Cfg)
    requires g.Valid() && Shaped(g, info) && GoodAuto(g, info, a) && FollowsOf(a, f)
    requires IsConfig(a.states, c) && StartItem(g, c.item)
    ensures f[c] <= {0}
  {
    RestrictedSolution(g, info, a, f);
    assert FollowBelow(a, f, Restricted(g, f));
  }

  lemma StartReduce(g: Grammar, info: FirstInfo, a: Auto, f: Follow, i: nat, act: Action)
    requires g.Valid() && Shaped(g, info) && GoodAuto(g, info, a) && FollowsOf(a, f)
    requires ReduceAction(g, a, f, i, act) && g.rules[act.arg].lhs == g.start
    ensures act.sp == 0
  {
    StartFollows(g, info, a, f, Cfg(i, Item(act.arg, |g.rules[act.arg].rhs|)));
  }

  // So it never becomes the default reduce, which needs two occurrences.
  lemma {:induction false} TwoReduces(s: seq<Action>, r: nat, i: nat) returns (k: nat, l: nat)
    requires i <= |s| && CountFrom(s, r, i) >= 2
    ensures i <= k < l < |s| && ReducesBy(s[k], r) && ReducesBy(s[l], r)
    decreases |s| - i
  {
    if ReducesBy(s[i], r) {
      k := i;
      l := CountedOccurs(s, r, i + 1);
    } else {
      k, l := TwoReduces(s, r, i + 1);
    }
  }

  // ---- the decision in state s on symbol x ----

  predicate CompleteIn(g: Grammar, a: Auto, s: nat, r: nat) {
    s < |a.states| && r < |g.rules| && Item(r, |g.rules[r].rhs|) in a.states[s].c.items
  }

  // What the value v means for the driver.
  ghost predicate Means(g: Grammar, a: Auto, s: nat, x: Symbol, v: int)
    requires s < |a.states|
  {
    var n := |a.states|;
    && 0 <= v <= n + |g.rules| + 1
    && (v < n ==> GoodShift(g, a, s, Action(x, SHIFT, v)))
    && (n <= v < n + |g.rules| ==>
      CompleteIn(g, a, s, v - n) && (g.rules[v - n].lhs == g.start && x < g.nterminal ==> x == 0))
    && (v == n + |g.rules| + 1 ==> s == 0 && x == g.start)
  }

  lemma RawShift(g: Grammar, info: FirstInfo, a: Auto, s: nat, act: Action)
    requires g.Valid() && Shaped(g, info) && Finished(g, info, a) && s < |a.states| && act in a.states[s].ap
    ensures act.typ == SHIFT && act.arg < |a.states| && GoodShift(g, a, s, Action(act.sp, SHIFT, act.arg))
  {
    var k :| 0 <= k < |a.states[s].ap| && a.states[s].ap[k] == act;
    assert Complete(g, a, s);
    assert GoodShift(g, a, s, act);
    assert act == Action(act.sp, SHIFT, act.arg);
  }

  // A candidate means a step, given what is known of shifts and start rules.
  lemma CandidateMeans(g: Grammar, a: Auto, f: Follow, s: nat, act: Action)
    requires Raw(g, a, f, s, act)
    requires act in a.states[s].ap ==>
      act.typ == SHIFT && act.arg < |a.states| && GoodShift(g, a, s, Action(act.sp, SHIFT, act.arg))
    requires ReduceAction(g, a, f, s, act) && g.rules[act.arg].lhs == g.start ==> act.sp == 0
    ensures Means(g, a, s, act.sp, Code(g, |a.states|, act))
  {
  }

  lemma RawMeans(g: Grammar, info: FirstInfo, a: Auto, f: Follow, s: nat, act: Action)
    requires g.Valid() && Shaped(g, info) && Finished(g, info, a) && FollowsOf(a, f) && Raw(g, a, f, s, act)
    ensures Means(g, a, s, act.sp, Code(g, |a.states|, act))
  {
    if act in a.states[s].ap {
      RawShift(g, info, a, s, act);
    }
    if ReduceAction(g, a, f, s, act) && g.rules[act.arg].lhs == g.start {
      StartReduce(g, info, a, f, s, act);
    }
    CandidateMeans(g, a, f, s, act);
  }

  // The default reduce is by a complete item of the state that is not a start rule.
  lemma DefaultMeans(g: Grammar, info: FirstInfo, a: Auto, f: Follow, s: nat, acts: seq<Action>, r: nat)
    requires g.Valid() && Shaped(g, info) && Finished(g, info, a) && FollowsOf(a, f) && s < |a.states|
    requires ActionsFound(g, a, f, s, acts) && CountFrom(acts, r, 0) >= 2
    ensures CompleteIn(g, a, s, r) && g.rules[r].lhs != g.start
  {
    var k, l := TwoReduces(acts, r, 0);
    ReduceRaw(g, info, a, f, s, acts, k);
    ReduceRaw(g, info, a, f, s, acts, l);
    if g.rules[r].lhs == g.start {
      StartReduce(g, info, a, f, s, acts[k]);
      StartReduce(g, info, a, f, s, acts[l]);
    }
  }

  lemma ReduceRaw(g: Grammar, info: FirstInfo, a: Auto, f: Follow, s: nat, acts: seq<Action>, k: nat)
    requires g.Valid() && Shaped(g, info) && Finished(g, info, a) && s < |a.states|
    requires ActionsFound(g, a, f, s, acts) && k < |acts| && acts[k].typ == REDUCE
    ensures ReduceAction(g, a, f, s, acts[k])
  {
    assert acts[k] in acts;
    if acts[k] in a.states[s].ap {
      ShiftMember(g, info, a, s, acts[k]);
    }
  }

  // The value is that of a living action, or of the default or an error.
  lemma ValueMeans(g: Grammar, a: Auto, s: nat, acts: seq<Action>, best: Option<nat>, x: Symbol, v: int)
    requires s < |a.states|
    requires Tells(g, |a.states|, acts, x,
                   if best.Some? then |a.states| + best.value else ErrorAction(g, |a.states|), v)
    requires forall act :: Acts(acts, x, act) ==> Means(g, a, s, x, Code(g, |a.states|, act))
    requires best.Some? ==> CompleteIn(g, a, s, best.value) && g.rules[best.value].lhs != g.start
    ensures Means(g, a, s, x, v)
  {
    if act :| Acts(acts, x, act) {
      assert v == Code(g, |a.states|, act);
    } else {
      forall act | act in acts && Alive(act)
        ensures act.sp != x
      {
        assert !Acts(acts, x, act);
      }
    }
  }

  lemma FoundMeans(g: Grammar, info: FirstInfo, a: Auto, f: Follow, s: nat, acts: seq<Action>, best: Option<nat>,
                   out: seq<Action>, x: Symbol, v: int)
    requires g.Valid() && Shaped(g, info) && Finished(g, info, a) && FollowsOf(a, f) && s < |a.states|
    requires ActionsFound(g, a, f, s, acts) && CompressedInto(g, acts, out, best)
    requires Tells(g, |a.states|, acts, x,
                   if best.Some? then |a.states| + best.value else ErrorAction(g, |a.states|), v)
    ensures Means(g, a, s, x, v)
  {
    forall act | Acts(acts, x, act)
      ensures Means(g, a, s, x, Code(g, |a.states|, act))
    {
      RawMeans(g, info, a, f, s, act);
    }
    if best.Some? {
      DefaultMeans(g, info, a, f, s, acts, best.value);
    }
    ValueMeans(g, a, s, acts, best, x, v);
  }

  // The main lemma: every lookup means a step of the automaton, and finds the only
  // candidate action of its symbol.
  lemma Decision(g: Grammar, info: FirstInfo, o: Output, s: nat, x: Symbol)
    requires Generated(g, info, o) && s < |o.a.states| && x < g.nsymbol
    ensures Means(g, o.a, s, x, Value(g, o.t, s, x))
    ensures forall act ::
      Uncontested(g, o.a, o.f, s, act) && act.sp == x ==> Value(g, o.t, s, x) == Code(g, |o.a.states|, act)
  {
    var acts, v := o.lists[s], Value(g, o.t, s, x);
    assert GeneratedState(g, o, s);
    var out: seq<Action>, best: Option<nat> :| Tabulated(g, o.t, s, acts, out, best);
    TablesPreserve(g, o.t, s, acts, out, best, x);
    FoundMeans(g, info, o.a, o.f, s, acts, best, out, x, v);
    forall act | Uncontested(g, o.a, o.f, s, act) && act.sp == x
      ensures v == Code(g, |o.a.states|, act)
    {
      assert Acts(acts, x, act);
    }
  }

  // What is in a table is the code of every living action of the list.
  lemma Tabled(g: Grammar, info: FirstInfo, o: Output, s: nat, act: Action)
    requires Generated(g, info, o) && s < |o.a.states| && act in o.lists[s] && Alive(act)
    ensures act.sp < g.nsymbol && Raw(g, o.a, o.f, s, act) && Value(g, o.t, s, act.sp) == Code(g, |o.a.states|, act)
  {
    hide Means, ConflictsResolved, Raw, Finished, FollowsOf, Exact;
    var acts := o.lists[s];
    assert GeneratedState(g, o, s);
    var out: seq<Action>, best: Option<nat> :| Tabulated(g, o.t, s, acts, out, best);
    TablesPreserve(g, o.t, s, acts, out, best, act.sp);
    assert Acts(acts, act.sp, act);
  }

  // What the table says on a symbol with candidates is the code of their champion.
  lemma ChampionDecides(g: Grammar, info: FirstInfo, o: Output, s: nat, x: Symbol, cs: seq<Action>)
    requires Generated(g, info, o) && s < |o.a.states| && Candidates(g, o.a, o.f, s, x, cs)
    ensures cs != [] && x < g.nsymbol && Value(g, o.t, s, x) == Code(g, |o.a.states|, cs[Champion(g, cs, 0, |cs|)])
  {
    hide Raw, Finished, FollowsOf, Exact, ActionsFound, Champion;
    assert GeneratedState(g, o, s);
    assert ChampionTaken(g, o.lists[s], cs);
    var c := cs[Champion(g, cs, 0, |cs|)];
    assert c in cs;
    Tabled(g, info, o, s, c);
  }

  lemma CandidatesContend(g: Grammar, info: FirstInfo, a: Auto, f: Follow, s: nat, x: Symbol, cs: seq<Action>)
    requires g.Valid() && Shaped(g, info) && Finished(g, info, a) && Candidates(g, a, f, s, x, cs)
    ensures Contenders(g, cs)
  {
    hide Raw, Finished;
    assert cs[0] in cs;
    RawAlive(g, info, a, f, s, cs[0]);
    forall k | 1 <= k < |cs|
      ensures cs[k].sp == cs[0].sp && cs[k].typ == REDUCE && (cs[0].typ == SHIFT || cs[0].typ == REDUCE)
    {
      assert cs[k] in cs && ActionCmp(cs[0], cs[k]) < 0;
      RawAlive(g, info, a, f, s, cs[k]);
      RawPair(g, info, a, f, s, cs[0], cs[k]);
    }
    assert |cs| > 1 ==> cs[1].typ == REDUCE;
  }

  // z is taken instead of y: its rule has a precedence symbol, of higher precedence than the
  // token of a shift, or of the same one if that is left-associative, or of higher
  // precedence than the symbol of the other rule.
  ghost predicate Preferred(g: Grammar, y: Action, z: Action)
    requires g.Valid() && y.sp < g.nsymbol
  {
    && z.typ == REDUCE && z.arg < |g.rules| && g.rules[z.arg].precsym.Some?
    && var p := g.prec[g.rules[z.arg].precsym.value];
       if y.typ == SHIFT then
         0 <= g.prec[y.sp] && (g.prec[y.sp] < p || (g.prec[y.sp] == p && g.assoc[y.sp] == Left))
       else
         y.arg < |g.rules| && g.rules[y.arg].precsym.Some? && 0 <= g.prec[g.rules[y.arg].precsym.value] < p
  }

  lemma BeatsPreferred(g: Grammar, y: Action, z: Action)
    requires g.Valid() && y.sp == z.sp < g.nsymbol && z.typ == REDUCE && z.arg < |g.rules|
    requires y.typ == SHIFT || (y.typ == REDUCE && y.arg < |g.rules|)
    ensures Beats(g, y, z) <==> Preferred(g, y, z)
  {
    if y.typ == SHIFT {
      ShiftOrReduce(g, y, z);
    } else {
      ReduceOrReduce(g, y, z);
    }
  }

  // Contenders are a shift or reduces by rules of the grammar.
  lemma CandidateRules(g: Grammar, info: FirstInfo, a: Auto, f: Follow, s: nat, x: Symbol, cs: seq<Action>, k: nat)
    requires g.Valid() && Shaped(g, info) && Finished(g, info, a) && Candidates(g, a, f, s, x, cs) && k < |cs|
    ensures cs[k].typ == REDUCE ==> cs[k].arg < |g.rules|
  {
    assert cs[k] in cs;
    if cs[k] in a.states[s].ap {
      ShiftMember(g, info, a, s, cs[k]);
    }
  }

  // c is the first action, if none is preferred to it; otherwise, of the actions preferred to
  // the first one, the earliest that no other is preferred to.
  ghost predicate Winner(g: Grammar, cs: seq<Action>, c: nat)
    requires g.Valid() && forall k :: 0 <= k < |cs| ==> cs[k].sp < g.nsymbol
  {
    && c < |cs|
    && (c == 0 ==> forall k :: 1 <= k < |cs| ==> !Preferred(g, cs[0], cs[k]))
    && (c > 0 ==> Preferred(g, cs[0], cs[c]) && forall k :: 1 <= k < |cs| && Preferred(g, cs[0], cs[k]) ==>
          !Preferred(g, cs[c], cs[k]) && (k < c ==> Preferred(g, cs[k], cs[c])))
  }

  lemma WinsWinner(g: Grammar, cs: seq<Action>, c: nat)
    requires g.Valid() && Contenders(g, cs) && Wins(g, cs, |cs|, c)
    requires forall k :: 0 <= k < |cs| && cs[k].typ == REDUCE ==> cs[k].arg < |g.rules|
    ensures (forall k :: 0 <= k < |cs| ==> cs[k].sp < g.nsymbol) && Winner(g, cs, c)
  {
    hide Beats;
    forall k | 1 <= k < |cs|
      ensures Beats(g, cs[0], cs[k]) <==> Preferred(g, cs[0], cs[k])
    {
      BeatsPreferred(g, cs[0], cs[k]);
    }
    if c > 0 {
      forall k | 1 <= k < |cs| && Preferred(g, cs[0], cs[k])
        ensures !Preferred(g, cs[c], cs[k]) && (k < c ==> Preferred(g, cs[k], cs[c]))
      {
        assert Beats(g, cs[0], cs[k]);
      }
    }
  }

  // However many candidates there are, precedence and associativity decide.
  lemma PrecedenceDecides(g: Grammar, info: FirstInfo, o: Output, s: nat, x: Symbol, cs: seq<Action>) returns (c: nat)
    requires Generated(g, info, o) && s < |o.a.states| && Candidates(g, o.a, o.f, s, x, cs)
    ensures (forall k :: 0 <= k < |cs| ==> cs[k].sp < g.nsymbol) && Winner(g, cs, c)
    ensures Value(g, o.t, s, x) == Code(g, |o.a.states|, cs[c])
  {
    ChampionDecides(g, info, o, s, x, cs);
    CandidatesContend(g, info, o.a, o.f, s, x, cs);
    ChampionWins(g, cs, |cs|);
    c := Champion(g, cs, 0, |cs|);
    forall k: nat | k < |cs| && cs[k].typ == REDUCE
      ensures cs[k].arg < |g.rules|
    {
      CandidateRules(g, info, o.a, o.f, s, x, cs, k);
    }
    hide Generated, Candidates, Contenders, Wins, Champion;
    WinsWinner(g, cs, c);
  }

  // Every symbol with a candidate has such a list.
  lemma CandidatesExist(g: Grammar, info: FirstInfo, o: Output, s: nat, z: Action) returns (cs: seq<Action>)
    requires Generated(g, info, o) && s < |o.a.states| && Raw(g, o.a, o.f, s, z)
    ensures Candidates(g, o.a, o.f, s, z.sp, cs)
  {
    hide Raw, Finished, FollowsOf, Exact, ActionsFound, Candidates;
    assert GeneratedState(g, o, s);
    assert HasCandidates(g, o.a, o.f, s, z.sp);
    cs :| Candidates(g, o.a, o.f, s, z.sp, cs);
  }

  // ---- what that means for the operators of a grammar ----

  // The candidates on symbol x are just these two.
  ghost predicate OnlyTwo(g: Grammar, o: Output, s: nat, x: Symbol, y: Action, z: Action) {
    forall act :: Raw(g, o.a, o.f, s, act) && act.sp == x <==> act == y || act == z
  }

  lemma TwoCandidates(g: Grammar, info: FirstInfo, o: Output, s: nat, x: Symbol, y: Action, z: Action)
    returns (c: nat)
    requires Generated(g, info, o) && s < |o.a.states| && OnlyTwo(g, o, s, x, y, z) && ActionCmp(y, z) < 0
    ensures c < 2 && y.sp == z.sp == x < g.nsymbol && (c == 1 <==> Preferred(g, y, z))
    ensures Value(g, o.t, s, x) == Code(g, |o.a.states|, if c == 0 then y else z)
    ensures z.typ == REDUCE ==> z.arg < |g.rules|
    ensures y.typ == REDUCE ==> y.arg < |g.rules|
  {
    var cs := [y, z];
    assert Candidates(g, o.a, o.f, s, x, cs) by {
      hide Raw;
    }
    CandidateRules(g, info, o.a, o.f, s, x, cs, 0);
    CandidateRules(g, info, o.a, o.f, s, x, cs, 1);
    c := PrecedenceDecides(g, info, o, s, x, cs);
    hide Generated, Raw, Preferred;
    assert cs[0] == y && cs[1] == z && y in cs && z in cs;
  }

  // An operator p between two operands: the parser reduces by the rule in front of p if and only
  // if the precedence symbol of the rule binds tighter than p, or as tight and p is
  // left-associative; otherwise it shifts p.
  lemma OperatorDecides(g: Grammar, info: FirstInfo, o: Output, s: nat, p: Symbol, t: nat, r: nat)
    requires Generated(g, info, o) && s < |o.a.states|
    requires OnlyTwo(g, o, s, p, Action(p, SHIFT, t), Action(p, REDUCE, r))
    ensures p < g.nsymbol && r < |g.rules|
    ensures var sym, v := g.rules[r].precsym, Value(g, o.t, s, p);
            && (sym == None ==> v == t)
            && (sym.Some? ==>
                  var rule, token := g.prec[sym.value], g.prec[p];
                  v == if 0 <= token < rule || (0 <= token == rule && g.assoc[p] == Left)
                       then |o.a.states| + r else t)
  {
    hide Generated, OnlyTwo;
    var c := TwoCandidates(g, info, o, s, p, Action(p, SHIFT, t), Action(p, REDUCE, r));
  }

  // Between two rules the second one is taken if and only if the precedence symbols of both
  // have precedence and its own the higher one.
  lemma RulesDecide(g: Grammar, info: FirstInfo, o: Output, s: nat, x: Symbol, r1: nat, r2: nat)
    requires Generated(g, info, o) && s < |o.a.states| && r1 < r2
    requires OnlyTwo(g, o, s, x, Action(x, REDUCE, r1), Action(x, REDUCE, r2))
    ensures r2 < |g.rules|
    ensures var first, second, v := g.rules[r1].precsym, g.rules[r2].precsym, Value(g, o.t, s, x);
            && (first == None || second == None ==> v == |o.a.states| + r1)
            && (first.Some? && second.Some? ==>
                  v == |o.a.states| + if 0 <= g.prec[first.value] < g.prec[second.value] then r2 else r1)
  {
    hide Generated, OnlyTwo;
    var c := TwoCandidates(g, info, o, s, x, Action(x, REDUCE, r1), Action(x, REDUCE, r2));
  }

  // Without precedence symbols the shift is taken, or else the rule that stands first in the
  // grammar.
  lemma FirstRuleWins(g: Grammar, info: FirstInfo, o: Output, s: nat, z: Action)
    requires Generated(g, info, o) && s < |o.a.states| && Raw(g, o.a, o.f, s, z)
    requires forall r: nat ::
      r < |g.rules| && Raw(g, o.a, o.f, s, Action(z.sp, REDUCE, r)) ==> g.rules[r].precsym == None
    requires z.typ == SHIFT || forall y :: Raw(g, o.a, o.f, s, y) && y.sp == z.sp ==> y.typ == REDUCE && z.arg <= y.arg
    ensures Value(g, o.t, s, z.sp) == if z.typ == SHIFT then z.arg else |o.a.states| + z.arg
  {
    var cs := CandidatesExist(g, info, o, s, z);
    CandidatesContend(g, info, o.a, o.f, s, z.sp, cs);
    forall k | 1 <= k < |cs|
      ensures cs[k] in cs && cs[k] == Action(z.sp, REDUCE, cs[k].arg)
    {
      assert cs[k] in cs;
    }
    var c := PrecedenceDecides(g, info, o, s, z.sp, cs);
    hide Generated, Raw, Finished;
    assert z in cs && cs[0] in cs;
    var k :| 0 <= k < |cs| && cs[k] == z;
    assert k > 0 ==> ActionCmp(cs[0], z) < 0;
    assert cs[0] == z;
  }

  // Two candidates on a symbol go unreported if and only if both have precedence and it decides:
  // a shift and a reduce of the same precedence by a declared associativity, two rules by
  // different precedences.
  lemma WhenReported(g: Grammar, y: Action, z: Action)
    requires g.Valid() && y.sp == z.sp < g.nsymbol && z.typ == REDUCE && z.arg < |g.rules|
    requires y.typ == SHIFT || (y.typ == REDUCE && y.arg < |g.rules|)
    ensures Undisputed(g, [y, z], 0, 2) <==>
            && g.rules[z.arg].precsym.Some?
            && var second := g.prec[g.rules[z.arg].precsym.value];
               && 0 <= second
               && if y.typ == SHIFT then
                    0 <= g.prec[y.sp] && (g.prec[y.sp] != second || g.assoc[y.sp] == Left || g.assoc[y.sp] == Right)
                  else
                    && g.rules[y.arg].precsym.Some?
                    && 0 <= g.prec[g.rules[y.arg].precsym.value] != second
  {
    if y.typ == SHIFT {
      ShiftOrReduce(g, y, z);
    } else {
      ReduceOrReduce(g, y, z);
    }
    var cs := [y, z];
    assert Champion(g, cs, 0, 1) == 0;
    hide ResolveConflict, Champion;
    assert Undisputed(g, cs, 0, 2) <==> !Disputed(g, cs[0], cs[1]);
  }
}
