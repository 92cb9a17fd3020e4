// Completeness of generator plus driver for grammars without LALR(1) conflicts: the
// parser returns exactly the given parse tree of a sentence, if and only if its
// stack is deep enough. So such a grammar is unambiguous.

module Completeness {
  import opened Grammars
  import opened FirstSets
  import opened States
  import opened Automaton
  import opened Lookaheads
  import opened Actions
  import opened Tables
  import opened Decisions
  import opened Driver
  import opened Soundness
  import opened Texts

  predicate Symbols(g: Grammar, a: Form) {
    forall k :: 0 <= k < |a| ==> a[k] < g.nsymbol
  }

  // ---- FIRST and nullability of what a forest yields ----

  lemma LeafOfWord(g: Grammar, t: Tree, s: Symbol)
    requires TreeOf(g, t, s) && Words(g, Yield(t)) && g.Valid()
    ensures t.Leaf? ==> 1 <= s < g.nterminal
    ensures t.Node? ==> g.nterminal <= s < g.nsymbol
  {
    if t.Leaf? {
      assert Yield(t)[0] == s;
    } else {
      assert g.ValidRule(g.rules[t.rule]);
    }
  }

  // The first token of a forest is in FIRST of its symbols.
  lemma {:induction false} ForestFirst(g: Grammar, info: FirstInfo, ts: seq<Tree>, a: Form)
    requires g.Valid() && Exact(g, info) && ForestOf(g, ts, a) && Words(g, YieldAll(ts))
    requires Symbols(g, a)
    ensures YieldAll(ts) == [] ==> NullSeq(g, info, a)
    ensures YieldAll(ts) != [] ==> YieldAll(ts)[0] in FirstSeq(g, info, a)
  {
    if ts != [] {
      var u, v := Yield(ts[0]), YieldAll(ts[1..]);
      assert TreeOf(g, ts[0], a[0]);
      WordsSplit(g, u, v);
      LeafOfWord(g, ts[0], a[0]);
      TreeDerives(g, ts[0], a[0]);
      ForestFirst(g, info, ts[1..], a[1..]);
      if u == [] {
        assert Nullable(g, [a[0]]) && Skips(g, info, a[0]);
        assert u + v == v;
        NullSeqCons(g, info, a);
      } else {
        FirstToken(g, info, a[0], u);
      }
    }
  }

  lemma WordsSplit(g: Grammar, u: Form, v: Form)
    requires Words(g, u + v)
    ensures Words(g, u) && Words(g, v)
  {
    assert forall k :: 0 <= k < |u| ==> u[k] == (u + v)[k];
    assert forall k :: 0 <= k < |v| ==> v[k] == (u + v)[|u| + k];
  }

  lemma NullSeqCons(g: Grammar, info: FirstInfo, a: Form)
    requires a != [] && Skips(g, info, a[0])
    ensures NullSeq(g, info, a[1..]) ==> NullSeq(g, info, a)
  {
  }

  lemma FirstToken(g: Grammar, info: FirstInfo, s: Symbol, u: Form)
    requires g.Valid() && Exact(g, info) && s < g.nsymbol && u != [] && u[0] < g.nterminal && Derives(g, [s], u)
    requires s < g.nterminal ==> u == [s]
    ensures u[0] in FirstOf(g, info.first, s)
  {
    if s >= g.nterminal {
      assert u == [u[0]] + u[1..];
      assert Begins(g, [s], u[0]);
      var k := s - g.nterminal;
      assert g.nterminal + k == s;
    }
  }

  // ---- what the tables offer without conflicts ----

  ghost predicate AllConflictFree(g: Grammar, a: Auto, f: Follow) {
    forall i :: 0 <= i < |a.states| ==> ConflictFree(g, a, f, i)
  }

  // All configurations have their follow sets.
  ghost predicate Covered(a: Auto, f: Follow) {
    forall s: nat, it :: s < |a.states| && it in a.states[s].c.items ==> Cfg(s, it) in f
  }

  // The shift on the symbol at the dot of p is in the tables, and the follow set of p
  // goes along with it.
  ghost predicate ShiftFound(g: Grammar, a: Auto, f: Follow, t: Tables, s: nat, p: Item)
    requires t.Shaped(|t.dflt|) && |a.states| == |t.dflt| && s < |a.states| && ReadyDot(g, p) && Covered(a, f)
      && p in a.states[s].c.items
  {
    var x := g.rules[p.rule].rhs[p.dot];
    var v := Value(g, t, s, x);
    && 0 <= v < |a.states| && GoodShift(g, a, s, Action(x, SHIFT, v))
    && Next(p) in a.states[v].c.items && f[Cfg(s, p)] <= f[Cfg(v, Next(p))]
  }

  ghost predicate ShiftsFound(g: Grammar, a: Auto, f: Follow, t: Tables)
    requires t.Shaped(|t.dflt|) && |a.states| == |t.dflt| && Covered(a, f)
  {
    forall s: nat, p :: s < |a.states| && p in a.states[s].c.items && ReadyDot(g, p) ==> ShiftFound(g, a, f, t, s, p)
  }

  // The terminal la may come after the symbol at the dot of p.
  ghost predicate ComesAfter(g: Grammar, info: FirstInfo, f: Follow, s: nat, p: Item, la: Symbol)
    requires Shaped(g, info) && ReadyDot(g, p) && Cfg(s, p) in f && Symbols(g, Rest(g, p))
  {
    la in FirstSeq(g, info, Rest(g, p)) || (NullSeq(g, info, Rest(g, p)) && la in f[Cfg(s, p)])
  }

  // A predicted item is in the state, with all that comes after the symbol it expands.
  ghost predicate PredictionFound(g: Grammar, info: FirstInfo, a: Auto, f: Follow, s: nat, p: Item, d: Item)
    requires g.Valid() && Shaped(g, info) && s < |a.states| && Predicts(g, p, d) && Covered(a, f)
      && p in a.states[s].c.items
    requires Symbols(g, Rest(g, p))
  {
    && d in a.states[s].c.items
    && FirstSeq(g, info, Rest(g, p)) <= f[Cfg(s, d)]
    && (NullSeq(g, info, Rest(g, p)) ==> f[Cfg(s, p)] <= f[Cfg(s, d)])
  }

  lemma RestSymbols(g: Grammar, p: Item)
    requires g.Valid() && ReadyDot(g, p)
    ensures Symbols(g, Rest(g, p))
  {
    assert g.ValidRule(g.rules[p.rule]);
  }

  ghost predicate ReducesFound(g: Grammar, a: Auto, f: Follow, t: Tables)
    requires t.Shaped(|t.dflt|) && |a.states| == |t.dflt| && Covered(a, f)
  {
    forall s: nat, r: nat, la: Symbol ::
      CompleteIn(g, a, s, r) && la < g.nterminal && la in f[Cfg(s, Item(r, |g.rules[r].rhs|))] ==>
      Value(g, t, s, la) == |a.states| + r
  }

  ghost predicate StartsFound(g: Grammar, a: Auto, f: Follow)
    requires Covered(a, f) && |a.states| > 0
  {
    forall r :: 0 <= r < |g.rules| && g.rules[r].lhs == g.start ==>
      Item(r, 0) in a.states[0].c.items && 0 in f[Cfg(0, Item(r, 0))]
  }

  lemma AutoCovered(a: Auto, f: Follow)
    requires FollowsOf(a, f)
    ensures Covered(a, f)
  {
    forall s: nat, it | s < |a.states| && it in a.states[s].c.items
      ensures Cfg(s, it) in f
    {
      assert IsConfig(a.states, Cfg(s, it));
    }
  }

  // With no conflict every candidate is what the lookup finds.
  lemma RawFound(g: Grammar, info: FirstInfo, o: Output, s: nat, act: Action)
    requires Generated(g, info, o) && Raw(g, o.a, o.f, s, act) && ConflictFree(g, o.a, o.f, s)
    ensures act.sp < g.nsymbol && Value(g, o.t, s, act.sp) == Code(g, |o.a.states|, act)
  {
    hide GeneratedState, GoodAuto, Complete, FollowsOf;
    RawAlive(g, info, o.a, o.f, s, act);
    assert Uncontested(g, o.a, o.f, s, act);
    Decision(g, info, o, s, act.sp);
  }

  // The shift of the automaton on the symbol at a dot.
  lemma ShiftOf(g: Grammar, info: FirstInfo, a: Auto, s: nat, p: Item) returns (act: Action)
    requires g.Valid() && Shaped(g, info) && Finished(g, info, a) && s < |a.states| && p in a.states[s].c.items
      && ReadyDot(g, p)
    ensures act in a.states[s].ap && act.typ == SHIFT && act.arg < |a.states| && act.sp == g.rules[p.rule].rhs[p.dot]
    ensures GoodShift(g, a, s, act) && Next(p) in a.states[act.arg].c.items
  {
    var x := g.rules[p.rule].rhs[p.dot];
    assert Complete(g, a, s) && AtDot(g, p, x);
    assert HasShift(a.states[s].ap, x);
    var k :| 0 <= k < |a.states[s].ap| && a.states[s].ap[k].sp == x;
    act := a.states[s].ap[k];
    RawShift(g, info, a, s, act);
    AutoBasisListed(g, info, a);
    assert Prev(Next(p)) == p;
    assert Next(p) in a.states[act.arg].basis;
  }

  lemma FollowShift(g: Grammar, a: Auto, f: Follow, s: nat, p: Item, act: Action)
    requires FollowsOf(a, f) && Covered(a, f) && s < |a.states| && p in a.states[s].c.items && GoodShift(g, a, s, act)
      && AtDot(g, p, act.sp)
    requires Next(p) in a.states[act.arg].c.items
    ensures f[Cfg(s, p)] <= f[Cfg(act.arg, Next(p))]
  {
    assert Linked(a.bplp, Cfg(act.arg, Next(p)), Cfg(s, p));
    assert Flows(a, Cfg(s, p), Cfg(act.arg, Next(p)));
    assert IsConfig(a.states, Cfg(s, p)) && IsConfig(a.states, Cfg(act.arg, Next(p)));
  }

  lemma ShiftIsFound(g: Grammar, info: FirstInfo, o: Output, s: nat, p: Item)
    requires Generated(g, info, o) && Covered(o.a, o.f) && s < |o.a.states| && ConflictFree(g, o.a, o.f, s)
    requires p in o.a.states[s].c.items && ReadyDot(g, p)
    ensures ShiftFound(g, o.a, o.f, o.t, s, p)
  {
    hide ConflictFree, GeneratedState, GoodAuto, Complete, FollowsOf, GoodShift;
    var act := ShiftOf(g, info, o.a, s, p);
    FollowShift(g, o.a, o.f, s, p, act);
    RawFound(g, info, o, s, act);
    assert act == Action(act.sp, SHIFT, act.arg);
  }

  lemma FollowInitial(a: Auto, f: Follow, s: nat, it: Item)
    requires FollowsOf(a, f) && s < |a.states| && it in a.states[s].c.items && it in a.states[s].c.fws
    ensures Cfg(s, it) in f && a.states[s].c.fws[it] <= f[Cfg(s, it)]
  {
    assert IsConfig(a.states, Cfg(s, it));
  }

  lemma FollowClosure(a: Auto, f: Follow, s: nat, p: Item, d: Item)
    requires FollowsOf(a, f) && s < |a.states| && p in a.states[s].c.items && d in a.states[s].c.items
    requires p in a.states[s].c.fplp && d in a.states[s].c.fplp[p]
    ensures Cfg(s, p) in f && Cfg(s, d) in f && f[Cfg(s, p)] <= f[Cfg(s, d)]
  {
    assert IsConfig(a.states, Cfg(s, p)) && IsConfig(a.states, Cfg(s, d));
    assert ClosureLink(a.states, Cfg(s, p), Cfg(s, d));
    assert Flows(a, Cfg(s, p), Cfg(s, d));
  }

  lemma StateExpanded(g: Grammar, info: FirstInfo, a: Auto, s: nat, p: Item, d: Item)
    requires g.Valid() && Shaped(g, info) && GoodAuto(g, info, a)
    requires s < |a.states| && p in a.states[s].c.items && Predicts(g, p, d)
    ensures Shape(g, a.states[s].c) && Expanded(g, info, a.states[s].c, p, d)
  {
    hide FirstSeq, NullSeq;
    assert GoodState(g, info, s, a.states[s]);
    assert ExpandedAll(g, info, a.states[s].c, p);
  }

  lemma PredictionIsFound(g: Grammar, info: FirstInfo, a: Auto, f: Follow, s: nat, p: Item, d: Item)
    requires g.Valid() && Exact(g, info) && GoodAuto(g, info, a) && FollowsOf(a, f) && Covered(a, f)
    requires s < |a.states| && p in a.states[s].c.items && Predicts(g, p, d)
    requires Symbols(g, Rest(g, p))
    ensures PredictionFound(g, info, a, f, s, p, d)
  {
    hide FirstSeq, NullSeq, FollowsOf, GoodAuto, GrownItems, GrownSets, GrownLinks;
    StateExpanded(g, info, a, s, p, d);
    FollowInitial(a, f, s, d);
    if NullSeq(g, info, Rest(g, p)) {
      FollowClosure(a, f, s, p, d);
    }
  }

  lemma ReduceIsFound(g: Grammar, info: FirstInfo, o: Output, s: nat, r: nat, la: Symbol)
    requires Generated(g, info, o) && Covered(o.a, o.f) && s < |o.a.states| && ConflictFree(g, o.a, o.f, s)
    requires CompleteIn(g, o.a, s, r) && la < g.nterminal && la in o.f[Cfg(s, Item(r, |g.rules[r].rhs|))]
    ensures Value(g, o.t, s, la) == |o.a.states| + r
  {
    hide ConflictFree, GeneratedState, GoodAuto, Complete, FollowsOf;
    var act := Action(la, REDUCE, r);
    assert ReduceAction(g, o.a, o.f, s, act);
    RawFound(g, info, o, s, act);
  }

  lemma StartIsFound(g: Grammar, info: FirstInfo, a: Auto, f: Follow, r: nat)
    requires g.Valid() && Shaped(g, info) && GoodAuto(g, info, a) && FollowsOf(a, f) && Covered(a, f) && |a.states| > 0
    requires r < |g.rules| && g.rules[r].lhs == g.start
    ensures Item(r, 0) in a.states[0].c.items && 0 in f[Cfg(0, Item(r, 0))]
  {
    var it := Item(r, 0);
    assert GoodState(g, info, 0, a.states[0]);
    assert it in a.states[0].basis;
    assert a.states[0].basis <= a.states[0].c.items;
    assert IsConfig(a.states, Cfg(0, it));
    assert 0 in a.states[0].c.fws[it];
  }

  ghost predicate PredictionsFound(g: Grammar, info: FirstInfo, a: Auto, f: Follow)
    requires g.Valid() && Shaped(g, info) && Covered(a, f)
  {
    forall s: nat, p, d :: s < |a.states| && p in a.states[s].c.items && Predicts(g, p, d) && Symbols(g, Rest(g, p)) ==>
      PredictionFound(g, info, a, f, s, p, d)
  }

  // All of the above: the tables offer every step a parse tree asks for.
  ghost predicate Driven(g: Grammar, info: FirstInfo, a: Auto, f: Follow, t: Tables) {
    && Honest(g, a, t) && Exact(g, info) && ShortRules(g) && Covered(a, f)
    && ShiftsFound(g, a, f, t) && PredictionsFound(g, info, a, f) && ReducesFound(g, a, f, t) && StartsFound(g, a, f)
  }

  lemma ConflictFreeDriven(g: Grammar, info: FirstInfo, o: Output)
    requires Generated(g, info, o) && ShortRules(g) && AllConflictFree(g, o.a, o.f)
    ensures Driven(g, info, o.a, o.f, o.t)
  {
    hide GeneratedState, GoodAuto, Complete, FollowsOf, ConflictFree, Nullable, Begins, ShortRules, Honest, ShiftFound,
      PredictionFound;
    GeneratedHonest(g, info, o);
    HonestStates(g, o.a, o.t);
    AutoCovered(o.a, o.f);
    forall s: nat, p | s < |o.a.states| && p in o.a.states[s].c.items && ReadyDot(g, p)
      ensures ShiftFound(g, o.a, o.f, o.t, s, p)
    {
      ShiftIsFound(g, info, o, s, p);
    }
    forall s: nat, p, d | s < |o.a.states| && p in o.a.states[s].c.items && Predicts(g, p, d) && Symbols(g, Rest(g, p))
      ensures PredictionFound(g, info, o.a, o.f, s, p, d)
    {
      PredictionIsFound(g, info, o.a, o.f, s, p, d);
    }
    forall s: nat, r: nat, la: Symbol | CompleteIn(g, o.a, s, r) && la < g.nterminal
      && la in o.f[Cfg(s, Item(r, |g.rules[r].rhs|))]
      ensures Value(g, o.t, s, la) == |o.a.states| + r
    {
      ReduceIsFound(g, info, o, s, r, la);
    }
    forall r | 0 <= r < |g.rules| && g.rules[r].lhs == g.start
      ensures Item(r, 0) in o.a.states[0].c.items && 0 in o.f[Cfg(0, Item(r, 0))]
    {
      StartIsFound(g, info, o.a, o.f, r);
    }
  }

  // ---- the stack a parse tree needs ----

  function Max(a: nat, b: nat): nat {
    if a < b then b else a
  }

  // How many entries are pushed above the present top, at most, while t is parsed.
  ghost function Need(t: Tree): nat {
    if t.Leaf? then 1 else Max(1, NeedAll(t.kids))
  }

  ghost function NeedAll(ts: seq<Tree>): nat {
    if ts == [] then 0 else Max(Need(ts[0]), 1 + NeedAll(ts[1..]))
  }

  // ---- single turns ----

  // The symbol at the dot of p is on the stack with state m and tree v: the next item
  // is in m, with the follow set of p.
  ghost predicate Advances(g: Grammar, a: Auto, f: Follow, st: Stack, p: Item, m: nat)
    requires Covered(a, f)
  {
    && st != [] && Top(st) < |a.states| && p in a.states[Top(st)].c.items && ReadyDot(g, p)
    && m < |a.states| && Next(p) in a.states[m].c.items && f[Cfg(Top(st), p)] <= f[Cfg(m, Next(p))]
    && GoodShift(g, a, Top(st), Action(g.rules[p.rule].rhs[p.dot], SHIFT, m))
  }

  lemma DrivenShift(g: Grammar, info: FirstInfo, a: Auto, f: Follow, t: Tables, st: Stack, p: Item) returns (m: nat)
    requires Driven(g, info, a, f, t) && Chain(g, a, st) && Top(st) < |a.states| && p in a.states[Top(st)].c.items
      && ReadyDot(g, p)
    ensures Usable(t, st) && |t.dflt| == |a.states| && Covered(a, f)
    ensures m == Value(g, t, Top(st), g.rules[p.rule].rhs[p.dot]) < |t.dflt| && Advances(g, a, f, st, p, m)
  {
    hide MeansAll, GotosFound, BasisListed, ShiftedItems, Exact, ShortRules, PredictionsFound, ReducesFound,
      StartsFound, LinkAt;
    assert ShiftFound(g, a, f, t, Top(st), p);
    m := Value(g, t, Top(st), g.rules[p.rule].rhs[p.dot]);
  }

  lemma DrivenReduce(g: Grammar, info: FirstInfo, a: Auto, f: Follow, t: Tables, st: Stack, r: nat, la: Symbol)
    requires Driven(g, info, a, f, t) && Chain(g, a, st) && CompleteIn(g, a, Top(st), r) && la < g.nterminal
    requires Cfg(Top(st), Item(r, |g.rules[r].rhs|)) in f && la in f[Cfg(Top(st), Item(r, |g.rules[r].rhs|))]
    ensures Usable(t, st) && |t.dflt| == |a.states| && FindShiftAction(g, t, Top(st), la) == |t.dflt| + r
      && |g.rules[r].rhs| < 256
  {
    hide MeansAll, GotosFound, BasisListed, ShiftedItems, Exact, PredictionsFound, ShiftsFound, StartsFound, LinkAt;
    assert Value(g, t, Top(st), la) == |a.states| + r;
  }

  // Item p predicts rule r, and la comes after its symbol: so la follows the rule.
  lemma DrivenPredict(g: Grammar, info: FirstInfo, a: Auto, f: Follow, t: Tables, st: Stack, p: Item, r: nat,
                      la: Symbol)
    requires Driven(g, info, a, f, t) && Chain(g, a, st) && Top(st) < |a.states| && p in a.states[Top(st)].c.items
    requires Predicts(g, p, Item(r, 0)) && Symbols(g, Rest(g, p)) && Cfg(Top(st), p) in f
      && ComesAfter(g, info, f, Top(st), p, la)
    ensures Item(r, 0) in a.states[Top(st)].c.items && Cfg(Top(st), Item(r, 0)) in f
      && la in f[Cfg(Top(st), Item(r, 0))]
  {
    hide MeansAll, GotosFound, BasisListed, ShiftedItems, Nullable, Begins, ReducesFound, ShiftsFound, StartsFound,
      LinkAt;
    assert PredictionFound(g, info, a, f, Top(st), p, Item(r, 0));
  }

  lemma ShiftTurn(g: Grammar, t: Tables, depth: nat, st: Stack, x: Symbol, rest: Form, m: nat)
    requires Usable(t, st) && FindShiftAction(g, t, Top(st), x) == m < |t.dflt|
    ensures Turn(g, t, depth, Config(st, [x] + rest, Running)) ==
            if |st| < depth then Config(st + [Entry(m, x, Leaf(x))], rest, Running) else Config([], rest, Overflow)
  {
    var input := [x] + rest;
    assert input[0] == x && input[1..] == rest;
  }

  // The reduce takes top off the stack.
  lemma PopTop(g: Grammar, t: Tables, depth: nat, st: Stack, top: Stack, r: nat)
    requires r < |g.rules| && |top| == |g.rules[r].rhs| < 256 && Usable(t, st)
    ensures Reduced(g, t, depth, st + top, r) == Goto(g, t, depth, st, g.rules[r].lhs, Node(r, Minors(top)))
  {
    hide Goto, Usable;
    DropTop(st, top);
  }

  lemma DropTop(a: Stack, b: Stack)
    ensures (a + b)[..|a + b| - |b|] == a && (a + b)[|a + b| - |b|..] == b
  {
  }

  lemma ReduceTurn(g: Grammar, t: Tables, depth: nat, st: Stack, top: Stack, r: nat, input: Form, m: nat)
    requires r < |g.rules| && |top| == |g.rules[r].rhs| < 256 && input != []
    requires Usable(t, st + top) && FindShiftAction(g, t, Top(st + top), input[0]) == |t.dflt| + r
    requires Usable(t, st) && FindReduceAction(g, t, Top(st), g.rules[r].lhs) == m < |t.dflt|
    ensures Turn(g, t, depth, Config(st + top, input, Running)) ==
            if |st| < depth then Config(st + [Entry(m, g.rules[r].lhs, Node(r, Minors(top)))], input, Running)
            else Config([], input, Overflow)
  {
    hide Reduced;
    PopTop(g, t, depth, st, top, r);
  }

  lemma AcceptTurn(g: Grammar, t: Tables, depth: nat, st: Stack, top: Stack, r: nat, input: Form)
    requires r < |g.rules| && |top| == |g.rules[r].rhs| < 256 && input != []
    requires Usable(t, st + top) && FindShiftAction(g, t, Top(st + top), input[0]) == |t.dflt| + r
    requires Usable(t, st) && FindReduceAction(g, t, Top(st), g.rules[r].lhs) == ErrorAction(g, |t.dflt|) + 1
    ensures Turn(g, t, depth, Config(st + top, input, Running)) == Config([], input, Accepted(Node(r, Minors(top))))
  {
    hide Reduced;
    PopTop(g, t, depth, st, top, r);
  }

  // ---- running through a parse tree ----

  datatype Machine = Machine(g: Grammar, info: FirstInfo, a: Auto, f: Follow, t: Tables, depth: nat)
  {
    ghost predicate Valid() {
      Driven(g, info, a, f, t)
    }

    ghost predicate At(st: Stack, p: Item) {
      Chain(g, a, st) && Top(st) < |a.states| && p in a.states[Top(st)].c.items && Cfg(Top(st), p) in f
    }

    // The token la may come after item p, whose dot is at the end or la after the rest.
    ghost predicate Awaits(st: Stack, p: Item, la: Symbol) {
      At(st, p) && la < g.nterminal && la in f[Cfg(Top(st), p)]
    }

    function Run(c: Config, n: nat): Config {
      Go(g, t, depth, c, n)
    }
  }

  lemma AtItem(e: Machine, st: Stack, p: Item)
    requires e.Valid() && e.At(st, p)
    ensures ValidItem(e.g, p) && e.g.Valid() && Shaped(e.g, e.info)
    ensures ReadyDot(e.g, p) ==> Symbols(e.g, Rest(e.g, p))
  {
    if ReadyDot(e.g, p) {
      RestSymbols(e.g, p);
    }
  }

  // la comes after the symbol at the dot of p.
  ghost predicate Leaves(e: Machine, st: Stack, p: Item, la: Symbol) {
    && e.At(st, p) && ReadyDot(e.g, p) && Shaped(e.g, e.info) && Symbols(e.g, Rest(e.g, p)) && la < e.g.nterminal
    && ComesAfter(e.g, e.info, e.f, Top(st), p, la)
  }

  // With the symbol at the dot of p on the stack the next item is reached, and what
  // may come after it stays.
  ghost predicate Reaches(e: Machine, st: Stack, p: Item, st': Stack) {
    e.At(st', Next(p)) && forall la :: e.Awaits(st, p, la) ==> e.Awaits(st', Next(p), la)
  }

  function AtDotEntry(e: Machine, p: Item, m: nat, v: Tree): Entry
    requires ReadyDot(e.g, p)
  {
    Entry(m, e.g.rules[p.rule].rhs[p.dot], v)
  }

  // The push of the symbol at the dot with its tree keeps a path, and the next item.
  lemma AdvanceChain(e: Machine, st: Stack, p: Item, v: Tree) returns (m: nat)
    requires e.Valid() && e.At(st, p) && ReadyDot(e.g, p)
    ensures Usable(e.t, st) && |e.t.dflt| == |e.a.states|
    ensures m == Value(e.g, e.t, Top(st), e.g.rules[p.rule].rhs[p.dot]) < |e.t.dflt|
    ensures Reaches(e, st, p, st + [AtDotEntry(e, p, m, v)])
  {
    m := DrivenShift(e.g, e.info, e.a, e.f, e.t, st, p);
    hide Driven, LinkAt, GoodShift;
    HonestFrame(e);
    ShiftChain(e.g, e.a, st, e.g.rules[p.rule].rhs[p.dot], m, v);
  }

  lemma HonestFrame(e: Machine)
    requires e.Valid()
    ensures ShiftedItems(e.g, e.a) && BasisListed(e.a) && ShortRules(e.g) && Exact(e.g, e.info) && e.g.Valid()
  {
  }

  // What a forest leaves on the stack for rule q, whose last items it filled.
  ghost predicate Filled(e: Machine, st: Stack, top: Stack, q: nat, kids: seq<Tree>, la: Symbol) {
    && q < |e.g.rules| && Minors(top) == kids
    && e.Awaits(st + top, Item(q, |e.g.rules[q].rhs|), la)
  }

  // The reduce after the forest of a node's children.
  lemma NodeTurn(e: Machine, st: Stack, p: Item, r: nat, top: Stack, rest: Form, m: nat)
    requires e.Valid() && e.At(st, p) && ReadyDot(e.g, p) && rest != [] && Usable(e.t, st) && |e.t.dflt| == |e.a.states|
    requires r < |e.g.rules| && e.g.nterminal <= e.g.rules[r].lhs == e.g.rules[p.rule].rhs[p.dot]
    requires m == Value(e.g, e.t, Top(st), e.g.rules[r].lhs) < |e.t.dflt|
    requires Filled(e, st, top, r, Minors(top), rest[0]) && |top| == |e.g.rules[r].rhs|
    ensures Turn(e.g, e.t, e.depth, Config(st + top, rest, Running)) ==
            if |st| < e.depth then Config(st + [AtDotEntry(e, p, m, Node(r, Minors(top)))], rest, Running)
            else Config([], rest, Overflow)
  {
    hide Driven, Chain, Turn;
    DrivenReduce(e.g, e.info, e.a, e.f, e.t, st + top, r, rest[0]);
    ReduceTurn(e.g, e.t, e.depth, st, top, r, rest, m);
  }

  // A tree for the symbol at the dot of p, followed by rest.
  lemma {:induction false} TreeRun(e: Machine, st: Stack, p: Item, v: Tree, rest: Form) returns (n: nat, m: nat)
    requires e.Valid() && rest != [] && Leaves(e, st, p, rest[0])
    requires TreeOf(e.g, v, e.g.rules[p.rule].rhs[p.dot]) && Words(e.g, Yield(v))
    ensures |st| + Need(v) > e.depth ==> e.Run(Config(st, Yield(v) + rest, Running), n).out == Overflow
    ensures |st| + Need(v) <= e.depth ==>
      e.Run(Config(st, Yield(v) + rest, Running), n) == Config(st + [AtDotEntry(e, p, m, v)], rest, Running)
    ensures Reaches(e, st, p, st + [AtDotEntry(e, p, m, v)])
    decreases v, 0
  {
    hide Driven, Chain, Turn, Reaches, Exact, ShortRules, ShiftedItems, BasisListed;
    m := AdvanceChain(e, st, p, v);
    HonestFrame(e);
    LeafOfWord(e.g, v, e.g.rules[p.rule].rhs[p.dot]);
    match v
    case Leaf(_) =>
      n := 1;
      ShiftTurn(e.g, e.t, e.depth, st, e.g.rules[p.rule].rhs[p.dot], rest, m);
    case Node(r, kids) =>
      DrivenPredict(e.g, e.info, e.a, e.f, e.t, st, p, r, rest[0]);
      var k, top := ForestRun(e, st, r, 0, kids, rest);
      if |st| + NeedAll(kids) > e.depth && kids != [] {
        n := k;
      } else {
        n := k + 1;
        NodeTurn(e, st, p, r, top, rest, m);
        GoAdd(e.g, e.t, e.depth, Config(st, Yield(v) + rest, Running), k, 1);
      }
  }

  // Trees for the symbols of rule q from position k on, followed by rest.
  lemma {:induction false} ForestRun(e: Machine, st: Stack, q: nat, k: nat, kids: seq<Tree>, rest: Form)
    returns (n: nat, top: Stack)
    requires e.Valid() && q < |e.g.rules| && k <= |e.g.rules[q].rhs| && rest != [] && e.Awaits(st, Item(q, k), rest[0])
    requires ForestOf(e.g, kids, e.g.rules[q].rhs[k..]) && Words(e.g, YieldAll(kids))
    ensures |st| + NeedAll(kids) > e.depth && kids != [] ==>
      e.Run(Config(st, YieldAll(kids) + rest, Running), n).out == Overflow
    ensures |st| + NeedAll(kids) <= e.depth || kids == [] ==>
      e.Run(Config(st, YieldAll(kids) + rest, Running), n) == Config(st + top, rest, Running)
        && Filled(e, st, top, q, kids, rest[0])
    decreases kids, 1
  {
    hide Driven, Chain, Turn, Leaves;
    var all := YieldAll(kids) + rest;
    if kids == [] {
      n, top := 0, [];
      assert st + top == st && all == rest;
    } else {
      var p := Item(q, k);
      var later := YieldAll(kids[1..]) + rest;
      WordsSplit(e.g, Yield(kids[0]), YieldAll(kids[1..]));
      Associate(Yield(kids[0]), YieldAll(kids[1..]), rest);
      RestLeaves(e, st, p, kids, rest);
      var i, m := TreeRun(e, st, p, kids[0], later);
      if |st| + Need(kids[0]) > e.depth {
        n, top := i, [];
      } else {
        var entry := AtDotEntry(e, p, m, kids[0]);
        TailOf(e.g.rules[q].rhs, k);
        assert e.Awaits(st + [entry], Next(p), rest[0]);
        var j, upper := ForestRun(e, st + [entry], q, k + 1, kids[1..], rest);
        n, top := i + j, [entry] + upper;
        GoAdd(e.g, e.t, e.depth, Config(st, all, Running), i, j);
        StackMinors(st, entry, upper);
      }
    }
  }

  lemma TailOf(a: Form, k: nat)
    requires k < |a|
    ensures a[k..][1..] == a[k + 1..] && a[k..][0] == a[k]
  {
  }

  lemma StackMinors(st: Stack, entry: Entry, upper: Stack)
    ensures st + ([entry] + upper) == st + [entry] + upper
    ensures Minors([entry] + upper) == [entry.minor] + Minors(upper)
  {
  }

  // The first token after the tree of the symbol at the dot comes after that symbol.
  lemma RestLeaves(e: Machine, st: Stack, p: Item, kids: seq<Tree>, rest: Form)
    requires e.Valid() && e.Awaits(st, p, if rest == [] then 0 else rest[0]) && rest != [] && ReadyDot(e.g, p)
    requires ForestOf(e.g, kids, e.g.rules[p.rule].rhs[p.dot..]) && Words(e.g, YieldAll(kids)) && kids != []
    ensures Leaves(e, st, p, (YieldAll(kids[1..]) + rest)[0])
  {
    hide Driven, Chain;
    AtItem(e, st, p);
    HonestFrame(e);
    var v := YieldAll(kids[1..]);
    WordsSplit(e.g, Yield(kids[0]), v);
    assert e.g.rules[p.rule].rhs[p.dot..][1..] == Rest(e.g, p);
    ForestFirst(e.g, e.info, kids[1..], Rest(e.g, p));
    if v == [] {
      assert v + rest == rest;
    } else {
      assert (v + rest)[0] == v[0];
    }
  }

  // ---- whole sentences ----

  // The entries the parse of a start rule's tree needs, the bottom one included.
  ghost function StackNeed(v: Tree): nat {
    1 + if v.Leaf? then 0 else NeedAll(v.kids)
  }

  lemma StartAwaits(e: Machine, r: nat)
    requires e.Valid() && r < |e.g.rules| && e.g.rules[r].lhs == e.g.start
    ensures e.Awaits([Entry(0, 0, Leaf(0))], Item(r, 0), 0)
    ensures Usable(e.t, [Entry(0, 0, Leaf(0))])
    ensures FindReduceAction(e.g, e.t, 0, e.g.start) == ErrorAction(e.g, |e.t.dflt|) + 1
  {
    hide MeansAll, BasisListed, ShiftedItems, Exact, ShortRules, PredictionsFound, ReducesFound, ShiftsFound;
    assert Item(r, 0) in e.a.states[0].c.items && 0 in e.f[Cfg(0, Item(r, 0))];
    assert GotoFound(e.g, e.a, e.t, 0, r);
  }

  // Completeness: the parser ends with the tree of the sentence as its value, unless
  // the tree needs more stack than there is; then it ends with the overflow.
  lemma SentenceRun(e: Machine, v: Tree) returns (n: nat)
    requires e.Valid() && e.depth > 0 && TreeOf(e.g, v, e.g.start) && Words(e.g, Yield(v))
    ensures e.Run(Started(Yield(v) + [0]), n).out == if StackNeed(v) <= e.depth then Accepted(v) else Overflow
  {
    hide Driven, Chain, Turn;
    HonestFrame(e);
    LeafOfWord(e.g, v, e.g.start);
    var r, kids, st := v.rule, v.kids, [Entry(0, 0, Leaf(0))];
    StartAwaits(e, r);
    var k, top := ForestRun(e, st, r, 0, kids, [0]);
    if StackNeed(v) > e.depth {
      n := k;
    } else {
      n := k + 1;
      DrivenReduce(e.g, e.info, e.a, e.f, e.t, st + top, r, 0);
      AcceptTurn(e.g, e.t, e.depth, st, top, r, [0]);
      GoAdd(e.g, e.t, e.depth, Started(Yield(v) + [0]), k, 1);
    }
  }

  // A finished run gives one answer.
  lemma GoAgrees(g: Grammar, t: Tables, depth: nat, c: Config, n: nat, m: nat)
    requires Go(g, t, depth, c, n).out != Running && Go(g, t, depth, c, m).out != Running
    ensures Go(g, t, depth, c, n) == Go(g, t, depth, c, m)
  {
    hide Turn;
    if n <= m {
      GoAdd(g, t, depth, c, n, m - n);
      GoDone(g, t, depth, Go(g, t, depth, c, n), m - n);
    } else {
      GoAdd(g, t, depth, c, m, n - m);
      GoDone(g, t, depth, Go(g, t, depth, c, m), n - m);
    }
  }

  // Both directions: on a word and the end marker the parser ends by accepting with
  // value v exactly when v is a parse tree of the word that fits the stack.
  lemma AcceptsExactly(g: Grammar, info: FirstInfo, o: Output, depth: nat, w: Form, v: Tree)
    requires Generated(g, info, o) && ShortRules(g) && AllConflictFree(g, o.a, o.f) && depth > 0 && Words(g, w)
    ensures (exists n: nat :: Go(g, o.t, depth, Started(w + [0]), n).out == Accepted(v)) <==>
            TreeOf(g, v, g.start) && Yield(v) == w && StackNeed(v) <= depth
  {
    hide Generated, AllConflictFree, Driven, Go, TreeOf;
    ConflictFreeDriven(g, info, o);
    var e := Machine(g, info, o.a, o.f, o.t, depth);
    if n: nat :| Go(g, o.t, depth, Started(w + [0]), n).out == Accepted(v) {
      AcceptedWord(g, info, o, depth, w, n);
      var m := SentenceRun(e, v);
      GoAgrees(g, o.t, depth, Started(w + [0]), n, m);
    }
    if TreeOf(g, v, g.start) && Yield(v) == w && StackNeed(v) <= depth {
      var n := SentenceRun(e, v);
      assert Go(g, o.t, depth, Started(w + [0]), n).out == Accepted(v);
    }
  }

  // What is accepted on a word and the end marker is a tree of the whole word.
  lemma AcceptedWord(g: Grammar, info: FirstInfo, o: Output, depth: nat, w: Form, n: nat)
    requires Generated(g, info, o) && ShortRules(g) && Words(g, w)
      && Go(g, o.t, depth, Started(w + [0]), n).out.Accepted?
    ensures var v := Go(g, o.t, depth, Started(w + [0]), n).out.value; TreeOf(g, v, g.start) && Yield(v) == w
  {
    hide Generated, Go, TreeOf, RunOk;
    assert Tokens(g, w + [0]) by {
      TokensOf(g, info, o, w);
    }
    AcceptedIsSentence(g, info, o, depth, w + [0], n);
    var c := Go(g, o.t, depth, Started(w + [0]), n);
    var u := Consumed(w + [0], c);
    assert (w + [0])[..|w|] == w;
  }

  lemma TokensOf(g: Grammar, info: FirstInfo, o: Output, w: Form)
    requires Generated(g, info, o) && Words(g, w)
    ensures Tokens(g, w + [0])
  {
  }

  // A grammar without conflicts is unambiguous: the parser, run with stack enough for
  // both trees, can return only one of them.
  lemma Unambiguous(g: Grammar, info: FirstInfo, o: Output, v: Tree, v': Tree)
    requires Generated(g, info, o) && ShortRules(g) && AllConflictFree(g, o.a, o.f)
    requires TreeOf(g, v, g.start) && TreeOf(g, v', g.start) && Yield(v) == Yield(v') && Words(g, Yield(v))
    ensures v == v'
  {
    hide Generated, AllConflictFree, Driven, Go, TreeOf;
    ConflictFreeDriven(g, info, o);
    var e := Machine(g, info, o.a, o.f, o.t, StackNeed(v) + StackNeed(v'));
    var n := SentenceRun(e, v);
    var m := SentenceRun(e, v');
    GoAgrees(g, o.t, e.depth, Started(Yield(v) + [0]), n, m);
  }
}
