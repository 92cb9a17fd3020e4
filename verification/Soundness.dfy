// Soundness of generator plus driver: the stack always is a path of the automaton, a
// reduce finds its right-hand side on it and its goto exists, and what is accepted
// is a parse tree of the start symbol over the tokens consumed.

module Soundness {
  import opened Grammars
  import opened FirstSets
  import opened States
  import opened Automaton
  import opened Actions
  import opened Tables
  import opened Decisions
  import opened Driver

  // The rules whose length fits the unsigned char in yyRuleInfo.
  ghost predicate ShortRules(g: Grammar) {
    forall r :: 0 <= r < |g.rules| ==> |g.rules[r].rhs| < 256
  }

  // ---- the goto exists ----

  lemma StartItemState(g: Grammar, info: FirstInfo, a: Auto, s: nat, it: Item)
    requires g.Valid() && Shaped(g, info) && GoodAuto(g, info, a) && s < |a.states|
    requires it in a.states[s].c.items && it.dot == 0
    ensures StartItem(g, it) ==> s == 0
    ensures !StartItem(g, it) ==>
      it.rule < |g.rules| && exists p :: p in a.states[s].c.items && AtDot(g, p, g.rules[it.rule].lhs)
  {
    assert GoodState(g, info, s, a.states[s]);
    if it !in a.states[s].basis {
      var p :| p in a.states[s].c.items && Predicts(g, p, it);
      PredictedNotStart(g, p, it);
    }
  }

  // A shift on a nonterminal, and the accept, have no rival.
  lemma NonterminalUncontested(g: Grammar, info: FirstInfo, a: Auto, f: Lookaheads.Follow, s: nat, act: Action)
    requires g.Valid() && Shaped(g, info) && Finished(g, info, a) && Raw(g, a, f, s, act) && act.sp >= g.nterminal
    ensures Uncontested(g, a, f, s, act)
  {
    forall y | Raw(g, a, f, s, y) && y.sp == act.sp
      ensures y == act
    {
      if act in a.states[s].ap {
        ShiftMember(g, info, a, s, act);
      }
      if y in a.states[s].ap {
        ShiftMember(g, info, a, s, y);
      }
      if act in a.states[s].ap && y in a.states[s].ap {
        assert Complete(g, a, s);
        OneShift(a.states[s].ap, act, y);
      }
    }
  }

  // The goto on the left-hand side of rule r from state s is a shift, or the accept
  // when r is a start rule.
  ghost predicate GotoFound(g: Grammar, a: Auto, t: Tables, s: nat, r: nat)
    requires t.Shaped(|t.dflt|) && s < |a.states| == |t.dflt| && r < |g.rules|
  {
    var x, v := g.rules[r].lhs, FindReduceAction(g, t, s, g.rules[r].lhs);
    if x == g.start then s == 0 && v == ErrorAction(g, |a.states|) + 1
    else 0 <= v < |a.states| && GoodShift(g, a, s, Action(x, SHIFT, v))
  }

  // It is found for every rule the state expects.
  lemma GotoExists(g: Grammar, info: FirstInfo, o: Output, s: nat, r: nat)
    requires Generated(g, info, o) && s < |o.a.states| && r < |g.rules| && Item(r, 0) in o.a.states[s].c.items
    ensures GotoFound(g, o.a, o.t, s, r)
  {
    var x := g.rules[r].lhs;
    assert g.ValidRule(g.rules[r]);
    StartItemState(g, info, o.a, s, Item(r, 0));
    Decision(g, info, o, s, x);
    if x == g.start {
      NonterminalUncontested(g, info, o.a, o.f, s, Action(g.start, ACCEPT, 0));
    } else {
      var p :| p in o.a.states[s].c.items && AtDot(g, p, x);
      assert Complete(g, o.a, s) && HasShift(o.a.states[s].ap, x);
      var k :| 0 <= k < |o.a.states[s].ap| && o.a.states[s].ap[k].sp == x;
      var act := o.a.states[s].ap[k];
      RawShift(g, info, o.a, s, act);
      NonterminalUncontested(g, info, o.a, o.f, s, act);
    }
  }

  ghost predicate BasisListed(a: Auto) {
    forall n: nat, it :: n < |a.states| && it in a.states[n].basis ==> it in a.states[n].c.items
  }

  lemma AutoBasisListed(g: Grammar, info: FirstInfo, a: Auto)
    requires g.Valid() && Shaped(g, info) && GoodAuto(g, info, a)
    ensures BasisListed(a)
  {
    forall n: nat, it | n < |a.states| && it in a.states[n].basis
      ensures it in a.states[n].c.items
    {
      assert GoodState(g, info, n, a.states[n]);
      assert a.states[n].basis <= a.states[n].c.items;
    }
  }

  // ---- what the driver relies on ----

  ghost predicate MeansAll(g: Grammar, a: Auto, t: Tables)
    requires t.Shaped(|t.dflt|) && |a.states| == |t.dflt|
  {
    forall s: nat, x: Symbol :: s < |a.states| && x < g.nsymbol ==> Means(g, a, s, x, Value(g, t, s, x))
  }

  ghost predicate GotosFound(g: Grammar, a: Auto, t: Tables)
    requires t.Shaped(|t.dflt|) && |a.states| == |t.dflt|
  {
    forall s: nat, r: nat ::
      s < |a.states| && r < |g.rules| && Item(r, 0) in a.states[s].c.items ==> GotoFound(g, a, t, s, r)
  }

  // The tables speak for the automaton.
  ghost predicate Honest(g: Grammar, a: Auto, t: Tables) {
    && g.Valid() && t.Shaped(|a.states|) && |a.states| > 0
    && ShiftedItems(g, a) && BasisListed(a) && MeansAll(g, a, t) && GotosFound(g, a, t)
  }

  lemma GeneratedHonest(g: Grammar, info: FirstInfo, o: Output)
    requires Generated(g, info, o)
    ensures Honest(g, o.a, o.t)
  {
    AutoShiftedItems(g, info, o.a);
    AutoBasisListed(g, info, o.a);
    forall s: nat, x: Symbol | s < |o.a.states| && x < g.nsymbol
      ensures Means(g, o.a, s, x, Value(g, o.t, s, x))
    {
      Decision(g, info, o, s, x);
    }
    forall s: nat, r: nat | s < |o.a.states| && r < |g.rules| && Item(r, 0) in o.a.states[s].c.items
      ensures GotoFound(g, o.a, o.t, s, r)
    {
      GotoExists(g, info, o, s, r);
    }
  }

  // ---- the stack stays a path, whatever the rules ----

  // A shift leads to a state other than 0.
  lemma ShiftTarget(g: Grammar, a: Auto, s: nat, act: Action)
    requires ShiftedItems(g, a) && BasisListed(a) && s < |a.states| && GoodShift(g, a, s, act)
    ensures 0 < act.arg < |a.states|
  {
    var p :| p in a.states[s].c.items && AtDot(g, p, act.sp);
    assert Prev(Next(p)) == p;
    assert Next(p) in a.states[act.arg].basis;
    assert Next(p) in a.states[act.arg].c.items;
  }

  lemma ShiftChain(g: Grammar, a: Auto, st: Stack, x: Symbol, m: nat, v: Tree)
    requires ShiftedItems(g, a) && BasisListed(a) && Chain(g, a, st) && Top(st) < |a.states|
    requires GoodShift(g, a, Top(st), Action(x, SHIFT, m))
    ensures Chain(g, a, st + [Entry(m, x, v)])
  {
    ShiftTarget(g, a, Top(st), Action(x, SHIFT, m));
    ChainPush(g, a, st, Entry(m, x, v));
  }

  ghost predicate ChainOrEmpty(g: Grammar, a: Auto, st: Stack) {
    st == [] || Chain(g, a, st)
  }

  ghost predicate Tokens(g: Grammar, input: Form) {
    forall k :: 0 <= k < |input| ==> input[k] < g.nterminal
  }

  // The parts of Honest that one turn needs.
  lemma HonestParts(g: Grammar, a: Auto, t: Tables, st: Stack)
    requires Honest(g, a, t) && Chain(g, a, st)
    ensures g.Valid() && Usable(t, st) && |t.dflt| == |a.states| && Top(st) < |a.states|
    ensures ShiftedItems(g, a) && BasisListed(a)
    ensures forall x: Symbol :: x < g.nsymbol ==> Means(g, a, Top(st), x, Value(g, t, Top(st), x))
  {
    ChainTop(g, a, st);
  }

  lemma GotoChain(g: Grammar, a: Auto, t: Tables, depth: nat, rest: Stack, x: Symbol, value: Tree)
    requires Honest(g, a, t) && Chain(g, a, rest) && g.nterminal <= x < g.nsymbol
    ensures Usable(t, rest)
    ensures ChainOrEmpty(g, a, Goto(g, t, depth, rest, x, value).0)
  {
    hide Honest, ShiftedItems, BasisListed, Chain;
    HonestParts(g, a, t, rest);
    var v := Value(g, t, Top(rest), x);
    if v < |a.states| {
      ShiftChain(g, a, rest, x, v, value);
    }
  }

  // The right-hand side of a complete item of the top state is on the stack.
  lemma RhsOnStack(g: Grammar, a: Auto, t: Tables, st: Stack, r: nat)
    requires Honest(g, a, t) && Chain(g, a, st) && CompleteIn(g, a, Top(st), r)
    ensures Spelled(g, st, Item(r, |g.rules[r].rhs|)) && Begun(a, st, Item(r, |g.rules[r].rhs|))
    ensures g.nterminal <= g.rules[r].lhs < g.nsymbol
  {
    ItemOnStack(g, a, st, Item(r, |g.rules[r].rhs|));
    assert g.ValidRule(g.rules[r]);
  }

  // A reduce by a complete item of the top state pops less than the stack.
  lemma ReducedChain(g: Grammar, a: Auto, t: Tables, depth: nat, st: Stack, r: nat)
    requires Honest(g, a, t) && Chain(g, a, st) && CompleteIn(g, a, Top(st), r)
    ensures PopSize(g, r) < |st|
    ensures ChainOrEmpty(g, a, Reduced(g, t, depth, st, r).0)
  {
    hide Honest, Chain, Begun, Goto;
    RhsOnStack(g, a, t, st, r);
    var rest := Popped(st, PopSize(g, r));
    ChainPrefix(g, a, st, |rest|);
    GotoChain(g, a, t, depth, rest, g.rules[r].lhs, ReduceValue(g, st, r));
  }

  // Every turn keeps: the stack is empty or a path of the automaton.
  lemma TurnChain(g: Grammar, a: Auto, t: Tables, depth: nat, c: Config)
    requires Honest(g, a, t) && ChainOrEmpty(g, a, c.st) && Tokens(g, c.input)
    ensures ChainOrEmpty(g, a, Turn(g, t, depth, c).st)
  {
    hide Honest, ShiftedItems, BasisListed, Chain, Reduced, GoodShift;
    if c.st != [] && c.input != [] {
      HonestParts(g, a, t, c.st);
      var s, x, n := Top(c.st), c.input[0], |a.states|;
      var v := Value(g, t, s, x);
      if v < n {
        ShiftChain(g, a, c.st, x, v, Leaf(x));
      } else if v < n + |g.rules| {
        ReducedChain(g, a, t, depth, c.st, v - n);
      }
    }
  }

  // ---- the values on the stack are parse trees of the consumed tokens ----

  ghost predicate TreesOk(g: Grammar, st: Stack) {
    forall k :: 0 < k < |st| ==> TreeOf(g, st[k].minor, st[k].major)
  }

  // What the trees on the stack yield, left to right.
  ghost function Held(st: Stack): Form
    requires st != []
  {
    YieldAll(Minors(st[1..]))
  }

  lemma PushHeld(st: Stack, e: Entry)
    requires st != []
    ensures Held(st + [e]) == Held(st) + Yield(e.minor)
  {
    assert (st + [e])[1..] == st[1..] + [e];
    assert Minors(st[1..] + [e]) == Minors(st[1..]) + [e.minor];
    YieldAllConcat(Minors(st[1..]), [e.minor]);
    YieldAllOne(e.minor);
  }

  lemma PopHeld(st: Stack, n: nat)
    requires n < |st|
    ensures Held(st) == Held(st[..|st| - n]) + YieldAll(Minors(st[|st| - n..]))
  {
    var low, high := st[..|st| - n], st[|st| - n..];
    assert st[1..] == low[1..] + high;
    assert Minors(low[1..] + high) == Minors(low[1..]) + Minors(high);
    YieldAllConcat(Minors(low[1..]), Minors(high));
  }

  // The stack is a path of the automaton whose values yield u.
  ghost predicate StackOk(g: Grammar, a: Auto, st: Stack, u: Form) {
    Chain(g, a, st) && TreesOk(g, st) && Held(st) == u
  }

  lemma PushStackOk(g: Grammar, a: Auto, st: Stack, u: Form, x: Symbol, m: nat, v: Tree)
    requires ShiftedItems(g, a) && BasisListed(a) && StackOk(g, a, st, u) && TreeOf(g, v, x)
    requires Top(st) < |a.states| && GoodShift(g, a, Top(st), Action(x, SHIFT, m))
    ensures StackOk(g, a, st + [Entry(m, x, v)], u + Yield(v))
  {
    ShiftChain(g, a, st, x, m, v);
    PushHeld(st, Entry(m, x, v));
  }

  // The value a reduce computes is a parse tree of its left-hand side.
  lemma ReduceTree(g: Grammar, st: Stack, r: nat)
    requires r < |g.rules| && Spelled(g, st, Item(r, |g.rules[r].rhs|)) && TreesOk(g, st)
    ensures TreeOf(g, ReduceValue(g, st, r), g.rules[r].lhs)
    ensures Yield(ReduceValue(g, st, r)) == YieldAll(Minors(st[|st| - |g.rules[r].rhs|..]))
  {
    var rhs := g.rules[r].rhs;
    var top := st[|st| - |rhs|..];
    var kids := Minors(top);
    forall j | 0 <= j < |rhs|
      ensures TreeOf(g, kids[j], rhs[j])
    {
      assert top[j] == st[|st| - |rhs| + j];
    }
    assert ForestOf(g, kids, rhs);
  }

  // Popping the right-hand side leaves what its tree does not yield.
  lemma PopStackOk(g: Grammar, a: Auto, st: Stack, u: Form, r: nat) returns (u': Form)
    requires StackOk(g, a, st, u) && r < |g.rules|
    requires Spelled(g, st, Item(r, |g.rules[r].rhs|)) && Begun(a, st, Item(r, |g.rules[r].rhs|))
    ensures var rest := st[..|st| - |g.rules[r].rhs|];
            && StackOk(g, a, rest, u') && Top(rest) < |a.states| && Item(r, 0) in a.states[Top(rest)].c.items
            && u == u' + Yield(ReduceValue(g, st, r))
  {
    hide Held, TreeOf, ReduceValue, LinkAt;
    var n := |g.rules[r].rhs|;
    var rest := st[..|st| - n];
    ReduceTree(g, st, r);
    PopHeld(st, n);
    ChainPrefix(g, a, st, |st| - n);
    u' := Held(rest);
  }

  // What a turn may leave when u has been consumed and x is the next token.
  ghost predicate ResultOk(g: Grammar, a: Auto, u: Form, x: Symbol, st: Stack, out: Outcome) {
    match out
    case Overflow => st == []
    case Accepted(v) => st == [] && x == 0 && TreeOf(g, v, g.start) && Yield(v) == u
    case _ => StackOk(g, a, st, u)
  }

  // After the pop the goto is found: a push of the left-hand side, or the accept on
  // the bottom of the stack.
  lemma GotoOk(g: Grammar, a: Auto, t: Tables, depth: nat, rest: Stack, u: Form, r: nat, value: Tree, x: Symbol)
    requires Honest(g, a, t) && r < |g.rules| && StackOk(g, a, rest, u)
    requires Top(rest) < |a.states| && Item(r, 0) in a.states[Top(rest)].c.items
    requires TreeOf(g, value, g.rules[r].lhs) && (g.rules[r].lhs == g.start ==> x == 0)
    ensures Usable(t, rest)
    ensures var (st', out) := Goto(g, t, depth, rest, g.rules[r].lhs, value);
            ResultOk(g, a, u + Yield(value), x, st', out)
  {
    hide MeansAll, Means, TreesOk, GoodShift;
    assert GotoFound(g, a, t, Top(rest), r);
    ChainTop(g, a, rest);
    if g.rules[r].lhs == g.start {
      assert rest[1..] == [];
    } else {
      var v := FindReduceAction(g, t, Top(rest), g.rules[r].lhs);
      PushStackOk(g, a, rest, u, g.rules[r].lhs, v, value);
    }
  }

  lemma StackParts(g: Grammar, a: Auto, st: Stack, u: Form)
    requires StackOk(g, a, st, u)
    ensures Chain(g, a, st) && TreesOk(g, st)
  {
  }

  lemma ReducedOk(g: Grammar, a: Auto, t: Tables, depth: nat, st: Stack, u: Form, r: nat, x: Symbol)
    requires Honest(g, a, t) && StackOk(g, a, st, u) && CompleteIn(g, a, Top(st), r) && |g.rules[r].rhs| < 256
    requires g.rules[r].lhs == g.start ==> x == 0
    ensures var (st', out) := Reduced(g, t, depth, st, r); ResultOk(g, a, u, x, st', out)
  {
    hide Honest, TreesOk, Chain, Goto, TreeOf, Begun, StackOk, ReduceValue, ResultOk;
    StackParts(g, a, st, u);
    RhsOnStack(g, a, t, st, r);
    ReduceTree(g, st, r);
    var u' := PopStackOk(g, a, st, u, r);
    GotoOk(g, a, t, depth, st[..|st| - |g.rules[r].rhs|], u', r, ReduceValue(g, st, r), x);
  }

  // ---- every run ----

  // The tokens of w taken off the input so far.
  function Consumed(w: Form, c: Config): Form {
    if |c.input| <= |w| then w[..|w| - |c.input|] else []
  }

  ghost predicate Words(g: Grammar, w: Form) {
    forall k :: 0 <= k < |w| ==> 1 <= w[k] < g.nterminal
  }

  // What holds after any number of turns on input w.
  ghost predicate RunOk(g: Grammar, a: Auto, w: Form, c: Config) {
    && |c.input| <= |w| && c.input == w[|w| - |c.input|..] && Words(g, Consumed(w, c))
    && (c.out.Accepted? ==> c.input != [])
    && ResultOk(g, a, Consumed(w, c), if c.input == [] then 0 else c.input[0], c.st, c.out)
  }

  lemma ConsumeOne(w: Form, input: Form)
    requires input != [] && |input| <= |w| && input == w[|w| - |input|..]
    ensures input[1..] == w[|w| - |input| + 1..]
    ensures w[..|w| - |input| + 1] == w[..|w| - |input|] + [input[0]]
  {
  }

  // Only symbols of right-hand sides are shifted, so never the end marker.
  lemma ShiftedToken(g: Grammar, a: Auto, s: nat, x: Symbol, m: nat)
    requires g.Valid() && s < |a.states| && GoodShift(g, a, s, Action(x, SHIFT, m))
    ensures x >= 1
  {
    var p :| p in a.states[s].c.items && AtDot(g, p, x);
    assert g.ValidRule(g.rules[p.rule]);
  }

  lemma TurnRunOk(g: Grammar, a: Auto, t: Tables, depth: nat, w: Form, c: Config)
    requires Honest(g, a, t) && ShortRules(g) && RunOk(g, a, w, c) && Tokens(g, w)
    ensures RunOk(g, a, w, Turn(g, t, depth, c))
  {
    hide Honest, Chain, TreesOk, Held, GoodShift, Reduced, ShiftedItems, BasisListed;
    if c.out == Running && c.input != [] {
      HonestParts(g, a, t, c.st);
      assert c.input[0] == w[|w| - |c.input|];
      var s, x, n, u := Top(c.st), c.input[0], |a.states|, Consumed(w, c);
      var v := Value(g, t, s, x);
      if v < n {
        ShiftedToken(g, a, s, x, v);
        PushStackOk(g, a, c.st, u, x, v, Leaf(x));
        ConsumeOne(w, c.input);
      } else if v < n + |g.rules| {
        ReducedOk(g, a, t, depth, c.st, u, v - n, x);
      }
    }
  }

  // The parser starts with state 0 on its stack.
  function Started(w: Form): Config {
    Config([Entry(0, 0, Leaf(0))], w, Running)
  }

  lemma {:induction false} GoRunOk(g: Grammar, a: Auto, t: Tables, depth: nat, w: Form, c: Config, n: nat)
    requires Honest(g, a, t) && ShortRules(g) && Tokens(g, w) && RunOk(g, a, w, c)
    ensures RunOk(g, a, w, Go(g, t, depth, c, n))
    decreases n
  {
    hide Honest, RunOk, Turn;
    if n > 0 {
      TurnRunOk(g, a, t, depth, w, c);
      GoRunOk(g, a, t, depth, w, Turn(g, t, depth, c), n - 1);
    }
  }

  lemma StartRunOk(g: Grammar, a: Auto, w: Form)
    requires |a.states| > 0
    ensures RunOk(g, a, w, Started(w))
  {
    assert w[|w|..] == [] && w[0..] == w;
  }

  // Soundness: whatever the grammar's conflicts, what is accepted is a sentence
  // followed by the end marker, and its value is a parse tree for it.
  lemma AcceptedIsSentence(g: Grammar, info: FirstInfo, o: Output, depth: nat, w: Form, n: nat)
    requires Generated(g, info, o) && ShortRules(g) && Tokens(g, w)
    ensures var c := Go(g, o.t, depth, Started(w), n);
            && RunOk(g, o.a, w, c)
            && (c.out.Accepted? ==>
                 && Sentence(g, Consumed(w, c)) && |Consumed(w, c)| < |w| && w[|Consumed(w, c)|] == 0
                 && TreeOf(g, c.out.value, g.start) && Yield(c.out.value) == Consumed(w, c))
  {
    hide Honest, Chain, TreesOk, Go, Generated;
    GeneratedHonest(g, info, o);
    HonestStates(g, o.a, o.t);
    StartRunOk(g, o.a, w);
    GoRunOk(g, o.a, o.t, depth, w, Started(w), n);
    var c := Go(g, o.t, depth, Started(w), n);
    if c.out.Accepted? {
      TreeDerives(g, c.out.value, g.start);
    }
  }

  lemma HonestStates(g: Grammar, a: Auto, t: Tables)
    requires Honest(g, a, t)
    ensures |a.states| > 0
  {
  }
}
