// For grammars without LALR(1) conflicts the parser always comes to an end: two different
// trees cannot stand for the same tokens, so the trees on the stack are bounded, and every
// turn makes them larger.

module Termination {
  import opened Wrappers
  import opened Grammars
  import opened Sets
  import opened FirstSets
  import opened States
  import opened Automaton
  import opened Lookaheads
  import opened Actions
  import opened Compress
  import opened Tables
  import opened Decisions
  import opened Driver
  import opened Soundness
  import opened Completeness
  import opened Parsers
  import opened Lalr
  import opened Contexts
  import opened Consumption

  // ---- the moves depend on the states alone ----

  ghost predicate SameStates(st: Stack, st': Stack) {
    |st| == |st'| && forall i :: 0 <= i < |st| ==> st[i].stateno == st'[i].stateno
  }

  ghost predicate SameOutcome(o: Outcome, o': Outcome) {
    o == o' || (o.Accepted? && o'.Accepted?)
  }

  ghost predicate SameShape(c: Config, c': Config) {
    SameStates(c.st, c'.st) && c.input == c'.input && SameOutcome(c.out, c'.out)
  }

  lemma GotoShape(g: Grammar, t: Tables, depth: nat, st: Stack, st': Stack, x: Symbol, v: Tree, v': Tree)
    requires Usable(t, st) && Usable(t, st') && SameStates(st, st')
    ensures SameStates(Goto(g, t, depth, st, x, v).0, Goto(g, t, depth, st', x, v').0)
    ensures SameOutcome(Goto(g, t, depth, st, x, v).1, Goto(g, t, depth, st', x, v').1)
  {
  }

  lemma ReducedShape(g: Grammar, t: Tables, depth: nat, st: Stack, st': Stack, r: nat)
    requires r < |g.rules| && SameStates(st, st')
    ensures SameStates(Reduced(g, t, depth, st, r).0, Reduced(g, t, depth, st', r).0)
    ensures SameOutcome(Reduced(g, t, depth, st, r).1, Reduced(g, t, depth, st', r).1)
  {
    hide Goto, ReduceValue;
    var n := PopSize(g, r);
    var rest, rest' := Popped(st, n), Popped(st', n);
    assert SameStates(rest, rest');
    if Usable(t, rest) {
      GotoShape(g, t, depth, rest, rest', g.rules[r].lhs, ReduceValue(g, st, r), ReduceValue(g, st', r));
    }
  }

  lemma TurnShape(g: Grammar, t: Tables, depth: nat, c: Config, c': Config)
    requires SameShape(c, c')
    ensures SameShape(Turn(g, t, depth, c), Turn(g, t, depth, c'))
  {
    hide Reduced;
    if c.out == Running && c.input != [] && Usable(t, c.st) {
      var n, act := |t.dflt|, FindShiftAction(g, t, Top(c.st), c.input[0]);
      if n <= act < n + |g.rules| {
        ReducedShape(g, t, depth, c.st, c'.st, act - n);
      }
    }
  }

  lemma {:induction false} GoShape(g: Grammar, t: Tables, depth: nat, c: Config, c': Config, n: nat)
    requires SameShape(c, c')
    ensures SameShape(Go(g, t, depth, c, n), Go(g, t, depth, c', n))
    decreases n
  {
    hide Turn, SameShape;
    if n > 0 {
      TurnShape(g, t, depth, c, c');
      GoShape(g, t, depth, Turn(g, t, depth, c), Turn(g, t, depth, c'), n - 1);
    }
  }

  // A run that comes back to the same shape does not end.
  lemma {:induction false} LoopGoesOn(g: Grammar, t: Tables, depth: nat, c: Config, m: nat, n: nat)
    requires m > 0 && SameShape(c, Go(g, t, depth, c, m)) && !Ended(c)
    ensures !Ended(Go(g, t, depth, c, n))
    decreases n
  {
    hide Go;
    var c' := Go(g, t, depth, c, m);
    assert !Ended(c');
    if Ended(Go(g, t, depth, c, n)) {
      if n <= m {
        EndedStays(g, t, depth, c, n, m);
      } else {
        GoAdd(g, t, depth, c, m, n - m);
        GoShape(g, t, depth, c, c', n - m);
        LoopGoesOn(g, t, depth, c, m, n - m);
      }
    }
  }

  // ---- two trees for the same tokens ----

  // In this context the symbol of p can be followed by l.
  ghost predicate Context(e: Machine, k: nat, st: Stack, p: Item, l: Symbol, r: nat) {
    && Proper(e) && e.At(st, p) && l < e.g.nterminal && k > 0
    && Predicts(e.g, p, Item(r, 0)) && After(e.g, e.info, e.a, k, st, p, Item(r, 0), l)
  }

  lemma ContextLeaves(e: Machine, k: nat, st: Stack, p: Item, l: Symbol, r: nat)
    requires Context(e, k, st, p, l, r)
    ensures Leaves(e, st, p, l)
  {
    hide Driven, Chain, Exact, Legit, LalrClosed;
    AtItem(e, st, p);
    HonestFrame(e);
    if !Spontaneous(e.g, e.info, p, Item(r, 0), l) {
      LegitInFollow(e.g, e.info, e.a, e.f, k - 2, st, p, l);
    }
  }

  // With either entry the run gets to the same states, so not with one of them later.
  lemma OneLater(e: Machine, k: nat, st: Stack, p: Item, l: Symbol, r: nat, entry: Entry, entry': Entry,
                 n: nat, n': nat, c: Config)
    requires Context(e, k, st, p, l, r) && e.At(st + [entry], Next(p)) && entry.stateno == entry'.stateno
    requires e.Run(c, n) == Config(st + [entry], [l], Running) && e.Run(c, n') == Config(st + [entry'], [l], Running)
    requires n <= n'
    ensures entry == entry'
  {
    hide Driven, Chain, Turn, Go, Context, After, Predicts, FirstSeq;
    var d, d' := e.Run(c, n), e.Run(c, n');
    assert (st + [entry])[|st|] == entry && (st + [entry'])[|st|] == entry';
    GoAdd(e.g, e.t, e.depth, c, n, n' - n);
    if n < n' {
      assert SameShape(d, d');
      var k' := ContextComes(e, k, st, p, l, r, entry);
      var m := Consumes(e, k', st + [entry], Next(p), l);
      LoopGoesOn(e.g, e.t, e.depth, d, n' - n, m);
    } else {
      SameRun(e, c, n);
    }
  }

  lemma SameRun(e: Machine, c: Config, n: nat)
    ensures e.Run(e.Run(c, n), 0) == e.Run(c, n)
  {
  }

  lemma ContextComes(e: Machine, k: nat, st: Stack, p: Item, l: Symbol, r: nat, entry: Entry) returns (k': nat)
    requires Context(e, k, st, p, l, r) && e.At(st + [entry], Next(p))
    ensures Proper(e) && Comes(e, k', st + [entry], Next(p), l)
  {
    hide Driven, Chain, Exact, Legit, LalrClosed, After, Comes;
    NextComes(e, k, st, p, Item(r, 0), l, entry);
    k' := if k >= 2 then k - 1 else 0;
  }

  // Two trees of one symbol yield different tokens.
  lemma TreesUnique(e: Machine, k: nat, st: Stack, p: Item, l: Symbol, r: nat, v: Tree, v': Tree)
    requires Context(e, k, st, p, l, r) && GoodAuto(e.g, e.info, e.a)
    requires TreeOf(e.g, v, e.g.rules[r].lhs) && TreeOf(e.g, v', e.g.rules[r].lhs)
    requires Yield(v) == Yield(v') && Words(e.g, Yield(v))
    ensures v == v'
  {
    hide Driven, Chain, Turn, Go, GoodAuto, After, Legit, LalrClosed, TreeOf, FirstSeq, NullSeq;
    var e' := e.(depth := |st| + Need(v) + Need(v'));
    assert Context(e', k, st, p, l, r);
    ContextLeaves(e', k, st, p, l, r);
    hide Context;
    var n, m := TreeRun(e', st, p, v, [l]);
    var n', m' := TreeRun(e', st, p, v', [l]);
    SameState(e', st, p, m, v, m', v');
    var entry, entry' := AtDotEntry(e', p, m, v), AtDotEntry(e', p, m', v');
    var c := Config(st, Yield(v) + [l], Running);
    if n <= n' {
      OneLater(e', k, st, p, l, r, entry, entry', n, n', c);
    } else {
      OneLater(e', k, st, p, l, r, entry', entry, n', n, c);
    }
  }

  lemma SameState(e: Machine, st: Stack, p: Item, m: nat, v: Tree, m': nat, v': Tree)
    requires e.g.Valid() && Shaped(e.g, e.info) && GoodAuto(e.g, e.info, e.a) && e.At(st, p) && ReadyDot(e.g, p)
    requires e.At(st + [AtDotEntry(e, p, m, v)], Next(p)) && e.At(st + [AtDotEntry(e, p, m', v')], Next(p))
    ensures m == m'
  {
    hide GoodAuto;
    var x := e.g.rules[p.rule].rhs[p.dot];
    assert LinkAt(e.g, e.a, st + [AtDotEntry(e, p, m, v)], |st|);
    assert LinkAt(e.g, e.a, st + [AtDotEntry(e, p, m', v')], |st|);
    SameTarget(e.g, e.info, e.a, Top(st), x, m, m');
  }

  // ---- what a parser reduces ----

  // The trees of x are told apart by the words they yield.
  ghost predicate Single(g: Grammar, x: Symbol) {
    forall v, v' :: TreeOf(g, v, x) && TreeOf(g, v', x) && Yield(v) == Yield(v') && Words(g, Yield(v)) ==> v == v'
  }

  // A reduce in the tables has a lookahead, even when it is taken by default.
  lemma TakenReduce(g: Grammar, info: FirstInfo, o: Output, s: nat, x: Symbol, r: nat) returns (l: Symbol)
    requires Generated(g, info, o) && s < |o.a.states| && x < g.nsymbol && r < |g.rules|
    requires Value(g, o.t, s, x) == |o.a.states| + r
    ensures ReduceAction(g, o.a, o.f, s, Action(l, REDUCE, r))
  {
    hide Raw, Finished, FollowsOf, Nullable, Begins, ConflictsResolved;
    var acts := o.lists[s];
    assert GeneratedState(g, o, s);
    var out: seq<Action>, best: Option<nat> :| Tabulated(g, o.t, s, acts, out, best);
    TablesPreserve(g, o.t, s, acts, out, best, x);
    if act :| Acts(acts, x, act) {
      var k :| 0 <= k < |acts| && acts[k] == act;
      CodeReduce(g, info, o.a, o.f, s, act, r);
      l := x;
      ReduceRaw(g, info, o.a, o.f, s, acts, k);
      assert act == Action(x, REDUCE, r);
    } else {
      assert Silent(acts, x) by {
        forall act | act in acts && Alive(act)
          ensures act.sp != x
        {
          assert !Acts(acts, x, act);
        }
      }
      assert best == Some(r);
      var k, _ := TwoReduces(acts, r, 0);
      l := acts[k].sp;
      ReduceRaw(g, info, o.a, o.f, s, acts, k);
      assert acts[k] == Action(l, REDUCE, r);
    }
  }

  lemma CodeReduce(g: Grammar, info: FirstInfo, a: Auto, f: Follow, s: nat, act: Action, r: nat)
    requires g.Valid() && Shaped(g, info) && Finished(g, info, a) && Raw(g, a, f, s, act)
    requires r < |g.rules| && Code(g, |a.states|, act) == |a.states| + r
    ensures act.typ == REDUCE && act.arg == r
  {
    if act in a.states[s].ap {
      RawShift(g, info, a, s, act);
    }
  }

  // The left-hand side of a rule with a lookahead can be told apart by its words.
  lemma ReducedSingle(g: Grammar, info: FirstInfo, o: Output, s: nat, l: Symbol, r: nat)
    requires Generated(g, info, o) && ShortRules(g) && AllConflictFree(g, o.a, o.f)
    requires LalrLookaheads(g, info, o.a, o.f) && Tight(g, info, o.a)
    requires ReduceAction(g, o.a, o.f, s, Action(l, REDUCE, r)) && g.rules[r].lhs != g.start
    ensures Single(g, g.rules[r].lhs)
  {
    hide AllConflictFree, Generated, ShortRules, GoodAuto;
    ConflictFreeDriven(g, info, o);
    GeneratedGood(g, info, o);
    var e := Machine(g, info, o.a, o.f, o.t, 0);
    HonestFrame(e);
    assert LalrClosed(g, info, o.a.states, o.f);
    hide Driven, Exact, Tight, LalrClosed, Legit, ShiftedItems, BasisListed;
    var it := Item(r, |g.rules[r].rhs|);
    var k0, st0 := LookaheadLegit(g, info, o.a, o.f, Cfg(s, it), l);
    LegitBase(g, info, o.a, k0, st0, it, l);
    var k, st := k0 - it.dot, st0[..|st0| - it.dot];
    assert !StartItem(g, Item(r, 0));
    var p := LegitOrigin(g, info, o.a, k, st, Item(r, 0), l);
    AtConfig(e, st, p);
    assert Context(e, k, st, p, l, r);
    forall v, v' | TreeOf(g, v, g.rules[r].lhs) && TreeOf(g, v', g.rules[r].lhs) && Yield(v) == Yield(v')
      && Words(g, Yield(v))
      ensures v == v'
    {
      TreesUnique(e, k, st, p, l, r, v, v');
    }
  }

  lemma GeneratedGood(g: Grammar, info: FirstInfo, o: Output)
    requires Generated(g, info, o)
    ensures g.Valid() && Exact(g, info) && GoodAuto(g, info, o.a)
  {
  }

  // ---- how large such a tree can be ----

  function Size(t: Tree): (n: nat)
    ensures n > 0
  {
    if t.Leaf? then 1 else 1 + SizeAll(t.kids)
  }

  function SizeAll(ts: seq<Tree>): nat {
    if ts == [] then 0 else Size(ts[0]) + SizeAll(ts[1..])
  }

  // Every rule used in the tree has a symbol told apart by its words.
  ghost predicate Settled(g: Grammar, t: Tree) {
    t.Node? ==>
      && t.rule < |g.rules| && Single(g, g.rules[t.rule].lhs) && g.rules[t.rule].lhs < g.nsymbol
      && |t.kids| < 256 && forall k :: 0 <= k < |t.kids| ==> Settled(g, t.kids[k])
  }

  // No more than this many nodes, with n levels of nodes.
  function SizeBound(n: nat): (m: nat)
    ensures m > 0
  {
    if n == 0 then 1 else 1 + 255 * SizeBound(n - 1)
  }

  lemma {:induction false} SizeBoundGrows(n: nat, m: nat)
    requires n <= m
    ensures SizeBound(n) <= SizeBound(m)
    decreases m
  {
    if n < m {
      SizeBoundGrows(n, m - 1);
    }
  }

  // The levels left below a tree with a yield of y tokens, when the trees of the same
  // yield above it were for k of the symbols.
  function Levels(g: Grammar, y: nat, k: nat): nat
    requires k <= g.nsymbol
  {
    y * (g.nsymbol + 1) + g.nsymbol - k
  }

  lemma LevelsDrop(g: Grammar, y: nat, y': nat, k: nat)
    requires y' < y && k <= g.nsymbol
    ensures Levels(g, y', 0) < Levels(g, y, k)
  {
    MoreTimes(y' + 1, y, g.nsymbol + 1);
    assert (y' + 1) * (g.nsymbol + 1) == y' * (g.nsymbol + 1) + g.nsymbol + 1;
  }

  lemma MoreTimes(a: nat, b: nat, c: nat)
    requires a <= b
    ensures a * c <= b * c
  {
  }

  // A larger tree of x has the same yield.
  ghost predicate Above(g: Grammar, t: Tree, x: Symbol) {
    exists big :: TreeOf(g, big, x) && Yield(big) == Yield(t) && Size(big) > Size(t)
  }

  ghost predicate AllAbove(g: Grammar, t: Tree, above: set<Symbol>) {
    forall x :: x in above ==> x < g.nsymbol && Above(g, t, x)
  }

  lemma NotAgain(g: Grammar, t: Tree, x: Symbol)
    requires TreeOf(g, t, x) && Words(g, Yield(t)) && Single(g, x)
    ensures !Above(g, t, x)
  {
  }

  lemma {:induction false} PartOf(ts: seq<Tree>, k: nat)
    requires k < |ts|
    ensures Size(ts[k]) <= SizeAll(ts) && |Yield(ts[k])| <= |YieldAll(ts)|
    ensures |Yield(ts[k])| == |YieldAll(ts)| ==> Yield(ts[k]) == YieldAll(ts)
  {
    if k > 0 {
      PartOf(ts[1..], k - 1);
      var u, v := Yield(ts[0]), YieldAll(ts[1..]);
      if |v| == |u + v| {
        assert u + v == v;
      }
    } else {
      var u, v := Yield(ts[0]), YieldAll(ts[1..]);
      if |u| == |u + v| {
        assert u + v == u;
      }
    }
  }

  lemma {:induction false} WordOf(g: Grammar, ts: seq<Tree>, k: nat)
    requires k < |ts| && Words(g, YieldAll(ts))
    ensures Words(g, Yield(ts[k]))
  {
    WordsSplit(g, Yield(ts[0]), YieldAll(ts[1..]));
    if k > 0 {
      WordOf(g, ts[1..], k - 1);
    }
  }

  lemma {:induction false} SumBound(ts: seq<Tree>, m: nat)
    requires forall k :: 0 <= k < |ts| ==> Size(ts[k]) <= m
    ensures SizeAll(ts) <= |ts| * m
  {
    if ts != [] {
      SumBound(ts[1..], m);
      assert |ts| * m == m + (|ts| - 1) * m;
    }
  }

  // The tree of a word is no larger than the number of its tokens allows.
  lemma {:induction false} TreeBound(g: Grammar, t: Tree, x: Symbol, above: set<Symbol>)
    requires TreeOf(g, t, x) && Words(g, Yield(t)) && Settled(g, t) && AllAbove(g, t, above) && |above| <= g.nsymbol
    ensures Size(t) <= SizeBound(Levels(g, |Yield(t)|, |above|))
    decreases t
  {
    if t.Node? {
      var kids, n := t.kids, Levels(g, |Yield(t)|, |above|);
      NotAgain(g, t, x);
      var above' := above + {x};
      BelowAll(g, above');
      assert above' - {x} == above && |above'| == |above| + 1;
      hide Single, Levels, Above, TreeOf, Words;
      LevelsLeft(g, |Yield(t)|, |above|);
      forall k | 0 <= k < |kids|
        ensures Size(kids[k]) <= SizeBound(n - 1)
      {
        KidBound(g, t, x, above', k);
      }
      NodeBound(kids, SizeBound(n - 1));
    }
  }

  lemma LevelsLeft(g: Grammar, y: nat, k: nat)
    requires k < g.nsymbol
    ensures Levels(g, y, k) > 0
  {
  }

  lemma NodeBound(kids: seq<Tree>, m: nat)
    requires |kids| < 256 && forall k :: 0 <= k < |kids| ==> Size(kids[k]) <= m
    ensures 1 + SizeAll(kids) <= 1 + 255 * m
  {
    SumBound(kids, m);
    MoreTimes(|kids|, 255, m);
  }

  lemma BelowAll(g: Grammar, s: set<Symbol>)
    requires forall x :: x in s ==> x < g.nsymbol
    ensures |s| <= g.nsymbol
  {
    assert s <= UpTo(g.nsymbol);
    SubsetCount(s, UpTo(g.nsymbol));
  }

  lemma {:induction false} KidBound(g: Grammar, t: Tree, x: Symbol, above: set<Symbol>, k: nat)
    requires t.Node? && k < |t.kids| && TreeOf(g, t, x) && Words(g, Yield(t)) && Settled(g, t)
    requires AllAbove(g, t, above - {x}) && x in above && |above| <= g.nsymbol
    ensures Levels(g, |Yield(t)|, |above| - 1) > 0
    ensures Size(t.kids[k]) <= SizeBound(Levels(g, |Yield(t)|, |above| - 1) - 1)
    decreases t, 0
  {
    var kid := t.kids[k];
    PartOf(t.kids, k);
    WordOf(g, t.kids, k);
    if |Yield(kid)| == |Yield(t)| {
      forall y | y in above
        ensures y < g.nsymbol && Above(g, kid, y)
      {
        if y == x {
          assert TreeOf(g, t, x) && Size(t) > Size(kid);
        } else {
          assert Above(g, t, y);
          var big :| TreeOf(g, big, y) && Yield(big) == Yield(t) && Size(big) > Size(t);
        }
      }
      TreeBound(g, kid, g.rules[t.rule].rhs[k], above);
    } else {
      TreeBound(g, kid, g.rules[t.rule].rhs[k], {});
      LevelsDrop(g, |Yield(t)|, |Yield(kid)|, |above| - 1);
      SizeBoundGrows(Levels(g, |Yield(kid)|, 0), Levels(g, |Yield(t)|, |above| - 1) - 1);
    }
  }

  // ---- every turn makes the trees on the stack larger ----

  function StackSize(st: Stack): nat {
    SizeAll(Minors(st))
  }

  // The bottom entry has no tree, the trees of the others are settled.
  ghost predicate TreesSettled(g: Grammar, st: Stack) {
    (st != [] ==> st[0].minor.Leaf?) && forall k :: 0 <= k < |st| ==> Settled(g, st[k].minor)
  }

  // Only rules with settled symbols are reduced.
  ghost predicate Settling(g: Grammar, a: Auto, t: Tables)
    requires t.Shaped(|t.dflt|) && |a.states| == |t.dflt|
  {
    forall s: nat, x: Symbol, r: nat ::
      (s < |a.states| && x < g.nterminal && r < |g.rules| && g.rules[r].lhs != g.start
       && FindShiftAction(g, t, s, x) == |a.states| + r) ==> Single(g, g.rules[r].lhs)
  }

  ghost predicate Bounded(g: Grammar, depth: nat, st: Stack) {
    TreesSettled(g, st) && |st| <= depth
  }

  lemma {:induction false} SizeAllConcat(a: seq<Tree>, b: seq<Tree>)
    ensures SizeAll(a + b) == SizeAll(a) + SizeAll(b)
  {
    if a == [] {
      assert a + b == b;
    } else {
      assert (a + b)[1..] == a[1..] + b;
      SizeAllConcat(a[1..], b);
    }
  }

  lemma JoinedSize(st: Stack, top: Stack)
    ensures StackSize(st + top) == StackSize(st) + SizeAll(Minors(top))
  {
    assert Minors(st + top) == Minors(st) + Minors(top);
    SizeAllConcat(Minors(st), Minors(top));
  }

  lemma PushedSize(st: Stack, e: Entry)
    ensures StackSize(st + [e]) == StackSize(st) + Size(e.minor)
  {
    JoinedSize(st, [e]);
    assert Minors([e]) == [e.minor];
    assert [e.minor][1..] == [];
  }

  lemma PushedSettled(g: Grammar, st: Stack, e: Entry)
    requires st != [] && TreesSettled(g, st) && Settled(g, e.minor)
    ensures TreesSettled(g, st + [e])
  {
    hide Settled;
  }

  // What is left under the right-hand side.
  lemma RestBelow(g: Grammar, a: Auto, t: Tables, depth: nat, st: Stack, r: nat) returns (rest: Stack)
    requires Honest(g, a, t) && ShortRules(g) && Chain(g, a, st) && CompleteIn(g, a, Top(st), r)
    ensures |g.rules[r].rhs| < |st| && |g.rules[r].rhs| < 256 && g.rules[r].lhs < g.nsymbol
    ensures rest == st[..|st| - |g.rules[r].rhs|] && Chain(g, a, rest) && Usable(t, rest)
    ensures Top(rest) < |a.states| && Item(r, 0) in a.states[Top(rest)].c.items
    ensures Reduced(g, t, depth, st, r) == Goto(g, t, depth, rest, g.rules[r].lhs, ReduceValue(g, st, r))
  {
    RhsOnStack(g, a, t, st, r);
    rest := st[..|st| - |g.rules[r].rhs|];
    ChainPrefix(g, a, st, |rest|);
    HonestParts(g, a, t, rest);
    hide Honest, Chain, Goto, MeansAll, ReduceValue;
    assert g.rules[r] in g.rules;
    assert Popped(st, PopSize(g, r)) == rest;
  }

  // A reduce that goes on pushes one node over the trees it took.
  lemma ReducedGrows(g: Grammar, a: Auto, t: Tables, depth: nat, st: Stack, r: nat)
    requires Honest(g, a, t) && ShortRules(g) && Chain(g, a, st) && CompleteIn(g, a, Top(st), r)
    requires Bounded(g, depth, st) && (g.rules[r].lhs != g.start ==> Single(g, g.rules[r].lhs))
    ensures var (st', out) := Reduced(g, t, depth, st, r);
            out == Running ==> StackSize(st') == StackSize(st) + 1 && Bounded(g, depth, st')
  {
    hide Honest, Chain, Reduced, Goto, Single, TreesSettled, Usable, StackSize, ReduceValue;
    var rest := RestBelow(g, a, t, depth, st, r);
    var m := GotoPushes(g, a, t, depth, rest, r, ReduceValue(g, st, r));
    if g.rules[r].lhs != g.start && |rest| < depth {
      NodeGrows(g, st, r, m);
    }
  }

  lemma NodeGrows(g: Grammar, st: Stack, r: nat, m: nat)
    requires r < |g.rules| && |g.rules[r].rhs| < |st| && |g.rules[r].rhs| < 256 && TreesSettled(g, st)
    requires Single(g, g.rules[r].lhs) && g.rules[r].lhs < g.nsymbol
    ensures var st' := st[..|st| - |g.rules[r].rhs|] + [Entry(m, g.rules[r].lhs, ReduceValue(g, st, r))];
            StackSize(st') == StackSize(st) + 1 && TreesSettled(g, st')
  {
    hide Single, StackSize;
    var n := |g.rules[r].rhs|;
    var rest, top, value := st[..|st| - n], st[|st| - n..], ReduceValue(g, st, r);
    var e := Entry(m, g.rules[r].lhs, value);
    assert rest + top == st && value == Node(r, Minors(top));
    JoinedSize(rest, top);
    PushedSize(rest, e);
    assert Settled(g, value) by {
      forall k | 0 <= k < n
        ensures Settled(g, value.kids[k])
      {
        assert value.kids[k] == st[|st| - n + k].minor;
      }
    }
    hide Settled;
    assert TreesSettled(g, rest);
    PushedSettled(g, rest, e);
  }

  lemma GotoPushes(g: Grammar, a: Auto, t: Tables, depth: nat, rest: Stack, r: nat, value: Tree) returns (m: nat)
    requires Honest(g, a, t) && Chain(g, a, rest) && r < |g.rules| && Top(rest) < |a.states|
    requires Item(r, 0) in a.states[Top(rest)].c.items && Usable(t, rest)
    ensures var (st', out) := Goto(g, t, depth, rest, g.rules[r].lhs, value);
            out == Running ==>
              g.rules[r].lhs != g.start && |rest| < depth && st' == rest + [Entry(m, g.rules[r].lhs, value)]
  {
    hide MeansAll, ShiftedItems, BasisListed, FindReduceAction, GoodShift;
    assert GotoFound(g, a, t, Top(rest), r);
    var v := FindReduceAction(g, t, Top(rest), g.rules[r].lhs);
    m := if 0 <= v < |t.dflt| then v else 0;
  }

  lemma LeafGrows(g: Grammar, depth: nat, st: Stack, e: Entry)
    requires st != [] && Bounded(g, depth, st) && e.minor.Leaf? && |st| < depth
    ensures StackSize(st + [e]) == StackSize(st) + 1 && Bounded(g, depth, st + [e])
  {
    PushedSize(st, e);
    PushedSettled(g, st, e);
  }

  lemma TurnGrows(g: Grammar, a: Auto, t: Tables, depth: nat, c: Config)
    requires Honest(g, a, t) && ShortRules(g) && |t.dflt| == |a.states| && Settling(g, a, t)
    requires Chain(g, a, c.st) && c.out == Running && c.input != [] && c.input[0] < g.nterminal
      && Bounded(g, depth, c.st)
    ensures var c' := Turn(g, t, depth, c);
            c'.out == Running ==> StackSize(c'.st) == StackSize(c.st) + 1 && Bounded(g, depth, c'.st)
  {
    HonestParts(g, a, t, c.st);
    hide Honest, ShiftedItems, BasisListed, Chain, Reduced, GoodShift, FindShiftAction, FindReduceAction, Bounded,
      StackSize, ShortRules, Single, CompleteIn, Settling;
    var s, x, n := Top(c.st), c.input[0], |a.states|;
    var v := Value(g, t, s, x);
    assert Means(g, a, s, x, v);
    if v < n {
      if |c.st| < depth {
        LeafGrows(g, depth, c.st, Entry(v, x, Leaf(x)));
      }
    } else if v < n + |g.rules| {
      SettlingAt(g, a, t, s, x, v - n);
      ReducedGrows(g, a, t, depth, c.st, v - n);
    }
  }

  lemma SettlingAt(g: Grammar, a: Auto, t: Tables, s: nat, x: Symbol, r: nat)
    requires t.Shaped(|t.dflt|) && |a.states| == |t.dflt| && Settling(g, a, t) && s < |a.states| && x < g.nterminal
    requires r < |g.rules| && FindShiftAction(g, t, s, x) == |a.states| + r
    ensures g.rules[r].lhs != g.start ==> Single(g, g.rules[r].lhs)
  {
  }

  // The end marker stays on the input until the run ends.
  lemma InputLeft(g: Grammar, a: Auto, w: Form, c: Config)
    requires RunOk(g, a, w + [0], c) && c.out == Running && Tokens(g, w + [0])
    ensures Chain(g, a, c.st) && c.input != [] && c.input[0] < g.nterminal && |Consumed(w + [0], c)| <= |w|
    ensures TreesOk(g, c.st) && Held(c.st) == Consumed(w + [0], c) && Words(g, Held(c.st))
  {
    hide LinkAt, TreeOf;
    var all := w + [0];
    var u := Consumed(all, c);
    assert all[|w|] == 0 && (|u| == |all| ==> u == all);
    assert c.input != [];
    assert c.input[0] == all[|all| - |c.input|];
  }

  lemma {:induction false} GoGrows(g: Grammar, a: Auto, t: Tables, depth: nat, w: Form, c: Config, n: nat)
    requires Honest(g, a, t) && ShortRules(g) && |t.dflt| == |a.states| && Settling(g, a, t)
    requires RunOk(g, a, w + [0], c) && Tokens(g, w + [0]) && Bounded(g, depth, c.st)
    ensures var c' := Go(g, t, depth, c, n);
            c'.out == Running ==> StackSize(c'.st) == StackSize(c.st) + n && Bounded(g, depth, c'.st)
    decreases n
  {
    hide Honest, RunOk, Turn, Settling, Bounded, StackSize, ShortRules, Chain;
    if n > 0 {
      if c.out == Running {
        InputLeft(g, a, w, c);
        TurnGrows(g, a, t, depth, c);
        TurnRunOk(g, a, t, depth, w + [0], c);
        var c1 := Turn(g, t, depth, c);
        if c1.out == Running {
          GoGrows(g, a, t, depth, w, c1, n - 1);
        } else {
          GoDone(g, t, depth, c1, n - 1);
        }
      } else {
        GoDone(g, t, depth, c, n);
      }
    }
  }

  // ---- so the run ends ----

  // Turns enough for y tokens.
  function TurnBound(g: Grammar, depth: nat, y: nat): nat {
    depth * SizeBound(Levels(g, y, 0))
  }

  lemma StackBound(g: Grammar, a: Auto, depth: nat, w: Form, c: Config)
    requires RunOk(g, a, w + [0], c) && c.out == Running && Tokens(g, w + [0]) && Bounded(g, depth, c.st)
    ensures StackSize(c.st) <= TurnBound(g, depth, |w|)
  {
    InputLeft(g, a, w, c);
    hide RunOk, Chain, Settled, TreeOf;
    var ts, m := Minors(c.st), SizeBound(Levels(g, |w|, 0));
    forall k | 0 <= k < |ts|
      ensures Size(ts[k]) <= m
    {
      if k > 0 {
        EntryBound(g, c.st, k, |w|);
      }
    }
    SumBound(ts, m);
    MoreTimes(|ts|, depth, m);
  }

  lemma EntryBound(g: Grammar, st: Stack, k: nat, y: nat)
    requires 0 < k < |st| && TreesSettled(g, st) && TreesOk(g, st) && Words(g, Held(st)) && |Held(st)| <= y
    ensures Size(st[k].minor) <= SizeBound(Levels(g, y, 0))
  {
    hide Settled, TreeOf;
    var ts := Minors(st[1..]);
    assert ts[k - 1] == st[k].minor;
    PartOf(ts, k - 1);
    WordOf(g, ts, k - 1);
    TreeBound(g, st[k].minor, st[k].major, {});
    var n := |Yield(st[k].minor)|;
    MoreTimes(n, y, g.nsymbol + 1);
    SizeBoundGrows(Levels(g, n, 0), Levels(g, y, 0));
  }

  lemma GeneratedSettling(g: Grammar, info: FirstInfo, o: Output)
    requires Generated(g, info, o) && ShortRules(g) && AllConflictFree(g, o.a, o.f)
    requires LalrLookaheads(g, info, o.a, o.f) && Tight(g, info, o.a)
    ensures |o.t.dflt| == |o.a.states| && o.t.Shaped(|o.t.dflt|) && Settling(g, o.a, o.t)
  {
    assert |o.t.dflt| == |o.a.states| && o.t.Shaped(|o.t.dflt|);
    hide Generated, AllConflictFree, ShortRules, LalrLookaheads, Tight, Single, FindShiftAction;
    GeneratedGood(g, info, o);
    forall s: nat, x: Symbol, r: nat |
      s < |o.a.states| && x < g.nterminal && r < |g.rules| && g.rules[r].lhs != g.start
      && FindShiftAction(g, o.t, s, x) == |o.a.states| + r
      ensures Single(g, g.rules[r].lhs)
    {
      assert Value(g, o.t, s, x) == |o.a.states| + r;
      var l := TakenReduce(g, info, o, s, x, r);
      ReducedSingle(g, info, o, s, l, r);
    }
  }

  lemma SettledEnds(g: Grammar, a: Auto, t: Tables, depth: nat, w: Form)
    requires Honest(g, a, t) && ShortRules(g) && |t.dflt| == |a.states| && Settling(g, a, t)
    requires depth > 0 && Tokens(g, w + [0])
    ensures Go(g, t, depth, Started(w + [0]), TurnBound(g, depth, |w|)).out != Running
  {
    HonestStates(g, a, t);
    hide Settling, Honest, ShortRules, RunOk, Go, StackSize;
    var c0, n := Started(w + [0]), TurnBound(g, depth, |w|);
    StartRunOk(g, a, w + [0]);
    StartSize(g, depth, w + [0]);
    hide Bounded, TurnBound, Tokens;
    GoGrows(g, a, t, depth, w, c0, n);
    GoRunOk(g, a, t, depth, w + [0], c0, n);
    var c := Go(g, t, depth, c0, n);
    if c.out == Running {
      StackBound(g, a, depth, w, c);
    }
  }

  lemma StartSize(g: Grammar, depth: nat, input: Form)
    requires depth > 0
    ensures StackSize(Started(input).st) == 1 && Bounded(g, depth, Started(input).st)
  {
    var st := Started(input).st;
    assert Minors(st) == [Leaf(0)];
    assert [Leaf(0)][1..] == [];
  }

  // Every run comes to an end, whatever the tokens, after at most so many turns.
  lemma RunEnds(g: Grammar, info: FirstInfo, o: Output, depth: nat, w: Form)
    requires Generated(g, info, o) && ShortRules(g) && AllConflictFree(g, o.a, o.f) && depth > 0 && Words(g, w)
    requires LalrLookaheads(g, info, o.a, o.f) && Tight(g, info, o.a)
    ensures Go(g, o.t, depth, Started(w + [0]), TurnBound(g, depth, |w|)).out != Running
  {
    hide Generated, AllConflictFree, LalrLookaheads, Tight, Settling, Honest, ShortRules, Go, TurnBound;
    GeneratedSettling(g, info, o);
    GeneratedHonest(g, info, o);
    TokensOf(g, info, o, w);
    SettledEnds(g, o.a, o.t, depth, w);
  }

  // The answer for the word w. A sentence is accepted with its tree unless that needs more
  // stack; any other word is a syntax error, unless the stack overflows first.
  ghost predicate Verdict(g: Grammar, depth: nat, w: Form, out: Outcome) {
    && (forall v ::
      TreeOf(g, v, g.start) && Yield(v) == w ==> out == if StackNeed(v) <= depth then Accepted(v) else Overflow)
    && (Sentence(g, w) ==> out.Accepted? || out.Overflow?)
    && (!Sentence(g, w) ==> out.SyntaxError? || out.Overflow?)
  }

  // Completeness at the end of a run.
  lemma TreeVerdict(g: Grammar, info: FirstInfo, o: Output, depth: nat, w: Form, n: nat, v: Tree)
    requires Generated(g, info, o) && ShortRules(g) && AllConflictFree(g, o.a, o.f) && depth > 0 && Words(g, w)
    requires Go(g, o.t, depth, Started(w + [0]), n).out != Running && TreeOf(g, v, g.start) && Yield(v) == w
    ensures Go(g, o.t, depth, Started(w + [0]), n).out == if StackNeed(v) <= depth then Accepted(v) else Overflow
  {
    hide Generated, ShortRules, AllConflictFree, Driven, Go, TreeOf;
    ConflictFreeDriven(g, info, o);
    var m := SentenceRun(Machine(g, info, o.a, o.f, o.t, depth), v);
    GoAgrees(g, o.t, depth, Started(w + [0]), n, m);
  }

  // Soundness there.
  lemma AcceptedSentence(g: Grammar, info: FirstInfo, o: Output, depth: nat, w: Form, n: nat)
    requires Generated(g, info, o) && ShortRules(g) && Words(g, w)
    requires Go(g, o.t, depth, Started(w + [0]), n).out.Accepted?
    ensures Sentence(g, w)
  {
    hide Generated, ShortRules, Go, TreeOf, Derives;
    AcceptedWord(g, info, o, depth, w, n);
    TreeDerives(g, Go(g, o.t, depth, Started(w + [0]), n).out.value, g.start);
  }

  lemma RunVerdict(g: Grammar, info: FirstInfo, o: Output, depth: nat, w: Form)
    requires Generated(g, info, o) && ShortRules(g) && AllConflictFree(g, o.a, o.f) && depth > 0 && Words(g, w)
    requires LalrLookaheads(g, info, o.a, o.f) && Tight(g, info, o.a)
    ensures Verdict(g, depth, w, Go(g, o.t, depth, Started(w + [0]), TurnBound(g, depth, |w|)).out)
  {
    hide Generated, ShortRules, AllConflictFree, LalrLookaheads, Tight, Go, TurnBound, TreeOf, Sentence;
    RunEnds(g, info, o, depth, w);
    var n := TurnBound(g, depth, |w|);
    var out := Go(g, o.t, depth, Started(w + [0]), n).out;
    if out.Accepted? {
      AcceptedSentence(g, info, o, depth, w, n);
    }
    forall v | TreeOf(g, v, g.start) && Yield(v) == w
      ensures out == if StackNeed(v) <= depth then Accepted(v) else Overflow
    {
      TreeVerdict(g, info, o, depth, w, n, v);
    }
    if Sentence(g, w) {
      var v := SentenceTree(g, w);
    }
  }

  lemma SentenceTree(g: Grammar, w: Form) returns (v: Tree)
    requires Sentence(g, w)
    ensures TreeOf(g, v, g.start) && Yield(v) == w
  {
    var n: nat :| DerivesIn(g, n, [g.start], w);
    var ts := DerivationForest(g, n, [g.start], w);
    v := ts[0];
    assert ts == [v];
    YieldAllOne(v);
  }

  // The generated parser, token by token: with turns enough it ends with its verdict.
  lemma ParserEnds(g: Grammar, info: FirstInfo, o: Output, depth: nat, w: Form, turns: nat)
    requires Generated(g, info, o) && ShortRules(g) && AllConflictFree(g, o.a, o.f) && depth > 0 && Words(g, w)
    requires LalrLookaheads(g, info, o.a, o.f) && Tight(g, info, o.a)
    requires w != [] && turns >= TurnBound(g, depth, |w|)
    ensures Verdict(g, depth, w, Drive(g, o.t, depth, [], w + [0], turns).out)
  {
    RunEnds(g, info, o, depth, w);
    RunVerdict(g, info, o, depth, w);
    hide Generated, AllConflictFree, LalrLookaheads, Tight, Honest, ShortRules, RunOk, Go, Drive, TurnBound, Verdict;
    var tokens := w + [0];
    GeneratedHonest(g, info, o);
    HonestStates(g, o.a, o.t);
    TokensOf(g, info, o, w);
    StartRunOk(g, o.a, tokens);
    GoToDrive(g, o.a, o.t, depth, tokens, Started(w).st, tokens, TurnBound(g, depth, |w|), turns);
    DriveStart(g, o.t, depth, w, turns);
  }
}
