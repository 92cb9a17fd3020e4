// A terminal that can really follow an item is taken off the input: the run on it ends by
// shifting or accepting it, or with a full stack.

module Consumption {
  import opened Grammars
  import opened FirstSets
  import opened States
  import opened Automaton
  import opened Lookaheads
  import opened Tables
  import opened Decisions
  import opened Driver
  import opened Soundness
  import opened Completeness
  import opened Lalr
  import opened Contexts

  // ---- forests that need not be complete ----

  // The trees of nullable symbols.
  lemma {:induction false} NullForest(g: Grammar, info: FirstInfo, a: Form) returns (ts: seq<Tree>)
    requires g.Valid() && Exact(g, info) && Symbols(g, a) && NullSeq(g, info, a)
    ensures ForestOf(g, ts, a) && YieldAll(ts) == []
  {
    if a == [] {
      ts := [];
    } else {
      var rest := NullForest(g, info, a[1..]);
      assert Skips(g, info, a[0]) && Nullable(g, [a[0]]);
      var n: nat :| DerivesIn(g, n, [a[0]], []);
      var first := DerivationForest(g, n, [a[0]], []);
      ts := JoinForest(g, first, rest, a);
    }
  }

  lemma JoinForest(g: Grammar, first: seq<Tree>, rest: seq<Tree>, a: Form) returns (ts: seq<Tree>)
    requires a != [] && ForestOf(g, first, [a[0]]) && ForestOf(g, rest, a[1..])
    ensures ForestOf(g, ts, a) && YieldAll(ts) == YieldAll(first) + YieldAll(rest)
  {
    ts := first + rest;
    ForestConcat(g, first, [a[0]], rest, a[1..]);
    YieldAllConcat(first, rest);
    assert [a[0]] + a[1..] == a;
  }

  // A forest that begins with a terminal in FIRST; its leaves may be nonterminals.
  lemma {:induction false} FirstForest(g: Grammar, info: FirstInfo, a: Form, l: Symbol) returns (ts: seq<Tree>)
    requires g.Valid() && Exact(g, info) && Symbols(g, a) && l in FirstSeq(g, info, a) && l < g.nterminal
    ensures ForestOf(g, ts, a) && YieldAll(ts) != [] && YieldAll(ts)[0] == l
  {
    if l in FirstOf(g, info.first, a[0]) {
      var first := FirstOfOne(g, info, a[0], l);
      var rest := YieldLeaves(g, a[1..]);
      ts := JoinForest(g, first, rest, a);
    } else {
      var rest := FirstForest(g, info, a[1..], l);
      assert Skips(g, info, a[0]) && Nullable(g, [a[0]]);
      var n: nat :| DerivesIn(g, n, [a[0]], []);
      var first := DerivationForest(g, n, [a[0]], []);
      ts := JoinForest(g, first, rest, a);
      assert [] + YieldAll(rest) == YieldAll(rest);
    }
  }

  lemma FirstOfOne(g: Grammar, info: FirstInfo, x: Symbol, l: Symbol) returns (ts: seq<Tree>)
    requires g.Valid() && Exact(g, info) && x < g.nsymbol && l in FirstOf(g, info.first, x) && l < g.nterminal
    ensures ForestOf(g, ts, [x]) && YieldAll(ts) != [] && YieldAll(ts)[0] == l
  {
    if x < g.nterminal {
      ts := YieldLeaves(g, [x]);
    } else {
      var k := x - g.nterminal;
      assert g.nterminal + k == x && Begins(g, [x], l);
      var rest: Form :| Derives(g, [x], [l] + rest);
      var n: nat :| DerivesIn(g, n, [x], [l] + rest);
      ts := DerivationForest(g, n, [x], [l] + rest);
    }
  }

  // The other way round.
  lemma {:induction false} ForestBegins(g: Grammar, info: FirstInfo, ts: seq<Tree>, a: Form)
    requires g.Valid() && Exact(g, info) && ForestOf(g, ts, a) && Symbols(g, a)
    requires YieldAll(ts) != [] && YieldAll(ts)[0] < g.nterminal
    ensures YieldAll(ts)[0] in FirstSeq(g, info, a)
  {
    var u, v := Yield(ts[0]), YieldAll(ts[1..]);
    assert TreeOf(g, ts[0], a[0]);
    TreeDerives(g, ts[0], a[0]);
    if u == [] {
      assert Nullable(g, [a[0]]) && Skips(g, info, a[0]) by { SkipsEmpty(g, info, ts[0], a[0]); }
      assert u + v == v;
      ForestBegins(g, info, ts[1..], a[1..]);
    } else {
      TerminalTree(g, ts[0], a[0]);
      FirstToken(g, info, a[0], u);
    }
  }

  lemma SkipsEmpty(g: Grammar, info: FirstInfo, t: Tree, s: Symbol)
    requires g.Valid() && Exact(g, info) && TreeOf(g, t, s) && Yield(t) == [] && s < g.nsymbol
    ensures Nullable(g, [s]) && Skips(g, info, s)
  {
    TreeDerives(g, t, s);
    assert Nullable(g, [s]);
    LeafOfWord(g, t, s);
  }

  lemma TerminalTree(g: Grammar, t: Tree, s: Symbol)
    requires g.Valid() && TreeOf(g, t, s)
    ensures s < g.nterminal ==> Yield(t) == [s]
  {
    if t.Node? {
      assert g.ValidRule(g.rules[t.rule]);
    }
  }

  // ---- runs ----

  ghost predicate Ended(c: Config) {
    c.out != Running || c.input == []
  }

  lemma {:induction false} EndedStays(g: Grammar, t: Tables, depth: nat, c: Config, n: nat, m: nat)
    requires n <= m && Ended(Go(g, t, depth, c, n))
    ensures Go(g, t, depth, c, m) == Go(g, t, depth, c, n)
  {
    hide Go;
    GoAdd(g, t, depth, c, n, m - n);
    GoDone(g, t, depth, Go(g, t, depth, c, n), m - n);
  }

  // A machine whose lookaheads are those of LALR(1).
  ghost predicate Proper(e: Machine) {
    e.Valid() && e.g.Valid() && Shaped(e.g, e.info) && LalrClosed(e.g, e.info, e.a.states, e.f)
  }

  lemma PredictedAt(e: Machine, st: Stack, p: Item, r: nat)
    requires e.Valid() && e.At(st, p) && r < |e.g.rules| && AtDot(e.g, p, e.g.rules[r].lhs)
    ensures e.At(st, Item(r, 0))
  {
    hide MeansAll, GotosFound, BasisListed, ShiftedItems, Nullable, Begins, ReducesFound, ShiftsFound, StartsFound,
      LinkAt;
    AtItem(e, st, p);
    assert Predicts(e.g, p, Item(r, 0));
    assert PredictionFound(e.g, e.info, e.a, e.f, Top(st), p, Item(r, 0));
  }

  // The tree of the symbol at the dot yields nothing: it is built.
  lemma BuildsEmpty(e: Machine, st: Stack, p: Item, ts: seq<Tree>, l: Symbol) returns (n: nat, entry: Entry)
    requires e.Valid() && e.At(st, p) && ReadyDot(e.g, p)
    requires ForestOf(e.g, ts, e.g.rules[p.rule].rhs[p.dot..]) && ts != [] && Yield(ts[0]) == []
    requires YieldAll(ts[1..]) != [] && YieldAll(ts[1..])[0] == l < e.g.nterminal
    ensures var c := e.Run(Config(st, [l], Running), n);
            c.out == Overflow || (c == Config(st + [entry], [l], Running) && e.At(st + [entry], Next(p)))
  {
    hide Driven, Chain, Turn, Exact, ShortRules, ShiftedItems, BasisListed;
    HonestFrame(e);
    AtItem(e, st, p);
    TailOf(e.g.rules[p.rule].rhs, p.dot);
    ForestBegins(e.g, e.info, ts[1..], Rest(e.g, p));
    hide FirstSeq, NullSeq;
    assert Leaves(e, st, p, l);
    assert TreeOf(e.g, ts[0], e.g.rules[p.rule].rhs[p.dot]);
    hide TreeOf;
    var m;
    n, m := TreeRun(e, st, p, ts[0], [l]);
    assert [] + [l] == [l];
    entry := AtDotEntry(e, p, m, ts[0]);
  }

  lemma ShiftsIt(e: Machine, st: Stack, p: Item, l: Symbol)
    requires e.Valid() && e.At(st, p) && AtDot(e.g, p, l)
    requires l < e.g.nterminal
    ensures Ended(e.Run(Config(st, [l], Running), 1))
  {
    var m := AdvanceChain(e, st, p, Leaf(l));
    hide Driven, Chain;
    ShiftTurn(e.g, e.t, e.depth, st, l, [], m);
    assert [l] + [] == [l];
    OneTurn(e, Config(st, [l], Running));
  }

  // From the form behind the dot of p the terminal l can come first: it is shifted.
  lemma {:induction false} FirstShift(e: Machine, st: Stack, p: Item, ts: seq<Tree>, l: Symbol) returns (n: nat)
    requires e.Valid() && e.At(st, p) && p.rule < |e.g.rules| && p.dot <= |e.g.rules[p.rule].rhs|
    requires ForestOf(e.g, ts, e.g.rules[p.rule].rhs[p.dot..]) && YieldAll(ts) != []
      && YieldAll(ts)[0] == l < e.g.nterminal
    ensures Ended(e.Run(Config(st, [l], Running), n))
    decreases ts
  {
    hide Driven, Chain, Turn;
    TailOf(e.g.rules[p.rule].rhs, p.dot);
    var x, u, v := e.g.rules[p.rule].rhs[p.dot], Yield(ts[0]), YieldAll(ts[1..]);
    assert TreeOf(e.g, ts[0], x);
    if u == [] {
      assert u + v == v;
      var i, entry := BuildsEmpty(e, st, p, ts, l);
      n := i;
      if e.Run(Config(st, [l], Running), i).out != Overflow {
        var j := FirstShift(e, st + [entry], Next(p), ts[1..], l);
        n := i + j;
        GoAdd(e.g, e.t, e.depth, Config(st, [l], Running), i, j);
      }
    } else if ts[0].Leaf? {
      ShiftsIt(e, st, p, l);
      n := 1;
    } else {
      var r, kids := ts[0].rule, ts[0].kids;
      PredictedAt(e, st, p, r);
      assert e.g.rules[r].rhs[0..] == e.g.rules[r].rhs;
      n := FirstShift(e, st, Item(r, 0), kids, l);
    }
  }

  lemma OneTurn(e: Machine, c: Config)
    ensures e.Run(c, 1) == Turn(e.g, e.t, e.depth, c)
  {
    hide Turn;
  }

  // ---- the whole way down to where the terminal comes from ----

  function Behind(g: Grammar, it: Item): Form
    requires ValidItem(g, it)
  {
    g.rules[it.rule].rhs[it.dot..]
  }

  // On the stack st the terminal l can come at the dot of it.
  ghost predicate Comes(e: Machine, k: nat, st: Stack, it: Item, l: Symbol)
    requires e.g.Valid() && Shaped(e.g, e.info)
  {
    && e.At(st, it) && ValidItem(e.g, it) && Symbols(e.g, Behind(e.g, it)) && l < e.g.nterminal
    && (|| l in FirstSeq(e.g, e.info, Behind(e.g, it))
        || (NullSeq(e.g, e.info, Behind(e.g, it)) && Legit(e.g, e.info, e.a, k, st, it, l)))
  }

  // The rest of the rule is empty: the rule is reduced.
  lemma ReadyToReduce(e: Machine, k: nat, st: Stack, it: Item, l: Symbol) returns (n: nat, top: Stack)
    requires Proper(e) && Comes(e, k, st, it, l) && NullSeq(e.g, e.info, Behind(e.g, it))
      && Legit(e.g, e.info, e.a, k, st, it, l)
    ensures var c := e.Run(Config(st, [l], Running), n);
            c.out == Overflow ||
            (c == Config(st + top, [l], Running) && |top| == |Behind(e.g, it)|
              && Filled(e, st, top, it.rule, Minors(top), l))
  {
    hide Driven, Turn, Exact, Legit, LalrClosed, ShiftedItems, BasisListed, ShortRules, Chain;
    HonestFrame(e);
    var kids := NullForest(e.g, e.info, Behind(e.g, it));
    LegitInFollow(e.g, e.info, e.a, e.f, k, st, it, l);
    assert e.Awaits(st, Item(it.rule, it.dot), l);
    n, top := ForestRun(e, st, it.rule, it.dot, kids, [l]);
    assert [] + [l] == [l];
    assert |Minors(top)| == |top|;
  }

  // The right-hand side on the stack, and what is below it.
  lemma Halves(st: Stack, top: Stack, dot: nat)
    requires dot < |st|
    ensures var base := st[..|st| - dot]; st + top == base + (st[|st| - dot..] + top)
    ensures |st[|st| - dot..] + top| == dot + |top|
  {
  }

  // The item the reduce goes on with.
  lemma NextComes(e: Machine, k: nat, base: Stack, p: Item, it: Item, l: Symbol, entry: Entry)
    requires Proper(e) && e.At(base, p) && Predicts(e.g, p, it) && l < e.g.nterminal && k > 0
    requires After(e.g, e.info, e.a, k, base, p, it, l) && e.At(base + [entry], Next(p))
    ensures Comes(e, if k >= 2 then k - 1 else 0, base + [entry], Next(p), l)
    ensures l in FirstSeq(e.g, e.info, Behind(e.g, Next(p))) || k >= 2
  {
    hide Driven, LalrClosed, Legit, Exact;
    AtItem(e, base, p);
    AtItem(e, base + [entry], Next(p));
    assert Behind(e.g, Next(p)) == Rest(e.g, p);
    if !Spontaneous(e.g, e.info, p, it, l) {
      LegitAcross(e.g, e.info, e.a, k - 2, base, p, l, entry);
    }
  }

  lemma {:induction false} Consumes(e: Machine, k: nat, st: Stack, it: Item, l: Symbol) returns (n: nat)
    requires Proper(e) && Comes(e, k, st, it, l)
    ensures Ended(e.Run(Config(st, [l], Running), n))
    decreases k, 2
  {
    hide Driven, Turn, Exact, Legit, LalrClosed, ShiftedItems, BasisListed, ShortRules, Chain, After, FirstSeq, NullSeq,
      Filled;
    HonestFrame(e);
    if l in FirstSeq(e.g, e.info, Behind(e.g, it)) {
      var ts := FirstForest(e.g, e.info, Behind(e.g, it), l);
      n := FirstShift(e, st, it, ts, l);
    } else {
      var i, top := ReadyToReduce(e, k, st, it, l);
      var c := e.Run(Config(st, [l], Running), i);
      if c.out == Overflow {
        n := i;
      } else {
        LegitBase(e.g, e.info, e.a, k, st, it, l);
        var j := ReducesOn(e, k, st, it, l, top);
        n := i + j;
        GoAdd(e.g, e.t, e.depth, Config(st, [l], Running), i, j);
      }
    }
  }

  // The start rule is reduced on the bottom of the stack: the accept.
  lemma AcceptsStart(e: Machine, base: Stack, all: Stack, r: nat, l: Symbol)
    requires e.Valid() && Chain(e.g, e.a, base) && |base| == 1 && r < |e.g.rules| && e.g.rules[r].lhs == e.g.start
    requires |all| == |e.g.rules[r].rhs| && Filled(e, base, all, r, Minors(all), l)
    ensures Turn(e.g, e.t, e.depth, Config(base + all, [l], Running)).out.Accepted?
  {
    StartTop(e.g, e.a, base);
    StartAwaits(e, r);
    hide Driven, Chain, Turn;
    DrivenReduce(e.g, e.info, e.a, e.f, e.t, base + all, r, l);
    AcceptTurn(e.g, e.t, e.depth, base, all, r, [l]);
  }

  lemma AtConfig(e: Machine, st: Stack, p: Item)
    requires e.Valid() && Chain(e.g, e.a, st) && Top(st) < |e.a.states| && p in e.a.states[Top(st)].c.items
    ensures e.At(st, p)
  {
    hide MeansAll, GotosFound, BasisListed, ShiftedItems, Nullable, Begins, ReducesFound, ShiftsFound, StartsFound,
      LinkAt;
  }

  // The reduce of another rule: its symbol is pushed.
  lemma ReducePush(e: Machine, base: Stack, all: Stack, r: nat, p: Item, l: Symbol) returns (entry: Entry)
    requires Proper(e) && e.At(base, p) && Predicts(e.g, p, Item(r, 0)) && l < e.g.nterminal
    requires |all| == |e.g.rules[r].rhs| && Filled(e, base, all, r, Minors(all), l)
    ensures var c := Turn(e.g, e.t, e.depth, Config(base + all, [l], Running));
            c.out == Overflow || (c == Config(base + [entry], [l], Running) && e.At(base + [entry], Next(p)))
  {
    AtItem(e, base, p);
    RuleSymbol(e.g, r);
    hide Driven, Turn, Exact, LalrClosed, Chain, Filled;
    var v := Node(r, Minors(all));
    var m := AdvanceChain(e, base, p, v);
    NodeTurn(e, base, p, r, all, [l], m);
    entry := AtDotEntry(e, p, m, v);
  }

  // The reduce, and what follows it.
  lemma {:induction false} OnBase(e: Machine, k: nat, base: Stack, all: Stack, r: nat, l: Symbol) returns (n: nat)
    requires Proper(e) && Legit(e.g, e.info, e.a, k, base, Item(r, 0), l) && r < |e.g.rules| && l < e.g.nterminal
    requires |all| == |e.g.rules[r].rhs| && Filled(e, base, all, r, Minors(all), l)
    ensures Ended(e.Run(Config(base + all, [l], Running), n))
    decreases k, 0
  {
    hide Driven, Turn, Exact, Legit, LalrClosed, Chain, After, Filled, Predicts, Origin;
    LegitParts(e.g, e.info, e.a, k, base, Item(r, 0), l);
    OneTurn(e, Config(base + all, [l], Running));
    n := 1;
    if StartItem(e.g, Item(r, 0)) {
      AcceptsStart(e, base, all, r, l);
    } else {
      var p := LegitOrigin(e.g, e.info, e.a, k, base, Item(r, 0), l);
      AtConfig(e, base, p);
      var entry := ReducePush(e, base, all, r, p, l);
      if Turn(e.g, e.t, e.depth, Config(base + all, [l], Running)).out != Overflow {
        NextComes(e, k, base, p, Item(r, 0), l, entry);
        hide Comes, Ended;
        var j := Consumes(e, if k >= 2 then k - 1 else 0, base + [entry], Next(p), l);
        n := 1 + j;
        GoAdd(e.g, e.t, e.depth, Config(base + all, [l], Running), 1, j);
      }
    }
  }

  lemma {:induction false} ReducesOn(e: Machine, k: nat, st: Stack, it: Item, l: Symbol, top: Stack) returns (n: nat)
    requires Proper(e) && Comes(e, k, st, it, l) && Legit(e.g, e.info, e.a, k, st, it, l)
    requires |top| == |Behind(e.g, it)| && Filled(e, st, top, it.rule, Minors(top), l)
    ensures Ended(e.Run(Config(st + top, [l], Running), n))
    decreases k, 1
  {
    LegitBase(e.g, e.info, e.a, k, st, it, l);
    hide Legit, Proper, Chain;
    var base, all := st[..|st| - it.dot], st[|st| - it.dot..] + top;
    Halves(st, top, it.dot);
    FilledAlike(e, st, top, base, all, it.rule, l);
    hide Filled, Comes, Ended;
    n := OnBase(e, k - it.dot, base, all, it.rule, l);
  }

  lemma FilledAlike(e: Machine, st: Stack, top: Stack, st': Stack, top': Stack, r: nat, l: Symbol)
    requires Filled(e, st, top, r, Minors(top), l) && st + top == st' + top'
    ensures Filled(e, st', top', r, Minors(top'), l)
  {
    hide Minors;
  }

  lemma RuleSymbol(g: Grammar, r: nat)
    requires g.Valid() && r < |g.rules|
    ensures g.nterminal <= g.rules[r].lhs
  {
    assert g.ValidRule(g.rules[r]);
  }
}
