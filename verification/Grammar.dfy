// Context-free grammars as lemon.c stores them after indexing: the terminals are
// 0..nterminal-1 (0 is the end marker "$", which no rule mentions), the
// nonterminals nterminal..nsymbol-1, and nsymbol is the pseudo symbol "{default}".

module Grammars {
  import opened Wrappers

  type Symbol = nat

  datatype Assoc = Left | Right | NonAssoc | Unknown

  datatype Rule = Rule(lhs: Symbol, rhs: seq<Symbol>, precsym: Option<Symbol>)

  datatype Grammar = Grammar(nterminal: nat, nsymbol: nat, rules: seq<Rule>, start: Symbol,
                             prec: seq<int>, assoc: seq<Assoc>)
  {
    predicate Terminal(s: Symbol) {
      s < nterminal
    }

    ghost predicate ValidRule(r: Rule) {
      && nterminal <= r.lhs < nsymbol
      && (forall k :: 0 <= k < |r.rhs| ==> 1 <= r.rhs[k] < nsymbol)
      && (r.precsym.Some? ==> r.precsym.value < nsymbol)
    }

    // FindStates reports an error when the start symbol occurs on a right-hand
    // side; the grammars accepted without errors are the ones below.
    ghost predicate Valid() {
      && 1 <= nterminal <= start < nsymbol
      && |prec| == |assoc| == nsymbol
      && (forall s :: 0 <= s < nsymbol && prec[s] >= 0 ==> assoc[s] != Unknown)
      && (forall r :: 0 <= r < |rules| ==> ValidRule(rules[r]))
      && (forall r :: 0 <= r < |rules| ==> start !in rules[r].rhs)
    }
  }

  type Form = seq<Symbol>

  // One rewriting step: the nonterminal at position i is replaced by rule r.
  ghost predicate StepAt(g: Grammar, a: Form, i: nat, r: nat, b: Form) {
    && i < |a| && r < |g.rules|
    && a[i] == g.rules[r].lhs
    && b == a[..i] + g.rules[r].rhs + a[i + 1..]
  }

  ghost predicate Step(g: Grammar, a: Form, b: Form) {
    exists i: nat, r: nat :: StepAt(g, a, i, r, b)
  }

  ghost predicate DerivesIn(g: Grammar, n: nat, a: Form, b: Form) {
    if n == 0 then a == b else exists m: Form :: Step(g, a, m) && DerivesIn(g, n - 1, m, b)
  }

  // a =>* b
  ghost predicate Derives(g: Grammar, a: Form, b: Form) {
    exists n: nat :: DerivesIn(g, n, a, b)
  }

  ghost predicate Sentence(g: Grammar, w: Form) {
    && (forall k :: 0 <= k < |w| ==> 1 <= w[k] < g.nterminal)
    && Derives(g, [g.start], w)
  }

  lemma SplitAt<T>(a: seq<T>, i: nat)
    requires i < |a|
    ensures a[..i] + [a[i]] + a[i + 1..] == a
  {
  }

  // The prefixes of a sequence in which position i was replaced by b.
  lemma SplicePrefix<T>(a: seq<T>, i: nat, b: seq<T>, m: seq<T>, p: nat)
    requires i < |a| && m == a[..i] + b + a[i + 1..] && p <= |m|
    ensures p <= i ==> m[..p] == a[..p]
    ensures i <= p <= i + |b| ==> m[..p] == a[..i] + b[..p - i]
    ensures i + |b| <= p ==> m[..p] == a[..i] + b + a[i + 1..p + 1 - |b|]
  {
  }

  lemma DerivesInStep(g: Grammar, n: nat, a: Form, m: Form, b: Form)
    requires Step(g, a, m) && DerivesIn(g, n, m, b)
    ensures DerivesIn(g, n + 1, a, b)
  {
  }

  lemma DerivesRefl(g: Grammar, a: Form)
    ensures Derives(g, a, a)
  {
    assert DerivesIn(g, 0, a, a);
  }

  lemma {:induction false} DerivesInTrans(g: Grammar, n: nat, m: nat, a: Form, b: Form, c: Form)
    requires DerivesIn(g, n, a, b) && DerivesIn(g, m, b, c)
    ensures DerivesIn(g, n + m, a, c)
  {
    if n > 0 {
      var x: Form :| Step(g, a, x) && DerivesIn(g, n - 1, x, b);
      DerivesInTrans(g, n - 1, m, x, b, c);
    }
  }

  lemma DerivesTrans(g: Grammar, a: Form, b: Form, c: Form)
    requires Derives(g, a, b) && Derives(g, b, c)
    ensures Derives(g, a, c)
  {
    var n: nat :| DerivesIn(g, n, a, b);
    var m: nat :| DerivesIn(g, m, b, c);
    DerivesInTrans(g, n, m, a, b, c);
  }

  lemma StepContext(g: Grammar, u: Form, a: Form, b: Form, v: Form)
    requires Step(g, a, b)
    ensures Step(g, u + a + v, u + b + v)
  {
    var i: nat, r: nat :| StepAt(g, a, i, r, b);
    var a', b' := u + a + v, u + b + v;
    assert a'[..|u| + i] == u + a[..i];
    assert a'[|u| + i + 1..] == a[i + 1..] + v;
    assert b' == a'[..|u| + i] + g.rules[r].rhs + a'[|u| + i + 1..];
    assert StepAt(g, a', |u| + i, r, b');
  }

  lemma {:induction false} DerivesInContext(g: Grammar, n: nat, u: Form, a: Form, b: Form, v: Form)
    requires DerivesIn(g, n, a, b)
    ensures DerivesIn(g, n, u + a + v, u + b + v)
  {
    if n > 0 {
      var m: Form :| Step(g, a, m) && DerivesIn(g, n - 1, m, b);
      StepContext(g, u, a, m, v);
      DerivesInContext(g, n - 1, u, m, b, v);
      DerivesInStep(g, n - 1, u + a + v, u + m + v, u + b + v);
    }
  }

  lemma DerivesContext(g: Grammar, u: Form, a: Form, b: Form, v: Form)
    requires Derives(g, a, b)
    ensures Derives(g, u + a + v, u + b + v)
  {
    var n: nat :| DerivesIn(g, n, a, b);
    DerivesInContext(g, n, u, a, b, v);
  }

  lemma DerivesConcat(g: Grammar, a: Form, b: Form, c: Form, d: Form)
    requires Derives(g, a, b) && Derives(g, c, d)
    ensures Derives(g, a + c, b + d)
  {
    DerivesContext(g, [], a, b, c);
    DerivesContext(g, b, c, d, []);
    assert [] + a + c == a + c && [] + b + c == b + c == b + c + [] && b + d + [] == b + d;
    DerivesTrans(g, a + c, b + c, b + d);
  }

  lemma DerivesRule(g: Grammar, r: nat)
    requires r < |g.rules|
    ensures Derives(g, [g.rules[r].lhs], g.rules[r].rhs)
  {
    var a, b := [g.rules[r].lhs], g.rules[r].rhs;
    assert b == a[..0] + b + a[1..];
    assert StepAt(g, a, 0, r, b);
    DerivesInStep(g, 0, a, b, b);
    assert DerivesIn(g, 1, a, b);
  }

  // Parse trees, the partner of the rewriting relation: Leaf carries any symbol.

  datatype Tree = Leaf(sym: Symbol) | Node(rule: nat, kids: seq<Tree>)

  // t is a parse tree for the symbol s.
  ghost predicate TreeOf(g: Grammar, t: Tree, s: Symbol)
    decreases t, 0
  {
    match t
    case Leaf(x) => x == s
    case Node(r, kids) => r < |g.rules| && g.rules[r].lhs == s && ForestOf(g, kids, g.rules[r].rhs)
  }

  // ts are parse trees for the symbols of a, in order.
  ghost predicate ForestOf(g: Grammar, ts: seq<Tree>, a: Form)
    decreases ts, 1
  {
    |ts| == |a| && forall k :: 0 <= k < |ts| ==> TreeOf(g, ts[k], a[k])
  }

  ghost function Yield(t: Tree): Form {
    if t.Leaf? then [t.sym] else YieldAll(t.kids)
  }

  ghost function YieldAll(ts: seq<Tree>): Form {
    if ts == [] then [] else Yield(ts[0]) + YieldAll(ts[1..])
  }

  lemma {:induction false} YieldAllConcat(a: seq<Tree>, b: seq<Tree>)
    ensures YieldAll(a + b) == YieldAll(a) + YieldAll(b)
  {
    if a == [] {
      assert a + b == b;
    } else {
      var ab := a + b;
      assert ab[0] == a[0] && ab[1..] == a[1..] + b;
      YieldAllConcat(a[1..], b);
      var x, y, z := Yield(a[0]), YieldAll(a[1..]), YieldAll(b);
      assert YieldAll(ab) == x + (y + z) == (x + y) + z;
    }
  }

  lemma YieldAllOne(t: Tree)
    ensures YieldAll([t]) == Yield(t)
  {
    assert [t][1..] == [];
  }

  lemma {:induction false} YieldLeaves(g: Grammar, a: Form) returns (ts: seq<Tree>)
    ensures ForestOf(g, ts, a) && YieldAll(ts) == a
  {
    if a == [] {
      ts := [];
    } else {
      var rest := YieldLeaves(g, a[1..]);
      ts := [Leaf(a[0])] + rest;
      assert ts[1..] == rest;
    }
  }

  lemma ForestConcat(g: Grammar, ts: seq<Tree>, a: Form, us: seq<Tree>, b: Form)
    requires ForestOf(g, ts, a) && ForestOf(g, us, b)
    ensures ForestOf(g, ts + us, a + b)
  {
  }

  lemma ForestSplit(g: Grammar, ts: seq<Tree>, a: Form, b: Form)
    requires ForestOf(g, ts, a + b)
    ensures ForestOf(g, ts[..|a|], a) && ForestOf(g, ts[|a|..], b)
  {
    assert forall k :: 0 <= k < |b| ==> b[k] == (a + b)[|a| + k];
  }

  // Undoing one step on a forest: the trees of the inserted right-hand side
  // become the children of one node.
  lemma GraftNode(g: Grammar, a: Form, i: nat, r: nat, m: Form, us: seq<Tree>) returns (ts: seq<Tree>)
    requires StepAt(g, a, i, r, m) && ForestOf(g, us, m)
    ensures ForestOf(g, ts, a) && YieldAll(ts) == YieldAll(us)
  {
    var rhs := g.rules[r].rhs;
    var j := i + |rhs|;
    ForestSplit(g, us, a[..i] + rhs, a[i + 1..]);
    ForestSplit(g, us[..j], a[..i], rhs);
    var pre, mid, post := us[..j][..i], us[..j][i..], us[j..];
    var node := Node(r, mid);
    ts := pre + [node] + post;
    ForestConcat(g, pre, a[..i], [node], [a[i]]);
    ForestConcat(g, pre + [node], a[..i] + [a[i]], post, a[i + 1..]);
    SplitAt(a, i);
    YieldAllConcat(pre + [node], post);
    YieldAllConcat(pre, [node]);
    YieldAllOne(node);
    YieldAllConcat(pre, mid);
    YieldAllConcat(pre + mid, post);
    assert pre + mid == us[..j] && us[..j] + post == us;
  }

  // Every derivation is the frontier of a forest.
  lemma {:induction false} DerivationForest(g: Grammar, n: nat, a: Form, w: Form) returns (ts: seq<Tree>)
    requires DerivesIn(g, n, a, w)
    ensures ForestOf(g, ts, a) && YieldAll(ts) == w
  {
    if n == 0 {
      ts := YieldLeaves(g, a);
    } else {
      var m: Form :| Step(g, a, m) && DerivesIn(g, n - 1, m, w);
      var i: nat, r: nat :| StepAt(g, a, i, r, m);
      var us := DerivationForest(g, n - 1, m, w);
      ts := GraftNode(g, a, i, r, m, us);
    }
  }

  // The converse: a parse tree is a derivation of its frontier.
  lemma {:induction false} TreeDerives(g: Grammar, t: Tree, s: Symbol)
    requires TreeOf(g, t, s)
    ensures Derives(g, [s], Yield(t))
    decreases t, 0
  {
    match t
    case Leaf(_) => DerivesRefl(g, [s]);
    case Node(r, kids) =>
      ForestDerives(g, kids, g.rules[r].rhs);
      DerivesRule(g, r);
      DerivesTrans(g, [s], g.rules[r].rhs, YieldAll(kids));
  }

  lemma {:induction false} ForestDerives(g: Grammar, ts: seq<Tree>, a: Form)
    requires ForestOf(g, ts, a)
    ensures Derives(g, a, YieldAll(ts))
    decreases ts, 1
  {
    if ts == [] {
      DerivesRefl(g, []);
    } else {
      TreeDerives(g, ts[0], a[0]);
      ForestDerives(g, ts[1..], a[1..]);
      DerivesConcat(g, [a[0]], Yield(ts[0]), a[1..], YieldAll(ts[1..]));
      assert [a[0]] + a[1..] == a;
    }
  }
}
