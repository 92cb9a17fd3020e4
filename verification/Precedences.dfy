// FindRulePrecedences of lemon.c: every rule without a precedence symbol of its own gets the
// first symbol of its right-hand side that has a precedence, if there is one.

module Precedences {
  import opened Wrappers
  import opened Grammars

  // sym is the first symbol of the form with a precedence, or none if there is no such symbol.
  ghost predicate FirstRanked(g: Grammar, rhs: Form, sym: Option<Symbol>)
    requires forall i :: 0 <= i < |rhs| ==> rhs[i] < |g.prec|
  {
    if sym.None? then forall i :: 0 <= i < |rhs| ==> g.prec[rhs[i]] < 0
    else exists k :: 0 <= k < |rhs| && rhs[k] == sym.value && g.prec[rhs[k]] >= 0 &&
                       forall i :: 0 <= i < k ==> g.prec[rhs[i]] < 0
  }

  // What becomes of one rule: nothing but its precedence symbol changes, and only if it had none.
  ghost predicate Ranked(g: Grammar, r: Rule, r': Rule)
    requires g.Valid() && g.ValidRule(r)
  {
    && r'.lhs == r.lhs && r'.rhs == r.rhs
    && (r.precsym.Some? ==> r'.precsym == r.precsym)
    && (r.precsym.None? ==> FirstRanked(g, r.rhs, r'.precsym))
  }

  // What FindRulePrecedences makes of a grammar.
  ghost predicate Prepared(g: Grammar, g': Grammar)
    requires g.Valid()
  {
    && |g'.rules| == |g.rules| && g' == g.(rules := g'.rules)
    && forall r :: 0 <= r < |g.rules| ==> Ranked(g, g.rules[r], g'.rules[r])
  }

  method FindRulePrecedences(g: Grammar) returns (g': Grammar)
    requires g.Valid()
    ensures g'.Valid() && Prepared(g, g')
  {
    var rules := g.rules;
    for n := 0 to |rules|
      invariant |rules| == |g.rules|
      invariant forall r :: 0 <= r < n ==> Ranked(g, g.rules[r], rules[r])
      invariant forall r :: n <= r < |rules| ==> rules[r] == g.rules[r]
    {
      var rule := rules[n];
      assert g.ValidRule(rule);
      if rule.precsym.None? {
        var i := 0;
        while i < |rule.rhs| && g.prec[rule.rhs[i]] < 0
          invariant i <= |rule.rhs| && forall k :: 0 <= k < i ==> g.prec[rule.rhs[k]] < 0
        {
          i := i + 1;
        }
        if i < |rule.rhs| {
          rules := rules[n := rule.(precsym := Some(rule.rhs[i]))];
        }
      }
    }
    g' := g.(rules := rules);
    forall r | 0 <= r < |rules|
      ensures g'.ValidRule(rules[r]) && g'.start !in rules[r].rhs
    {
      assert Ranked(g, g.rules[r], rules[r]) && g.ValidRule(g.rules[r]);
    }
  }

  // The grammar with the precedence symbols filled in derives what it did, by the same trees.
  ghost predicate SameSyntax(g: Grammar, g': Grammar) {
    && g'.nterminal == g.nterminal && g'.nsymbol == g.nsymbol && g'.start == g.start && |g'.rules| == |g.rules|
    && forall r :: 0 <= r < |g.rules| ==> g'.rules[r].lhs == g.rules[r].lhs && g'.rules[r].rhs == g.rules[r].rhs
  }

  lemma {:induction false} SameTree(g: Grammar, g': Grammar, t: Tree, s: Symbol)
    requires SameSyntax(g, g')
    ensures TreeOf(g', t, s) <==> TreeOf(g, t, s)
    decreases t, 0
  {
    match t
    case Leaf(_) =>
    case Node(r, kids) =>
      if r < |g.rules| {
        SameForest(g, g', kids, g.rules[r].rhs);
      }
  }

  lemma {:induction false} SameForest(g: Grammar, g': Grammar, ts: seq<Tree>, a: Form)
    requires SameSyntax(g, g')
    ensures ForestOf(g', ts, a) <==> ForestOf(g, ts, a)
    decreases ts, 1
  {
    if |ts| == |a| {
      forall k | 0 <= k < |ts|
        ensures TreeOf(g', ts[k], a[k]) <==> TreeOf(g, ts[k], a[k])
      {
        SameTree(g, g', ts[k], a[k]);
      }
    }
  }

  lemma {:induction false} SameDerivation(g: Grammar, g': Grammar, n: nat, a: Form, b: Form)
    requires SameSyntax(g, g') && DerivesIn(g, n, a, b)
    ensures DerivesIn(g', n, a, b)
  {
    if n > 0 {
      var m: Form :| Step(g, a, m) && DerivesIn(g, n - 1, m, b);
      var i: nat, r: nat :| StepAt(g, a, i, r, m);
      assert StepAt(g', a, i, r, m);
      SameDerivation(g, g', n - 1, m, b);
      DerivesInStep(g', n - 1, a, m, b);
    }
  }

  lemma SameSentences(g: Grammar, g': Grammar, w: Form)
    requires SameSyntax(g, g')
    ensures Sentence(g', w) <==> Sentence(g, w)
  {
    if Sentence(g, w) {
      var n: nat :| DerivesIn(g, n, [g.start], w);
      SameDerivation(g, g', n, [g.start], w);
    }
    if Sentence(g', w) {
      var n: nat :| DerivesIn(g', n, [g.start], w);
      SameDerivation(g', g, n, [g.start], w);
    }
  }
}
