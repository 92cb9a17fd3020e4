// The pop size of a reduce is an unsigned char, while rules may have up to 1000
// symbols on their right-hand side: what goes wrong from 256 symbols on.

module LongRules {
  import opened Wrappers
  import opened Grammars
  import opened FirstSets
  import opened States
  import opened Automaton
  import opened Tables
  import opened Decisions
  import opened Driver
  import opened Soundness

  // A reduce pops exactly its right-hand side if and only if that has fewer than 256
  // symbols; the rest stays on the stack.
  lemma PopsRightHandSide(g: Grammar, a: Auto, t: Tables, st: Stack, r: nat)
    requires Honest(g, a, t) && Chain(g, a, st) && CompleteIn(g, a, Top(st), r)
    ensures |g.rules[r].rhs| < |st|
    ensures Popped(st, PopSize(g, r)) == st[..|st| - |g.rules[r].rhs|] <==> |g.rules[r].rhs| < 256
  {
    hide Honest, Chain;
    RhsOnStack(g, a, t, st, r);
    assert |Popped(st, PopSize(g, r))| == |st| - PopSize(g, r);
  }

  // Every rule has 256, 512 or 768 symbols.
  ghost predicate Wrapping(g: Grammar) {
    forall r :: 0 <= r < |g.rules| ==> |g.rules[r].rhs| > 0 && |g.rules[r].rhs| % 256 == 0
  }

  lemma WrappingTurn(g: Grammar, a: Auto, t: Tables, depth: nat, c: Config)
    requires Honest(g, a, t) && Wrapping(g) && ChainOrEmpty(g, a, c.st) && Tokens(g, c.input) && !c.out.Accepted?
    ensures !Turn(g, t, depth, c).out.Accepted? && Tokens(g, Turn(g, t, depth, c).input)
  {
    hide MeansAll, GotosFound, BasisListed, LinkAt;
    if c.st != [] && c.input != [] {
      HonestParts(g, a, t, c.st);
      var s, x, n := Top(c.st), c.input[0], |a.states|;
      var v := Value(g, t, s, x);
      if n <= v < n + |g.rules| {
        var r := v - n;
        assert g.ValidRule(g.rules[r]);
        assert Popped(c.st, PopSize(g, r)) == c.st;
        assert Means(g, a, s, g.rules[r].lhs, Value(g, t, s, g.rules[r].lhs));
        assert Item(r, |g.rules[r].rhs|) in a.states[s].c.items;
      }
    }
  }

  lemma {:induction false} WrappingNeverAccepts(g: Grammar, a: Auto, t: Tables, depth: nat, c: Config, n: nat)
    requires Honest(g, a, t) && Wrapping(g) && ChainOrEmpty(g, a, c.st) && Tokens(g, c.input) && !c.out.Accepted?
    ensures !Go(g, t, depth, c, n).out.Accepted?
    decreases n
  {
    hide Honest, Wrapping, Turn, Chain;
    if n > 0 {
      TurnChain(g, a, t, depth, c);
      WrappingTurn(g, a, t, depth, c);
      WrappingNeverAccepts(g, a, t, depth, Turn(g, t, depth, c), n - 1);
    }
  }

  // The grammar with the one rule S ::= A A ... A, of 256 symbols.
  function LongGrammar(): Grammar {
    Grammar(2, 3, [Rule(2, LongWord(), None)], 2, [-1, -1, -1], [Unknown, Unknown, Unknown])
  }

  function LongWord(): Form {
    seq(256, _ => 1)
  }

  // Its only sentence is never accepted.
  lemma LongRuleFails(info: FirstInfo, o: Output, depth: nat, n: nat)
    requires Generated(LongGrammar(), info, o)
    ensures Sentence(LongGrammar(), LongWord())
    ensures !Go(LongGrammar(), o.t, depth, Started(LongWord() + [0]), n).out.Accepted?
  {
    var g := LongGrammar();
    GeneratedHonest(g, info, o);
    DerivesRule(g, 0);
    HonestStates(g, o.a, o.t);
    WrappingNeverAccepts(g, o.a, o.t, depth, Started(LongWord() + [0]), n);
  }
}
