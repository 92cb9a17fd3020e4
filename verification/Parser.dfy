// The generated parser as an object: yyidx and yystack[] updated in place by
// yy_shift, yy_reduce and Parse, and the caller that hands it one token at a time.

module Parsers {
  import opened Grammars
  import opened FirstSets
  import opened Automaton
  import opened Tables
  import opened Decisions
  import opened Driver
  import opened Soundness
  import opened Completeness

  function Prefix(a: seq<Entry>, n: int): Stack {
    if 0 <= n <= |a| then a[..n] else []
  }

  class Parser {
    const g: Grammar
    const t: Tables
    ghost const a: Auto
    var yyidx: int
    const yystack: array<Entry>

    ghost function Contents(): Stack
      reads this, yystack
    {
      Prefix(yystack[..], yyidx + 1)
    }

    ghost predicate Valid()
      reads this, yystack
    {
      0 < yystack.Length && -1 <= yyidx < yystack.Length && Honest(g, a, t) && ChainOrEmpty(g, a, Contents())
    }

    // ParseAlloc; depth is YYSTACKDEPTH.
    constructor (g: Grammar, t: Tables, ghost a: Auto, depth: nat)
      requires Honest(g, a, t) && depth > 0
      ensures Valid() && this.g == g && this.t == t && this.a == a && Contents() == []
      ensures yystack.Length == depth && fresh(yystack)
    {
      this.g, this.t, this.a := g, t, a;
      yyidx := -1;
      yystack := new Entry[depth](_ => Entry(0, 0, Leaf(0)));
    }

    // yy_shift
    method Shift(e: Entry)
      requires -1 <= yyidx < yystack.Length
      modifies this`yyidx, yystack
      ensures -1 <= yyidx < yystack.Length
      ensures Contents() == if old(|Contents()|) >= yystack.Length then [] else old(Contents()) + [e]
    {
      yyidx := yyidx + 1;
      if yyidx >= yystack.Length {
        yyidx := yyidx - 1;
        while yyidx >= 0
          invariant -1 <= yyidx < yystack.Length
        {
          yyidx := yyidx - 1;   // yy_pop_parser_stack
        }
      } else {
        yystack[yyidx] := e;
      }
    }

    // The second half of yy_reduce: the lookup on the left-hand side and its shift.
    method TakeGoto(x: Symbol, value: Tree) returns (out: Outcome)
      requires 0 <= yyidx < yystack.Length && Usable(t, Contents())
      requires FindReduceAction(g, t, Top(Contents()), x) >= 0
      modifies this`yyidx, yystack
      ensures -1 <= yyidx < yystack.Length && (Contents(), out) == Goto(g, t, yystack.Length, old(Contents()), x, value)
    {
      hide FindReduceAction;
      var yyact := FindReduceAction(g, t, yystack[yyidx].stateno, x);
      out := Running;
      if yyact < |t.dflt| {
        Shift(Entry(yyact, x, value));
        out := if yyidx < 0 then Overflow else Running;
      } else if yyact == ErrorAction(g, |t.dflt|) + 1 {
        yyidx := -1;   // yy_accept
        out := Accepted(value);
      }
    }

    // yy_reduce; the value is what the action of the rule computes from the stack.
    method Reduce(r: nat) returns (out: Outcome)
      requires Valid() && yyidx >= 0 && CompleteIn(g, a, Top(Contents()), r)
      modifies this`yyidx, yystack
      ensures Valid() && (Contents(), out) == Reduced(g, t, yystack.Length, old(Contents()), r)
    {
      hide Honest, Chain, ChainOrEmpty, Goto, FindReduceAction, CompleteIn, Popped;
      ghost var st := Contents();
      RestUsable(st, r, yystack.Length);
      var value := ActionValue(r);
      ghost var all, rest := yystack[..], Popped(st, PopSize(g, r));
      ShorterPrefix(all, |st|, PopSize(g, r));
      assert rest == Prefix(all, |st| - PopSize(g, r));
      yyidx := yyidx - |g.rules[r].rhs| % 256;
      assert yystack[..] == all;
      assert Contents() == rest;
      out := TakeGoto(g.rules[r].lhs, value);
      assert Reduced(g, t, yystack.Length, st, r) == Goto(g, t, yystack.Length, rest, g.rules[r].lhs, value);
    }

    lemma ShorterPrefix(all: seq<Entry>, n: nat, k: nat)
      requires k < n <= |all|
      ensures Prefix(all, n - k) == Popped(Prefix(all, n), k)
    {
    }

    lemma RestUsable(st: Stack, r: nat, depth: nat)
      requires Honest(g, a, t) && ChainOrEmpty(g, a, st) && st != [] && CompleteIn(g, a, Top(st), r)
      ensures r < |g.rules| && PopSize(g, r) <= |g.rules[r].rhs| < |st| && Usable(t, Popped(st, PopSize(g, r)))
      ensures FindReduceAction(g, t, Top(Popped(st, PopSize(g, r))), g.rules[r].lhs) >= 0
      ensures ChainOrEmpty(g, a, Reduced(g, t, depth, st, r).0)
    {
      ReducedChain(g, a, t, depth, st, r);
      hide Reduced, MeansAll, GotosFound, BasisListed, ShiftedItems, LinkAt;
      RhsOnStack(g, a, t, st, r);
      var rest := Popped(st, PopSize(g, r));
      ChainPrefix(g, a, st, |rest|);
      HonestParts(g, a, t, rest);
      assert Means(g, a, Top(rest), g.rules[r].lhs, Value(g, t, Top(rest), g.rules[r].lhs));
    }

    // The values of the right-hand side, as yymsp[1-n].minor ... yymsp[0].minor.
    method ActionValue(r: nat) returns (value: Tree)
      requires Valid() && r < |g.rules| && |g.rules[r].rhs| <= yyidx + 1
      ensures value == ReduceValue(g, Contents(), r)
    {
      var n := |g.rules[r].rhs|;
      var kids := [];
      for j := 0 to n
        invariant |kids| == j && forall k :: 0 <= k < j ==> kids[k] == yystack[yyidx + 1 - n + k].minor
      {
        kids := kids + [yystack[yyidx + 1 - n + j].minor];
      }
      value := Node(r, kids);
      assert kids == Minors(Contents()[|Contents()| - n..]);
    }

    // The configuration that Parse has reached: its token is still pending or not.
    ghost function Now(x: Symbol, pending: bool, out: Outcome): Config
      reads this, yystack
    {
      Config(Contents(), if pending then [x] else [], out)
    }

    // The body of the loop in Parse. A syntax error is reported and ends the parse.
    method LoopBody(yymajor: Symbol) returns (pending: bool, out: Outcome)
      requires Valid() && yyidx >= 0 && yymajor < g.nterminal
      modifies this`yyidx, yystack
      ensures Valid() && Now(yymajor, pending, out) == Turn(g, t, yystack.Length, old(Now(yymajor, true, Running)))
    {
      hide Honest, LinkAt, Reduced, CompleteIn;
      ghost var st := Contents();
      ActionBounds(st, yymajor);
      TurnChain(g, a, t, yystack.Length, Now(yymajor, true, Running));
      var yyact := FindShiftAction(g, t, yystack[yyidx].stateno, yymajor);
      pending, out := true, Running;
      if yyact < |t.dflt| {
        Shift(Entry(yyact, yymajor, Leaf(yymajor)));
        pending := false;
        out := if yyidx < 0 then Overflow else Running;
      } else if yyact < |t.dflt| + |g.rules| {
        out := Reduce(yyact - |t.dflt|);
      } else if yyact == ErrorAction(g, |t.dflt|) {
        out := SyntaxError;
      } else {
        yyidx := -1;   // yy_accept
        out := Accepted(Leaf(yymajor));
      }
    }

    lemma ActionBounds(st: Stack, x: Symbol)
      requires Honest(g, a, t) && Chain(g, a, st) && x < g.nterminal
      ensures Usable(t, st) && Top(st) < |a.states| == |t.dflt|
      ensures var v := FindShiftAction(g, t, Top(st), x);
              0 <= v && (|t.dflt| <= v < |t.dflt| + |g.rules| ==> CompleteIn(g, a, Top(st), v - |t.dflt|))
    {
      hide MeansAll, GotosFound, BasisListed, ShiftedItems, LinkAt;
      HonestParts(g, a, t, st);
      assert Means(g, a, Top(st), x, Value(g, t, Top(st), x));
    }

    // Parse: at most the given number of turns of its loop, which for a grammar whose
    // conflicts were resolved may have no end.
    method Parse(yymajor: Symbol, turns: nat) returns (pending: bool, out: Outcome)
      requires Valid() && yymajor < g.nterminal
      modifies this, yystack
      ensures Valid()
      ensures Now(yymajor, pending, out) == Call(g, t, yystack.Length, old(Contents()), yymajor, turns)
    {
      hide Honest, LinkAt, Turn;
      if yyidx < 0 {
        if yymajor == 0 {
          return false, Running;
        }
        yyidx := 0;
        yystack[0] := Entry(0, 0, Leaf(0));
        StartChain();
      }
      ghost var first := Now(yymajor, true, Running);
      assert first.st == if old(Contents()) == [] then [Entry(0, 0, Leaf(0))] else old(Contents());
      pending, out := true, Running;
      for i := 0 to turns
        invariant Valid() && Now(yymajor, pending, out) == Go(g, t, yystack.Length, first, i)
      {
        GoAdd(g, t, yystack.Length, first, i, 1);
        TurnIdle(g, t, yystack.Length, Now(yymajor, pending, out));
        if pending && out == Running && yyidx >= 0 {
          pending, out := LoopBody(yymajor);
        }
      }
    }

    lemma StartChain()
      requires Honest(g, a, t)
      ensures Chain(g, a, [Entry(0, 0, Leaf(0))])
    {
    }

    // The loop of config_parse: every token of the input, as long as all goes well.
    method ParseTokens(tokens: Form, turns: nat) returns (ghost rest: Form, out: Outcome)
      requires Valid() && Tokens(g, tokens)
      modifies this, yystack
      ensures Valid()
      ensures Config(Contents(), rest, out) == Drive(g, t, yystack.Length, old(Contents()), tokens, turns)
    {
      var k, pending := 0, false;
      out := Running;
      while k < |tokens| && out == Running && !pending
        invariant k <= |tokens| && (pending ==> k > 0) && Valid()
        invariant !pending && out == Running ==>
          Drive(g, t, yystack.Length, Contents(), tokens[k..], turns) ==
            Drive(g, t, yystack.Length, old(Contents()), tokens, turns)
        invariant pending || out != Running ==>
          Config(Contents(), (if pending then [tokens[k - 1]] else []) + tokens[k..], out) ==
            Drive(g, t, yystack.Length, old(Contents()), tokens, turns)
      {
        pending, out := Parse(tokens[k], turns);
        k := k + 1;
      }
      rest := (if pending then [tokens[k - 1]] else []) + tokens[k..];
    }
  }

  lemma TurnIdle(g: Grammar, t: Tables, depth: nat, c: Config)
    ensures c.out != Running || c.input == [] || c.st == [] ==> Turn(g, t, depth, c) == c
  {
  }

  // The configuration a call of Parse ends with.
  function Call(g: Grammar, t: Tables, depth: nat, st: Stack, x: Symbol, turns: nat): Config {
    if st == [] && x == 0 then Config([], [], Running)
    else Go(g, t, depth, Config(if st == [] then [Entry(0, 0, Leaf(0))] else st, [x], Running), turns)
  }

  // Token by token, until one is not taken.
  function Drive(g: Grammar, t: Tables, depth: nat, st: Stack, tokens: Form, turns: nat): Config
    decreases |tokens|
  {
    if tokens == [] then Config(st, [], Running)
    else
      var c := Call(g, t, depth, st, tokens[0], turns);
      if c.out != Running || c.input != [] then Config(c.st, c.input + tokens[1..], c.out)
      else Drive(g, t, depth, c.st, tokens[1..], turns)
  }

  // ---- token by token is the same as all at once ----

  function WithRest(c: Config, rest: Form): Config {
    Config(c.st, c.input + rest, c.out)
  }

  lemma TurnWithRest(g: Grammar, t: Tables, depth: nat, c: Config, rest: Form)
    requires |c.input| == 1
    ensures Turn(g, t, depth, WithRest(c, rest)) == WithRest(Turn(g, t, depth, c), rest)
    ensures |Turn(g, t, depth, c).input| <= 1
  {
    hide Reduced, FindShiftAction;
    var input := c.input + rest;
    assert input[0] == c.input[0] && input[1..] == c.input[1..] + rest;
  }

  // The turns of one call are turns of the run on the whole input; all of them, when
  // the token is still pending.
  lemma {:induction false} GoWithRest(g: Grammar, t: Tables, depth: nat, c: Config, rest: Form, n: nat) returns (k: nat)
    requires |c.input| <= 1
    ensures |Go(g, t, depth, c, n).input| <= 1 && k <= n
    ensures Go(g, t, depth, WithRest(c, rest), k) == WithRest(Go(g, t, depth, c, n), rest)
    ensures Go(g, t, depth, c, n).out == Running && Go(g, t, depth, c, n).input != [] ==> k == n
    decreases n
  {
    hide Turn;
    if n == 0 {
      k := 0;
    } else if c.out != Running || c.input == [] {
      k := 0;
      GoDone(g, t, depth, c, n);
    } else {
      TurnWithRest(g, t, depth, c, rest);
      k := GoWithRest(g, t, depth, Turn(g, t, depth, c), rest, n - 1);
      k := k + 1;
    }
  }

  lemma HeadTail(tokens: Form)
    requires tokens != []
    ensures [tokens[0]] + tokens[1..] == tokens
  {
  }

  // What the calls end with, the run on the whole input reaches.
  lemma {:induction false} DriveToGo(g: Grammar, a: Auto, t: Tables, depth: nat, w: Form, st: Stack, tokens: Form,
                                     turns: nat) returns (n: nat)
    requires Honest(g, a, t) && ShortRules(g) && Tokens(g, w) && RunOk(g, a, w, Config(st, tokens, Running))
    ensures Go(g, t, depth, Config(st, tokens, Running), n) == Drive(g, t, depth, st, tokens, turns)
    decreases |tokens|
  {
    hide Honest, RunOk, ShortRules, Turn;
    if tokens == [] {
      n := 0;
    } else {
      RunOkStack(g, a, w, Config(st, tokens, Running));
      HeadTail(tokens);
      var first, rest := Config(st, [tokens[0]], Running), tokens[1..];
      var c := Go(g, t, depth, first, turns);
      var k := GoWithRest(g, t, depth, first, rest, turns);
      n := k;
      if c.out == Running && c.input == [] {
        GoRunOk(g, a, t, depth, w, Config(st, tokens, Running), k);
        assert WithRest(c, rest) == Config(c.st, rest, Running);
        var m := DriveToGo(g, a, t, depth, w, c.st, rest, turns);
        n := k + m;
        GoAdd(g, t, depth, Config(st, tokens, Running), k, m);
      }
    }
  }

  lemma RunOkStack(g: Grammar, a: Auto, w: Form, c: Config)
    requires RunOk(g, a, w, c) && c.out == Running
    ensures c.st != []
  {
  }

  // Where the run on the whole input ends, the calls end too.
  lemma {:induction false} GoToDrive(g: Grammar, a: Auto, t: Tables, depth: nat, w: Form, st: Stack, tokens: Form,
                                     n: nat, turns: nat)
    requires Honest(g, a, t) && ShortRules(g) && Tokens(g, w) && RunOk(g, a, w, Config(st, tokens, Running))
    requires Go(g, t, depth, Config(st, tokens, Running), n).out != Running && n <= turns
    ensures Drive(g, t, depth, st, tokens, turns).out == Go(g, t, depth, Config(st, tokens, Running), n).out
    decreases |tokens|
  {
    hide Honest, RunOk, ShortRules, Turn;
    var all := Config(st, tokens, Running);
    if tokens == [] {
      GoDone(g, t, depth, all, n);
    } else {
      RunOkStack(g, a, w, all);
      HeadTail(tokens);
      var first, rest := Config(st, [tokens[0]], Running), tokens[1..];
      var c := Go(g, t, depth, first, turns);
      var k := GoWithRest(g, t, depth, first, rest, turns);
      if c.out != Running {
        GoAgrees(g, t, depth, all, n, k);
      } else {
        EndedLater(g, t, depth, all, n, k);
        GoAdd(g, t, depth, all, k, n - k);
        if c.input == [] {
          GoRunOk(g, a, t, depth, w, all, k);
          assert WithRest(c, rest) == Config(c.st, rest, Running);
          GoToDrive(g, a, t, depth, w, c.st, rest, n - k, turns);
        }
      }
    }
  }

  // A run that is still going after k turns ends later.
  lemma EndedLater(g: Grammar, t: Tables, depth: nat, c: Config, n: nat, k: nat)
    requires Go(g, t, depth, c, n).out != Running && Go(g, t, depth, c, k).out == Running
    ensures k < n
  {
    hide Turn;
    if n <= k {
      GoAdd(g, t, depth, c, n, k - n);
      GoDone(g, t, depth, Go(g, t, depth, c, n), k - n);
    }
  }

  // The tokens of a word and then the end marker, from a parser at rest. (With no
  // token before the end marker nothing happens at all.)
  lemma DriveStart(g: Grammar, t: Tables, depth: nat, w: Form, turns: nat)
    requires Words(g, w)
    ensures w == [] ==> Drive(g, t, depth, [], w + [0], turns) == Config([], [], Running)
    ensures w != [] ==> Drive(g, t, depth, [], w + [0], turns) == Drive(g, t, depth, Started(w).st, w + [0], turns)
  {
    var tokens := w + [0];
    assert w != [] ==> tokens[0] == w[0];
    assert w == [] ==> tokens[0] == 0 && tokens[1..] == [];
  }

  // The parser accepts a word with value v, given turns enough per token, exactly
  // when the word is not empty and v is a parse tree of it that fits the stack.
  lemma ParserAcceptsExactly(g: Grammar, info: FirstInfo, o: Output, depth: nat, w: Form, v: Tree)
    requires Generated(g, info, o) && ShortRules(g) && AllConflictFree(g, o.a, o.f) && depth > 0 && Words(g, w)
    ensures (exists turns: nat :: Drive(g, o.t, depth, [], w + [0], turns).out == Accepted(v)) <==>
            w != [] && TreeOf(g, v, g.start) && Yield(v) == w && StackNeed(v) <= depth
  {
    hide Generated, AllConflictFree, Honest, ShortRules, RunOk, TreeOf, Go, Drive;
    var tokens := w + [0];
    GeneratedHonest(g, info, o);
    HonestStates(g, o.a, o.t);
    TokensOf(g, info, o, w);
    StartRunOk(g, o.a, tokens);
    AcceptsExactly(g, info, o, depth, w, v);
    if turns: nat :| Drive(g, o.t, depth, [], tokens, turns).out == Accepted(v) {
      DriveStart(g, o.t, depth, w, turns);
      var n := DriveToGo(g, o.a, o.t, depth, tokens, Started(w).st, tokens, turns);
      assert Go(g, o.t, depth, Started(tokens), n).out == Accepted(v);
    }
    if w != [] && TreeOf(g, v, g.start) && Yield(v) == w && StackNeed(v) <= depth {
      var n: nat :| Go(g, o.t, depth, Started(tokens), n).out == Accepted(v);
      GoToDrive(g, o.a, o.t, depth, tokens, Started(w).st, tokens, n, n);
      DriveStart(g, o.t, depth, w, n);
      assert Drive(g, o.t, depth, [], tokens, n).out == Accepted(v);
    }
  }

  // Whatever the conflicts: what the parser accepts is a non-empty sentence.
  lemma ParserIsSound(g: Grammar, info: FirstInfo, o: Output, depth: nat, w: Form, turns: nat)
    requires Generated(g, info, o) && ShortRules(g) && Words(g, w)
    ensures var out := Drive(g, o.t, depth, [], w + [0], turns).out;
            out.Accepted? ==> w != [] && Sentence(g, w) && TreeOf(g, out.value, g.start) && Yield(out.value) == w
  {
    hide Generated, Honest, ShortRules, RunOk, Go, Drive, TreeOf;
    var tokens := w + [0];
    GeneratedHonest(g, info, o);
    HonestStates(g, o.a, o.t);
    TokensOf(g, info, o, w);
    StartRunOk(g, o.a, tokens);
    DriveStart(g, o.t, depth, w, turns);
    if Drive(g, o.t, depth, [], tokens, turns).out.Accepted? {
      var n := DriveToGo(g, o.a, o.t, depth, tokens, Started(w).st, tokens, turns);
      AcceptedWord(g, info, o, depth, w, n);
      TreeDerives(g, Go(g, o.t, depth, Started(tokens), n).out.value, g.start);
    }
  }
}
