// The parser of lempar.c as a machine: yy_shift, yy_reduce and one turn of the loop
// in Parse, on a stack of (state, symbol, value) entries. The value of an entry is
// the parse tree the semantic actions see, so every other choice of semantic
// actions is a fold over it.

module Driver {
  import opened Grammars
  import opened FirstSets
  import opened States
  import opened Automaton
  import opened Tables
  import opened Decisions

  datatype Entry = Entry(stateno: nat, major: Symbol, minor: Tree)

  // yystack[0..yyidx]; empty when yyidx < 0
  type Stack = seq<Entry>

  // Running: the loop of Parse goes on, or has consumed its token.
  datatype Outcome = Running | Accepted(value: Tree) | SyntaxError | Overflow

  datatype Config = Config(st: Stack, input: Form, out: Outcome)

  function Top(st: Stack): nat
    requires st != []
  {
    st[|st| - 1].stateno
  }

  function Minors(st: Stack): (ts: seq<Tree>)
    ensures |ts| == |st| && forall k :: 0 <= k < |st| ==> ts[k] == st[k].minor
  {
    seq(|st|, k requires 0 <= k < |st| => st[k].minor)
  }

  // yyRuleInfo[].nrhs is an unsigned char.
  function PopSize(g: Grammar, r: nat): nat
    requires r < |g.rules|
  {
    |g.rules[r].rhs| % 256
  }

  function Popped(st: Stack, n: nat): Stack {
    if n <= |st| then st[..|st| - n] else []
  }

  // yy_shift: a full stack is emptied.
  function Pushed(depth: nat, st: Stack, e: Entry): Stack {
    if |st| >= depth then [] else st + [e]
  }

  // The value computed by the action of rule r.
  function ReduceValue(g: Grammar, st: Stack, r: nat): Tree
    requires r < |g.rules|
  {
    var n := |g.rules[r].rhs|;
    Node(r, if n <= |st| then Minors(st[|st| - n..]) else [])
  }

  // The top entry can be looked up.
  predicate Usable(t: Tables, st: Stack) {
    t.Shaped(|t.dflt|) && st != [] && Top(st) < |t.dflt|
  }

  // yy_reduce after the pop.
  function Goto(g: Grammar, t: Tables, depth: nat, rest: Stack, x: Symbol, value: Tree): (Stack, Outcome)
    requires Usable(t, rest)
  {
    var act := FindReduceAction(g, t, Top(rest), x);
    if 0 <= act < |t.dflt| then
      var st' := Pushed(depth, rest, Entry(act, x, value));
      (st', if st' == [] then Overflow else Running)
    else if act == ErrorAction(g, |t.dflt|) + 1 then ([], Accepted(value))
    else (rest, Running)
  }

  function Reduced(g: Grammar, t: Tables, depth: nat, st: Stack, r: nat): (Stack, Outcome)
    requires r < |g.rules|
  {
    var rest := Popped(st, PopSize(g, r));
    if Usable(t, rest) then Goto(g, t, depth, rest, g.rules[r].lhs, ReduceValue(g, st, r)) else (rest, Running)
  }

  // One turn of the loop in Parse, on the first token of the input.
  function Turn(g: Grammar, t: Tables, depth: nat, c: Config): Config {
    if c.out != Running || c.input == [] || !Usable(t, c.st) then c
    else
      var x, n := c.input[0], |t.dflt|;
      var act := FindShiftAction(g, t, Top(c.st), x);
      if 0 <= act < n then
        var st' := Pushed(depth, c.st, Entry(act, x, Leaf(x)));
        Config(st', c.input[1..], if st' == [] then Overflow else Running)
      else if n <= act < n + |g.rules| then
        var (st', out) := Reduced(g, t, depth, c.st, act - n);
        Config(st', c.input, out)
      else if act == ErrorAction(g, n) then c.(out := SyntaxError)
      else Config([], c.input, Accepted(Leaf(x)))
  }

  function Go(g: Grammar, t: Tables, depth: nat, c: Config, n: nat): Config
    decreases n
  {
    if n == 0 then c else Go(g, t, depth, Turn(g, t, depth, c), n - 1)
  }

  lemma {:induction false} GoAdd(g: Grammar, t: Tables, depth: nat, c: Config, n: nat, m: nat)
    ensures Go(g, t, depth, c, n + m) == Go(g, t, depth, Go(g, t, depth, c, n), m)
    decreases n
  {
    if n > 0 {
      GoAdd(g, t, depth, Turn(g, t, depth, c), n - 1, m);
    }
  }

  // A finished run stays as it is.
  lemma {:induction false} GoDone(g: Grammar, t: Tables, depth: nat, c: Config, n: nat)
    requires c.out != Running || c.input == []
    ensures Go(g, t, depth, c, n) == c
    decreases n
  {
    if n > 0 {
      GoDone(g, t, depth, c, n - 1);
    }
  }

  // ---- the stack is a path of the automaton ----

  ghost predicate LinkAt(g: Grammar, a: Auto, st: Stack, k: nat)
    requires 0 < k < |st|
  {
    && 0 < st[k].stateno < |a.states| && st[k - 1].stateno < |a.states|
    && LeadsTo(g, a.states[st[k - 1].stateno], st[k].major, a.states[st[k].stateno])
  }

  // State 0 below, and every entry was shifted to from the one under it.
  ghost predicate Chain(g: Grammar, a: Auto, st: Stack) {
    && st != [] && st[0].stateno == 0 < |a.states|
    && forall k :: 0 < k < |st| ==> LinkAt(g, a, st, k)
  }

  lemma ChainPrefix(g: Grammar, a: Auto, st: Stack, n: nat)
    requires Chain(g, a, st) && 0 < n <= |st|
    ensures Chain(g, a, st[..n])
  {
    forall k | 0 < k < n
      ensures LinkAt(g, a, st[..n], k)
    {
      assert LinkAt(g, a, st, k);
    }
  }

  lemma ChainTop(g: Grammar, a: Auto, st: Stack)
    requires Chain(g, a, st)
    ensures Top(st) < |a.states| && (Top(st) == 0 <==> |st| == 1)
  {
    if |st| > 1 {
      assert LinkAt(g, a, st, |st| - 1);
    }
  }

  lemma ChainPush(g: Grammar, a: Auto, st: Stack, e: Entry)
    requires Chain(g, a, st) && Top(st) < |a.states| && 0 < e.stateno < |a.states|
    requires LeadsTo(g, a.states[Top(st)], e.major, a.states[e.stateno])
    ensures Chain(g, a, st + [e])
  {
    var st' := st + [e];
    forall k | 0 < k < |st'|
      ensures LinkAt(g, a, st', k)
    {
      if k < |st| {
        assert LinkAt(g, a, st, k);
      }
    }
  }

  // Items with the dot further on are basis items, and not of state 0.
  ghost predicate ShiftedItems(g: Grammar, a: Auto) {
    forall n: nat, it :: n < |a.states| && it in a.states[n].c.items ==>
      ValidItem(g, it) && (it.dot > 0 ==> n != 0 && it in a.states[n].basis)
  }

  lemma AutoShiftedItems(g: Grammar, info: FirstInfo, a: Auto)
    requires g.Valid() && Shaped(g, info) && GoodAuto(g, info, a)
    ensures ShiftedItems(g, a)
  {
    forall n: nat, it | n < |a.states| && it in a.states[n].c.items
      ensures ValidItem(g, it) && (it.dot > 0 ==> n != 0 && it in a.states[n].basis)
    {
      assert GoodState(g, info, n, a.states[n]);
    }
  }

  // The predecessor of such an item is one entry below.
  lemma ItemBelow(g: Grammar, a: Auto, st: Stack, it: Item)
    requires ShiftedItems(g, a) && Chain(g, a, st)
    requires Top(st) < |a.states| && it in a.states[Top(st)].c.items && it.dot > 0
    ensures |st| > 1 && st[|st| - 2].stateno < |a.states| && Prev(it) in a.states[st[|st| - 2].stateno].c.items
    ensures AtDot(g, Prev(it), st[|st| - 1].major)
  {
    ChainTop(g, a, st);
    assert LinkAt(g, a, st, |st| - 1);
  }

  // The top entries spell what is before the dot of the item.
  ghost predicate Spelled(g: Grammar, st: Stack, it: Item) {
    && ValidItem(g, it) && it.dot < |st|
    && forall j :: 0 <= j < it.dot ==> st[|st| - it.dot + j].major == g.rules[it.rule].rhs[j]
  }

  // The state n entries down holds the item with its dot at the left.
  ghost predicate Begun(a: Auto, st: Stack, it: Item) {
    && it.dot < |st| && st[|st| - 1 - it.dot].stateno < |a.states|
    && Item(it.rule, 0) in a.states[st[|st| - 1 - it.dot].stateno].c.items
  }

  lemma SpelledStep(g: Grammar, a: Auto, st: Stack, it: Item)
    requires ValidItem(g, it) && it.dot > 0 && |st| > 1 && AtDot(g, Prev(it), st[|st| - 1].major)
    requires Spelled(g, st[..|st| - 1], Prev(it)) && Begun(a, st[..|st| - 1], Prev(it))
    ensures Spelled(g, st, it) && Begun(a, st, it)
  {
    var below, d := st[..|st| - 1], it.dot - 1;
    forall j | 0 <= j < it.dot
      ensures st[|st| - it.dot + j].major == g.rules[it.rule].rhs[j]
    {
      if j < d {
        assert below[|below| - d + j].major == g.rules[it.rule].rhs[j];
      }
    }
  }

  // For every item of the top state, the symbols on the stack are those before its
  // dot, and the state below them holds the item with its dot at the left.
  lemma {:induction false} ItemOnStack(g: Grammar, a: Auto, st: Stack, it: Item)
    requires ShiftedItems(g, a) && Chain(g, a, st)
    requires Top(st) < |a.states| && it in a.states[Top(st)].c.items
    ensures Spelled(g, st, it) && Begun(a, st, it)
    decreases it.dot
  {
    if it.dot == 0 {
      assert it == Item(it.rule, 0);
    } else {
      ItemBelow(g, a, st, it);
      ChainPrefix(g, a, st, |st| - 1);
      ItemOnStack(g, a, st[..|st| - 1], Prev(it));
      SpelledStep(g, a, st, it);
    }
  }
}
