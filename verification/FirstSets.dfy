// FindFirstSets of lemon.c: two fixpoint loops over the rule list, and the proof
// that what they reach is exactly nullability and FIRST of the grammar.

module FirstSets {
  import opened Grammars
  import opened Sets

  // What the rest of the generator reads: sp->lambda, and sp->firstset of the
  // nonterminals (first[s - nterminal]).
  datatype FirstInfo = FirstInfo(lambda: seq<bool>, first: seq<set<nat>>)

  ghost predicate Shaped(g: Grammar, info: FirstInfo) {
    |info.lambda| == g.nsymbol && |info.first| == g.nsymbol - g.nterminal
  }

  ghost predicate Nullable(g: Grammar, a: Form) {
    Derives(g, a, [])
  }

  // The terminal t begins some sentential form derived from a.
  ghost predicate Begins(g: Grammar, a: Form, t: Symbol) {
    exists rest: Form :: Derives(g, a, [t] + rest)
  }

  ghost predicate LambdaSound(g: Grammar, lambda: seq<bool>) {
    forall s :: 0 <= s < |lambda| && lambda[s] ==> Nullable(g, [s])
  }

  ghost predicate FirstSound(g: Grammar, first: seq<set<nat>>) {
    forall k, t :: 0 <= k < |first| && t in first[k] ==> t < g.nterminal && Begins(g, [g.nterminal + k], t)
  }

  // The flags say exactly which symbols derive the empty string, and the sets
  // exactly which terminals can come first.
  ghost predicate Exact(g: Grammar, info: FirstInfo)
    requires g.Valid()
  {
    && Shaped(g, info)
    && (forall s :: 0 <= s < g.nsymbol ==> (info.lambda[s] <==> Nullable(g, [s])))
    && (forall k, t: nat :: 0 <= k < |info.first| ==>
         (t in info.first[k] <==> t < g.nterminal && Begins(g, [g.nterminal + k], t)))
  }

  // ---- soundness of one loop step ----

  lemma {:induction false} AllNullable(g: Grammar, a: Form)
    requires forall k :: 0 <= k < |a| ==> Nullable(g, [a[k]])
    ensures Nullable(g, a)
  {
    if a == [] {
      DerivesRefl(g, []);
    } else {
      AllNullable(g, a[1..]);
      DerivesConcat(g, [a[0]], [], a[1..], []);
      var empty: Form := [];
      assert [a[0]] + a[1..] == a && empty + empty == empty;
    }
  }

  lemma RuleNullable(g: Grammar, r: nat)
    requires r < |g.rules| && forall k :: 0 <= k < |g.rules[r].rhs| ==> Nullable(g, [g.rules[r].rhs[k]])
    ensures Nullable(g, [g.rules[r].lhs])
  {
    AllNullable(g, g.rules[r].rhs);
    DerivesRule(g, r);
    DerivesTrans(g, [g.rules[r].lhs], g.rules[r].rhs, []);
  }

  // A nullable prefix does not hide what follows it.
  lemma BeginsAfter(g: Grammar, a: Form, i: nat, t: Symbol)
    requires i < |a| && Nullable(g, a[..i]) && Begins(g, [a[i]], t)
    ensures Begins(g, a, t)
  {
    var rest: Form :| Derives(g, [a[i]], [t] + rest);
    DerivesRefl(g, a[i + 1..]);
    DerivesConcat(g, a[..i], [], [a[i]], [t] + rest);
    DerivesConcat(g, a[..i] + [a[i]], [] + ([t] + rest), a[i + 1..], a[i + 1..]);
    SplitAt(a, i);
    Reassociate(t, rest, a[i + 1..]);
  }

  lemma Reassociate(t: Symbol, rest: Form, tail: Form)
    ensures [] + ([t] + rest) + tail == [t] + (rest + tail)
  {
  }

  lemma BeginsRule(g: Grammar, r: nat, i: nat, t: Symbol)
    requires r < |g.rules| && i < |g.rules[r].rhs|
    requires forall k :: 0 <= k < i ==> Nullable(g, [g.rules[r].rhs[k]])
    requires Begins(g, [g.rules[r].rhs[i]], t)
    ensures Begins(g, [g.rules[r].lhs], t)
  {
    var rhs := g.rules[r].rhs;
    AllNullable(g, rhs[..i]);
    BeginsAfter(g, rhs, i, t);
    var rest: Form :| Derives(g, rhs, [t] + rest);
    DerivesRule(g, r);
    DerivesTrans(g, [g.rules[r].lhs], rhs, [t] + rest);
  }

  lemma BeginsItself(g: Grammar, t: Symbol)
    ensures Begins(g, [t], t)
  {
    DerivesRefl(g, [t]);
    assert [t] + [] == [t];
  }

  // ---- closed flags and sets contain everything derivable ----

  predicate LambdaClosedAt(g: Grammar, lambda: seq<bool>, r: nat)
    requires r < |g.rules| && g.rules[r].lhs < |lambda|
    requires forall k :: 0 <= k < |g.rules[r].rhs| ==> g.rules[r].rhs[k] < |lambda|
  {
    (forall k :: 0 <= k < |g.rules[r].rhs| ==> lambda[g.rules[r].rhs[k]]) ==> lambda[g.rules[r].lhs]
  }

  ghost predicate LambdaClosed(g: Grammar, lambda: seq<bool>)
    requires g.Valid() && |lambda| == g.nsymbol
  {
    forall r :: 0 <= r < |g.rules| ==> LambdaClosedAt(g, lambda, r)
  }

  // The terminals that symbol s contributes.
  function FirstOf(g: Grammar, first: seq<set<nat>>, s: Symbol): set<nat>
    requires s - g.nterminal < |first|
  {
    if g.Terminal(s) then {s} else first[s - g.nterminal]
  }

  ghost predicate FirstClosedAt(g: Grammar, info: FirstInfo, r: nat, i: nat)
    requires g.Valid() && Shaped(g, info) && r < |g.rules|
  {
    var rule := g.rules[r];
    i < |rule.rhs| && (forall k :: 0 <= k < i ==> info.lambda[rule.rhs[k]]) ==>
      FirstOf(g, info.first, rule.rhs[i]) <= info.first[rule.lhs - g.nterminal]
  }

  ghost predicate RuleClosed(g: Grammar, info: FirstInfo, r: nat)
    requires g.Valid() && Shaped(g, info) && r < |g.rules|
  {
    forall i :: 0 <= i < |g.rules[r].rhs| ==> FirstClosedAt(g, info, r, i)
  }

  ghost predicate FirstClosed(g: Grammar, info: FirstInfo)
    requires g.Valid() && Shaped(g, info)
  {
    forall r :: 0 <= r < |g.rules| ==> RuleClosed(g, info, r)
  }

  ghost predicate Flagged(lambda: seq<bool>, a: Form) {
    forall k :: 0 <= k < |a| ==> a[k] < |lambda| && lambda[a[k]]
  }

  lemma FlaggedConcat(lambda: seq<bool>, a: Form, b: Form)
    ensures Flagged(lambda, a + b) <==> Flagged(lambda, a) && Flagged(lambda, b)
  {
    assert forall k :: 0 <= k < |a| ==> a[k] == (a + b)[k];
    assert forall k :: 0 <= k < |b| ==> b[k] == (a + b)[|a| + k];
  }

  lemma {:induction false} LambdaComplete(g: Grammar, lambda: seq<bool>, n: nat, a: Form)
    requires g.Valid() && |lambda| == g.nsymbol && LambdaClosed(g, lambda)
    requires DerivesIn(g, n, a, [])
    ensures Flagged(lambda, a)
  {
    if n > 0 {
      var m: Form :| Step(g, a, m) && DerivesIn(g, n - 1, m, []);
      var i: nat, r: nat :| StepAt(g, a, i, r, m);
      LambdaComplete(g, lambda, n - 1, m);
      FlaggedBackStep(g, lambda, a, i, r, m);
    }
  }

  lemma FlaggedBackStep(g: Grammar, lambda: seq<bool>, a: Form, i: nat, r: nat, m: Form)
    requires g.Valid() && |lambda| == g.nsymbol && LambdaClosed(g, lambda)
    requires StepAt(g, a, i, r, m) && Flagged(lambda, m)
    ensures Flagged(lambda, a)
  {
    FlaggedConcat(lambda, a[..i] + g.rules[r].rhs, a[i + 1..]);
    FlaggedConcat(lambda, a[..i], g.rules[r].rhs);
    assert LambdaClosedAt(g, lambda, r);
    FlaggedConcat(lambda, a[..i] + [a[i]], a[i + 1..]);
    FlaggedConcat(lambda, a[..i], [a[i]]);
    SplitAt(a, i);
  }

  // t is in FIRST of the form a, as the flags and sets compute it.
  ghost predicate Leads(g: Grammar, info: FirstInfo, a: Form, t: Symbol, i: nat)
    requires Shaped(g, info)
  {
    && i < |a| && Flagged(info.lambda, a[..i])
    && a[i] < g.nsymbol && t in FirstOf(g, info.first, a[i])
  }

  lemma LeadsBackStep(g: Grammar, info: FirstInfo, a: Form, i: nat, r: nat, m: Form, t: Symbol, p: nat) returns (q: nat)
    requires g.Valid() && Shaped(g, info) && LambdaClosed(g, info.lambda) && FirstClosed(g, info)
    requires StepAt(g, a, i, r, m) && Leads(g, info, m, t, p)
    ensures Leads(g, info, a, t, q)
  {
    var rhs := g.rules[r].rhs;
    SplicePrefix(a, i, rhs, m, p);
    if p < i {
      q := p;
    } else if p < i + |rhs| {
      q := i;
      FlaggedConcat(info.lambda, a[..i], rhs[..p - i]);
      FlaggedMembers(info.lambda, rhs, p - i);
      assert RuleClosed(g, info, r) && FirstClosedAt(g, info, r, p - i);
    } else {
      q := p + 1 - |rhs|;
      FlaggedConcat(info.lambda, a[..i] + rhs, a[i + 1..q]);
      FlaggedConcat(info.lambda, a[..i], rhs);
      assert LambdaClosedAt(g, info.lambda, r);
      FlaggedConcat(info.lambda, a[..i] + [a[i]], a[i + 1..q]);
      FlaggedConcat(info.lambda, a[..i], [a[i]]);
      SplitAt(a[..q], i);
      assert a[..q][..i] == a[..i] && a[..q][i + 1..] == a[i + 1..q];
    }
  }

  lemma FlaggedMembers(lambda: seq<bool>, a: Form, n: nat)
    requires n <= |a| && Flagged(lambda, a[..n])
    ensures forall k :: 0 <= k < n ==> a[k] < |lambda| && lambda[a[k]]
  {
    forall k | 0 <= k < n
      ensures a[k] < |lambda| && lambda[a[k]]
    {
      assert a[..n][k] == a[k];
    }
  }

  lemma {:induction false} FirstComplete(g: Grammar, info: FirstInfo, n: nat, a: Form, t: Symbol, rest: Form)
    returns (q: nat)
    requires g.Valid() && Shaped(g, info) && LambdaClosed(g, info.lambda) && FirstClosed(g, info)
    requires t < g.nterminal && DerivesIn(g, n, a, [t] + rest)
    ensures Leads(g, info, a, t, q)
  {
    if n == 0 {
      q := 0;
    } else {
      var m: Form :| Step(g, a, m) && DerivesIn(g, n - 1, m, [t] + rest);
      var i: nat, r: nat :| StepAt(g, a, i, r, m);
      var p := FirstComplete(g, info, n - 1, m, t, rest);
      q := LeadsBackStep(g, info, a, i, r, m, t, p);
    }
  }

  // The least-fixpoint theorem: sound and closed means exact.
  lemma SoundAndClosedIsExact(g: Grammar, info: FirstInfo)
    requires g.Valid() && Shaped(g, info)
    requires LambdaSound(g, info.lambda) && LambdaClosed(g, info.lambda)
    requires FirstSound(g, info.first) && FirstClosed(g, info)
    ensures Exact(g, info)
  {
    forall s | 0 <= s < g.nsymbol && Nullable(g, [s])
      ensures info.lambda[s]
    {
      var n: nat :| DerivesIn(g, n, [s], []);
      LambdaComplete(g, info.lambda, n, [s]);
    }
    forall k, t: nat | 0 <= k < |info.first| && t < g.nterminal && Begins(g, [g.nterminal + k], t)
      ensures t in info.first[k]
    {
      var a := [g.nterminal + k];
      var rest: Form :| Derives(g, a, [t] + rest);
      var n: nat :| DerivesIn(g, n, a, [t] + rest);
      var q := FirstComplete(g, info, n, a, t, rest);
    }
  }

  // ---- the two loops ----

  ghost function Unset(lambda: seq<bool>): set<nat> {
    set s: nat | s < |lambda| && !lambda[s]
  }

  method FindLambdas(g: Grammar) returns (lambda: array<bool>)
    requires g.Valid()
    ensures lambda.Length == g.nsymbol
    ensures LambdaSound(g, lambda[..]) && LambdaClosed(g, lambda[..])
  {
    lambda := new bool[g.nsymbol](_ => false);
    var progress := true;
    while progress
      invariant LambdaSound(g, lambda[..])
      invariant !progress ==> LambdaClosed(g, lambda[..])
      decreases Unset(lambda[..]), progress
    {
      progress := false;
      ghost var before := Unset(lambda[..]);
      for r := 0 to |g.rules|
        invariant LambdaSound(g, lambda[..])
        invariant !progress ==> forall q :: 0 <= q < r ==> LambdaClosedAt(g, lambda[..], q)
        invariant if progress then Unset(lambda[..]) < before else Unset(lambda[..]) == before
      {
        var rule := g.rules[r];
        if !lambda[rule.lhs] {
          var i := 0;
          while i < |rule.rhs| && lambda[rule.rhs[i]]
            invariant i <= |rule.rhs|
            invariant forall k :: 0 <= k < i ==> lambda[rule.rhs[k]]
          {
            i := i + 1;
          }
          if i == |rule.rhs| {
            assert forall k :: 0 <= k < i ==> lambda[..][rule.rhs[k]];
            RuleNullable(g, r);
            ghost var old_ := lambda[..];
            lambda[rule.lhs] := true;
            progress := true;
            assert lambda[..] == old_[rule.lhs := true];
            assert rule.lhs in Unset(old_) && rule.lhs !in Unset(lambda[..]);
          } else {
            assert !lambda[..][rule.rhs[i]];
          }
        }
      }
    }
  }

  ghost predicate TableFits(g: Grammar, table: SetTable)
    reads table, table.rows
  {
    && table.Valid()
    && g.nterminal <= g.nsymbol && |table.rows| == g.nsymbol - g.nterminal && table.size == g.nterminal + 1
    && FirstSound(g, table.Family())
  }

  // What one symbol of a right-hand side contributes is sound for the left-hand side.
  lemma ContributionSound(g: Grammar, lambda: seq<bool>, f: seq<set<nat>>, r: nat, i: nat)
    requires g.Valid() && r < |g.rules| && i < |g.rules[r].rhs|
    requires |lambda| == g.nsymbol && LambdaSound(g, lambda)
    requires |f| == g.nsymbol - g.nterminal && FirstSound(g, f)
    requires forall k :: 0 <= k < i ==> lambda[g.rules[r].rhs[k]]
    ensures var k, extra := g.rules[r].lhs - g.nterminal, FirstOf(g, f, g.rules[r].rhs[i]);
            FirstSound(g, f[k := f[k] + extra]) && forall t :: t in extra ==> t < g.nterminal
  {
    var s1, s2 := g.rules[r].lhs, g.rules[r].rhs[i];
    assert g.ValidRule(g.rules[r]);
    forall t | t in FirstOf(g, f, s2)
      ensures Begins(g, [s1], t) && t < g.nterminal
    {
      if g.Terminal(s2) {
        BeginsItself(g, s2);
      }
      BeginsRule(g, r, i, t);
    }
  }

  predicate Stops(g: Grammar, lambda: seq<bool>, s: Symbol)
    requires s < |lambda|
  {
    g.Terminal(s) || !lambda[s]
  }

  // One symbol of a right-hand side in the FIRST pass; stop is the inner loop's break.
  method FirstOfSymbol(g: Grammar, lambda: array<bool>, table: SetTable, r: nat, i: nat)
    returns (added: bool, stop: bool)
    requires g.Valid() && r < |g.rules| && i < |g.rules[r].rhs|
    requires lambda.Length == g.nsymbol && LambdaSound(g, lambda[..])
    requires forall k :: 0 <= k < i ==> lambda[g.rules[r].rhs[k]]
    requires TableFits(g, table) && lambda !in table.rows
    modifies table.rows
    ensures TableFits(g, table) && lambda[..] == old(lambda[..])
    ensures if added then Absent(table.Family(), table.size) < old(Absent(table.Family(), table.size))
            else table.Family() == old(table.Family())
    ensures !added ==> FirstOf(g, table.Family(), g.rules[r].rhs[i]) <= table.Family()[g.rules[r].lhs - g.nterminal]
    ensures stop == Stops(g, lambda[..], g.rules[r].rhs[i])
  {
    hide Nullable, Begins;
    var s1, s2 := g.rules[r].lhs, g.rules[r].rhs[i];
    ghost var f := table.Family();
    assert g.ValidRule(g.rules[r]);
    ContributionSound(g, lambda[..], f, r, i);
    AbsentShrinks(f, f[s1 - g.nterminal := f[s1 - g.nterminal] + FirstOf(g, f, s2)], s1 - g.nterminal,
      FirstOf(g, f, s2), table.size);
    if g.Terminal(s2) {
      added := table.SetAdd(s1 - g.nterminal, s2);
      stop := true;
    } else if s1 == s2 {
      added := false;
      stop := !lambda[s1];
    } else {
      added := table.SetUnion(s1 - g.nterminal, s2 - g.nterminal);
      stop := !lambda[s2];
    }
    assert lambda[..] == old(lambda[..]);
  }

  // A pass over a rule that added nothing leaves it closed: the symbols after the
  // break are hidden by a symbol that is not nullable.
  lemma QuietPassClosed(g: Grammar, info: FirstInfo, r: nat, i: nat)
    requires g.Valid() && Shaped(g, info) && r < |g.rules| && i <= |g.rules[r].rhs|
    requires LambdaSound(g, info.lambda)
    requires forall k :: 0 <= k < i ==>
               FirstOf(g, info.first, g.rules[r].rhs[k]) <= info.first[g.rules[r].lhs - g.nterminal]
    requires i < |g.rules[r].rhs| ==> i > 0 && Stops(g, info.lambda, g.rules[r].rhs[i - 1])
    ensures RuleClosed(g, info, r)
  {
    if i < |g.rules[r].rhs| && g.Terminal(g.rules[r].rhs[i - 1]) {
      TerminalNotNullable(g, g.rules[r].rhs[i - 1]);
    }
  }

  // One rule of the FIRST pass: the inner for loop.
  method FirstOfRule(g: Grammar, lambda: array<bool>, table: SetTable, r: nat) returns (changed: bool)
    requires g.Valid() && r < |g.rules|
    requires lambda.Length == g.nsymbol && LambdaSound(g, lambda[..])
    requires TableFits(g, table) && lambda !in table.rows
    modifies table.rows
    ensures TableFits(g, table) && lambda[..] == old(lambda[..])
    ensures if changed then Absent(table.Family(), table.size) < old(Absent(table.Family(), table.size))
            else table.Family() == old(table.Family())
    ensures !changed ==> RuleClosed(g, FirstInfo(lambda[..], table.Family()), r)
  {
    hide FirstSound, LambdaSound, Absent, RuleClosed;
    changed := false;
    ghost var start, flags := table.Family(), lambda[..];
    ghost var rhs := g.rules[r].rhs;
    assert g.ValidRule(g.rules[r]);
    var i, stop := 0, false;
    while i < |g.rules[r].rhs| && !stop
      invariant i <= |rhs| && TableFits(g, table)
      invariant lambda[..] == flags
      invariant !stop ==> forall k :: 0 <= k < i ==> flags[rhs[k]]
      invariant stop ==> i > 0 && Stops(g, flags, rhs[i - 1])
      invariant if changed then Absent(table.Family(), table.size) < Absent(start, table.size)
        else table.Family() == start
      invariant !changed ==> forall k :: 0 <= k < i ==>
                  FirstOf(g, start, rhs[k]) <= start[g.rules[r].lhs - g.nterminal]
    {
      var added;
      added, stop := FirstOfSymbol(g, lambda, table, r, i);
      changed := changed || added;
      i := i + 1;
    }
    if !changed {
      QuietPassClosed(g, FirstInfo(flags, start), r, i);
    }
  }

  lemma TerminalNotNullable(g: Grammar, t: Symbol)
    requires g.Valid() && t < g.nterminal
    ensures !Nullable(g, [t])
  {
  }

  // One round over all rules.
  method FirstPass(g: Grammar, lambda: array<bool>, table: SetTable) returns (progress: bool)
    requires g.Valid() && lambda.Length == g.nsymbol && LambdaSound(g, lambda[..])
    requires TableFits(g, table) && lambda !in table.rows
    modifies table.rows
    ensures TableFits(g, table) && lambda[..] == old(lambda[..])
    ensures if progress then Absent(table.Family(), table.size) < old(Absent(table.Family(), table.size))
            else table.Family() == old(table.Family())
    ensures !progress ==> FirstClosed(g, FirstInfo(lambda[..], table.Family()))
  {
    hide FirstSound, LambdaSound, Absent, RuleClosed;
    ghost var before, flags := table.Family(), lambda[..];
    progress := false;
    for r := 0 to |g.rules|
      invariant TableFits(g, table) && lambda[..] == flags
      invariant if progress then Absent(table.Family(), table.size) < Absent(before, table.size)
        else table.Family() == before
      invariant !progress ==> forall q :: 0 <= q < r ==> RuleClosed(g, FirstInfo(flags, before), q)
    {
      var changed := FirstOfRule(g, lambda, table, r);
      progress := progress || changed;
    }
  }

  method FindFirstSets(g: Grammar) returns (info: FirstInfo)
    requires g.Valid()
    ensures Exact(g, info)
  {
    hide LambdaSound, LambdaClosed, Absent, FirstClosed;
    var lambda := FindLambdas(g);
    var table := new SetTable(seq(g.nsymbol - g.nterminal, _ => {}), g.nterminal);
    var progress := true;
    while progress
      invariant TableFits(g, table) && lambda !in table.rows && fresh(table.rows)
      invariant lambda.Length == g.nsymbol && LambdaSound(g, lambda[..]) && LambdaClosed(g, lambda[..])
      invariant !progress ==> FirstClosed(g, FirstInfo(lambda[..], table.Family()))
      decreases Absent(table.Family(), table.size), progress
    {
      progress := FirstPass(g, lambda, table);
    }
    info := FirstInfo(lambda[..], table.Family());
    SoundAndClosedIsExact(g, info);
  }
}
