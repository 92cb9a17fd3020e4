// The phases of lemon.c's main in their order, on a grammar that has been read and
// indexed, and the generated parser run on a word.

module Generator {
  import opened Wrappers
  import opened Grammars
  import opened Precedences
  import opened Sets
  import opened FirstSets
  import opened States
  import opened Automaton
  import opened Lookaheads
  import opened Lalr
  import opened Actions
  import opened Compress
  import opened Tables
  import opened Decisions
  import opened Driver
  import opened Soundness
  import opened Completeness
  import opened Parsers
  import opened Termination

  // The action list of a state stays below the 2^30 elements that msort can sort.
  ghost predicate Small(g: Grammar) {
    g.nsymbol + |AllItems(g)| * g.nterminal + 1 < 0x4000_0000
  }

  // ---- the lists are short enough ----

  lemma {:induction false} NoDupLength(s: seq<Item>, all: set<Item>)
    requires NoDup(s) && forall x :: x in s ==> x in all
    ensures |s| <= |all|
  {
    if s != [] {
      var last, rest := s[|s| - 1], s[..|s| - 1];
      assert forall x :: x in rest ==> x in s;
      NoDupLength(rest, all - {last});
    }
  }

  lemma {:induction false} DistinctLength(ap: seq<Action>, n: nat)
    requires DistinctSymbols(ap) && forall k :: 0 <= k < |ap| ==> ap[k].sp < n
    ensures |ap| <= n
  {
    UsedCount(ap, n);
    SubsetCount(Used(ap), UpTo(n));
  }

  ghost function Used(ap: seq<Action>): set<nat> {
    if ap == [] then {} else Used(ap[..|ap| - 1]) + {ap[|ap| - 1].sp}
  }

  lemma {:induction false} UsedCount(ap: seq<Action>, n: nat)
    requires DistinctSymbols(ap) && forall k :: 0 <= k < |ap| ==> ap[k].sp < n
    ensures |Used(ap)| == |ap| && Used(ap) <= UpTo(n)
    ensures forall x :: x in Used(ap) ==> HasShift(ap, x)
  {
    if ap != [] {
      var last, rest := ap[|ap| - 1], ap[..|ap| - 1];
      UsedCount(rest, n);
      forall x | HasShift(rest, x)
        ensures HasShift(ap, x) && x != last.sp
      {
        var k :| 0 <= k < |rest| && rest[k].sp == x;
        assert ap[k].sp == x;
      }
    }
  }

  lemma ShortList(g: Grammar, info: FirstInfo, a: Auto, i: nat)
    requires g.Valid() && Shaped(g, info) && Finished(g, info, a) && i < |a.states| && Small(g)
    ensures |a.states[i].ap| + |a.states[i].c.items| * g.nterminal + 1 < 0x4000_0000
  {
    var items, ap := a.states[i].c.items, a.states[i].ap;
    GoodItems(g, info, a, i);
    forall it | it in items
      ensures it in AllItems(g)
    {
      InAllItems(g, it);
    }
    NoDupLength(items, AllItems(g));
    assert Complete(g, a, i);
    forall k | 0 <= k < |ap|
      ensures ap[k].sp < g.nsymbol
    {
      ShiftSymbol(g, info, a, i, k);
    }
    DistinctLength(ap, g.nsymbol);
    Monotone(|items|, |AllItems(g)|, g.nterminal);
  }

  lemma Monotone(x: nat, y: nat, z: nat)
    requires x <= y
    ensures x * z <= y * z
  {
  }

  // ---- the automaton meets what FindFollowSets needs ----

  lemma LinksReady(g: Grammar, info: FirstInfo, a: Auto)
    requires g.Valid() && Shaped(g, info) && GoodAuto(g, info, a)
    ensures forall d, c :: Linked(a.bplp, d, c) ==> IsConfig(a.states, d) && IsConfig(a.states, c)
    ensures forall c, d :: ClosureLink(a.states, c, d) ==> IsConfig(a.states, d)
    ensures forall c, t :: IsConfig(a.states, c) && t in InitialSet(a.states, c) ==> t < g.nterminal
  {
    hide GoodAuto;
    assert BackLinksOk(a) by {
      AutoBackLinks(g, info, a);
    }
    forall c, d | ClosureLink(a.states, c, d)
      ensures IsConfig(a.states, d)
    {
      ClosureReady(g, info, a, c.state);
    }
    forall c, t | IsConfig(a.states, c) && t in InitialSet(a.states, c)
      ensures t < g.nterminal
    {
      ClosureReady(g, info, a, c.state);
    }
  }

  lemma AutoBackLinks(g: Grammar, info: FirstInfo, a: Auto)
    requires g.Valid() && Shaped(g, info) && GoodAuto(g, info, a)
    ensures BackLinksOk(a)
  {
  }

  lemma ClosureReady(g: Grammar, info: FirstInfo, a: Auto, i: nat)
    requires g.Valid() && Shaped(g, info) && GoodAuto(g, info, a) && i < |a.states|
    ensures forall it, d :: it in a.states[i].c.fplp && d in a.states[i].c.fplp[it] ==> d in a.states[i].c.items
    ensures forall it, t :: it in a.states[i].c.fws && t in a.states[i].c.fws[it] ==> t < g.nterminal
  {
    assert GoodState(g, info, i, a.states[i]);
  }

  // ---- the action lists ----

  ghost predicate Resolved(g: Grammar, a: Auto, f: Follow, i: nat, acts: seq<Action>, out: seq<Action>) {
    && ActionsFound(g, a, f, i, acts) && ConflictsResolved(g, a, f, i, acts)
    && exists best: Option<nat> :: CompressedInto(g, acts, out, best)
  }

  lemma ResolvedTabular(g: Grammar, a: Auto, f: Follow, i: nat, acts: seq<Action>, out: seq<Action>)
    requires Resolved(g, a, f, i, acts, out)
    ensures Tabular(g, out)
  {
    hide ConflictsResolved;
    var best: Option<nat> :| CompressedInto(g, acts, out, best);
    forall x | x in out && Alive(x)
      ensures x.sp <= g.nsymbol
    {
      assert best.None? ==> x in acts;
    }
  }

  // FindActions and CompressTables on one state.
  method StateActions(g: Grammar, ghost info: FirstInfo, a: Auto, f: Follow, i: nat)
    returns (acts: seq<Action>, out: seq<Action>, errors: nat)
    requires g.Valid() && Exact(g, info) && Finished(g, info, a) && i < |a.states| && Small(g)
    ensures Resolved(g, a, f, i, acts, out)
    ensures errors == 0 <==> NothingReported(g, a, f, i)
    ensures errors == 0 && NoPrecedence(g) ==> ConflictFree(g, a, f, i)
  {
    hide Nullable, Begins, Finished, Small, ConflictsResolved, NothingReported;
    ShortList(g, info, a, i);
    ghost var best: Option<nat>;
    acts, errors := FindActions(g, info, a, f, i);
    out, best := CompressState(g, acts);
  }

  // In no state anything is reported.
  ghost predicate Quiet(g: Grammar, a: Auto, f: Follow) {
    forall i :: 0 <= i < |a.states| ==> NothingReported(g, a, f, i)
  }

  lemma ConflictFreeIsQuiet(g: Grammar, a: Auto, f: Follow)
    requires AllConflictFree(g, a, f)
    ensures Quiet(g, a, f)
  {
    hide ConflictFree, NothingReported;
    forall i | 0 <= i < |a.states|
      ensures NothingReported(g, a, f, i)
    {
      ConflictFreeQuiet(g, a, f, i);
    }
  }

  method AllActions(g: Grammar, ghost info: FirstInfo, a: Auto, f: Follow)
    returns (lists: seq<seq<Action>>, outs: seq<seq<Action>>, errors: nat)
    requires g.Valid() && Exact(g, info) && Finished(g, info, a) && Small(g)
    ensures |lists| == |outs| == |a.states|
    ensures forall i :: 0 <= i < |lists| ==> Resolved(g, a, f, i, lists[i], outs[i])
    ensures errors == 0 <==> Quiet(g, a, f)
    ensures errors == 0 && NoPrecedence(g) ==> AllConflictFree(g, a, f)
  {
    hide Nullable, Begins, Finished, Small, Resolved, ConflictFree, NothingReported;
    lists, outs, errors := [], [], 0;
    for i := 0 to |a.states|
      invariant |lists| == |outs| == i
      invariant forall k :: 0 <= k < i ==> Resolved(g, a, f, k, lists[k], outs[k])
      invariant errors == 0 && NoPrecedence(g) ==> forall k :: 0 <= k < i ==> ConflictFree(g, a, f, k)
      invariant errors == 0 <==> forall k :: 0 <= k < i ==> NothingReported(g, a, f, k)
    {
      var acts, out, n := StateActions(g, info, a, f, i);
      lists, outs, errors := lists + [acts], outs + [out], errors + n;
    }
  }

  lemma ReportedGenerated(g: Grammar, info: FirstInfo, o: Output, outs: seq<seq<Action>>)
    requires g.Valid() && Exact(g, info) && Finished(g, info, o.a) && FollowsOf(o.a, o.f)
    requires |o.lists| == |outs| == |o.a.states| && Reported(g, outs, o.t)
    requires forall i :: 0 <= i < |outs| ==> Resolved(g, o.a, o.f, i, o.lists[i], outs[i])
    ensures Generated(g, info, o)
  {
    hide Nullable, Begins, Finished, FollowsOf, ActionsFound, ConflictsResolved, CompressedInto, ReportedState;
    forall i | 0 <= i < |o.lists|
      ensures GeneratedState(g, o, i)
    {
      assert Resolved(g, o.a, o.f, i, o.lists[i], outs[i]);
      var best: Option<nat> :| CompressedInto(g, o.lists[i], outs[i], best);
      assert Tabulated(g, o.t, i, o.lists[i], outs[i], best);
    }
  }

  // The whole generator, from the grammar xp as read: the lookaheads are those of LALR(1); what
  // is reported are the meetings that precedence does not settle. So a grammar without conflicts
  // is not reported, and without precedence only such a grammar is not.
  method Generate(xp: Grammar) returns (g: Grammar, info: FirstInfo, o: Output, errors: nat)
    requires xp.Valid() && Small(xp)
    ensures g.Valid() && Prepared(xp, g)
    ensures Generated(g, info, o) && LalrLookaheads(g, info, o.a, o.f) && Tight(g, info, o.a)
    ensures errors == 0 <==> Quiet(g, o.a, o.f)
    ensures errors == 0 && NoPrecedence(xp) ==> AllConflictFree(g, o.a, o.f)
    ensures AllConflictFree(g, o.a, o.f) ==> errors == 0
  {
    g := FindRulePrecedences(xp);
    PreparedSyntax(xp, g);
    SmallSyntax(xp, g);
    hide Nullable, Begins, GoodAuto, FollowsOf, Resolved, Reported, AllConflictFree, Small, Tight, LalrLookaheads,
      Prepared, SameSyntax, Quiet;
    info := FindFirstSets(g);
    var a := FindAutomaton(g, info);
    LinksReady(g, info, a);
    var f := Follows(a, g.nterminal);
    FollowsAreLalr(g, info, a, f);
    var lists, outs;
    lists, outs, errors := AllActions(g, info, a, f);
    forall i | 0 <= i < |outs|
      ensures Tabular(g, outs[i])
    {
      ResolvedTabular(g, a, f, i, lists[i], outs[i]);
    }
    var t := ReportTable(g, outs);
    o := Output(a, f, lists, t);
    ReportedGenerated(g, info, o, outs);
    if AllConflictFree(g, a, f) {
      ConflictFreeIsQuiet(g, a, f);
    }
  }

  lemma PreparedSyntax(g: Grammar, g': Grammar)
    requires g.Valid() && Prepared(g, g')
    ensures SameSyntax(g, g') && (NoPrecedence(g') <==> NoPrecedence(g))
  {
    forall r | 0 <= r < |g.rules|
      ensures g'.rules[r].lhs == g.rules[r].lhs && g'.rules[r].rhs == g.rules[r].rhs
    {
      assert Ranked(g, g.rules[r], g'.rules[r]);
    }
  }

  lemma SmallSyntax(g: Grammar, g': Grammar)
    requires SameSyntax(g, g')
    ensures Small(g') <==> Small(g)
    ensures ShortRules(g') <==> ShortRules(g)
  {
    assert AllItems(g') == AllItems(g);
  }

  // Rule r of the grammar as read, with no precedence symbol of its own, behind which its operator p
  // comes again: the generated tables reduce, so that p groups to the left, if p was declared
  // left-associative, and shift if it was not.
  lemma OperatorGroups(g: Grammar, g': Grammar, info: FirstInfo, o: Output, s: nat, r: nat, k: nat, t: nat)
    requires g.Valid() && Prepared(g, g') && Generated(g', info, o) && s < |o.a.states| && r < |g.rules|
    requires g.rules[r].precsym == None && k < |g.rules[r].rhs|
    requires forall i :: 0 <= i < k ==> g.prec[g.rules[r].rhs[i]] < 0
    requires g.prec[g.rules[r].rhs[k]] >= 0
    requires var p := g.rules[r].rhs[k]; OnlyTwo(g', o, s, p, Action(p, SHIFT, t), Action(p, REDUCE, r))
    ensures var p := g.rules[r].rhs[k]; Value(g', o.t, s, p) == if g.assoc[p] == Left then |o.a.states| + r else t
  {
    var rhs := g.rules[r].rhs;
    assert g.ValidRule(g.rules[r]) && Ranked(g, g.rules[r], g'.rules[r]);
    assert g'.rules[r].precsym == Some(rhs[k]) by {
      hide Generated, OnlyTwo;
      assert g.prec[rhs[k]] >= 0;
    }
    hide Generated, OnlyTwo, Prepared;
    OperatorDecides(g', info, o, s, rhs[k], t, r);
  }

  method FindAutomaton(g: Grammar, info: FirstInfo) returns (a: Auto)
    requires g.Valid() && Exact(g, info)
    ensures Finished(g, info, a) && Tight(g, info, a)
  {
    hide Complete, GoodStates, Nullable, Begins;
    var lem := new Lemon(g, info);
    lem.FindStates();
    a := Auto(lem.states, lem.bplp);
    assert a == lem.Snap();
  }

  // What is said of a word and an answer is the same for both grammars.
  lemma SameAnswers(g: Grammar, g': Grammar, depth: nat, w: Form)
    requires SameSyntax(g, g')
    ensures g'.start == g.start && (Words(g', w) <==> Words(g, w))
    ensures TurnBound(g', depth, |w|) == TurnBound(g, depth, |w|) && (Sentence(g', w) <==> Sentence(g, w))
    ensures forall v :: TreeOf(g', v, g.start) <==> TreeOf(g, v, g.start)
    ensures forall out :: Verdict(g', depth, w, out) <==> Verdict(g, depth, w, out)
  {
    SameSentences(g, g', w);
    forall v
      ensures TreeOf(g', v, g.start) <==> TreeOf(g, v, g.start)
    {
      SameTree(g, g', v, g.start);
    }
    hide TreeOf, SizeBound, Sentence;
  }

  // Generator and parser together, on the tokens of a word and the end marker: what is
  // accepted is a sentence, and for a grammar without conflicts the answer is right.
  method Recognize(xp: Grammar, depth: nat, w: Form, turns: nat) returns (out: Outcome, errors: nat)
    requires xp.Valid() && Small(xp) && ShortRules(xp) && Words(xp, w) && depth > 0
    ensures out.Accepted? ==> w != [] && Sentence(xp, w) && TreeOf(xp, out.value, xp.start) && Yield(out.value) == w
    ensures errors == 0 && NoPrecedence(xp) && w != [] && turns >= TurnBound(xp, depth, |w|) ==>
      Verdict(xp, depth, w, out)
  {
    hide Small, ShortRules, Generated, Honest, Drive, TreeOf, Verdict, NoPrecedence, LalrLookaheads, Tight,
      AllConflictFree, Prepared, SameSyntax, Quiet;
    var g, info, o;
    g, info, o, errors := Generate(xp);
    PreparedSyntax(xp, g);
    SmallSyntax(xp, g);
    SameAnswers(xp, g, depth, w);
    hide TurnBound;
    GeneratedHonest(g, info, o);
    TokensOf(g, info, o, w);
    var parser := new Parser(g, o.t, o.a, depth);
    ghost var rest;
    rest, out := parser.ParseTokens(w + [0], turns);
    ParserIsSound(g, info, o, depth, w, turns);
    if AllConflictFree(g, o.a, o.f) && w != [] && turns >= TurnBound(g, depth, |w|) {
      ParserEnds(g, info, o, depth, w, turns);
    }
  }
}
