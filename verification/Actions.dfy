// FindActions and resolve_conflict of lemon.c, state by state: the action list of a state and
// its conflicts.

module Actions {
  import opened Wrappers
  import opened Grammars
  import opened Sets
  import opened States
  import opened Automaton
  import opened Lookaheads
  import opened FirstSets
  import M = MergeSort

  // ---- sorting an action list ----

  function TypeRank(t: ActType): int {
    match t
    case SHIFT => 0
    case ACCEPT => 1
    case REDUCE => 2
    case ERROR => 3
    case CONFLICT => 4
    case SH_RESOLVED => 5
    case RD_RESOLVED => 6
    case NOT_USED => 7
  }

  // actioncmp
  function ActionCmp(a: Action, b: Action): int {
    if a.sp != b.sp then a.sp - b.sp
    else if a.typ != b.typ then TypeRank(a.typ) - TypeRank(b.typ)
    else a.arg - b.arg
  }

  ghost predicate InOrder(s: seq<Action>) {
    forall i, j :: 0 <= i < j < |s| ==> ActionCmp(s[i], s[j]) <= 0
  }

  function ToList(s: seq<Action>): M.List<Action> {
    if s == [] then M.Nil else M.Cons(s[0], ToList(s[1..]))
  }

  lemma {:induction false} ToListElements(s: seq<Action>)
    ensures M.Elements(ToList(s)) == s && M.Length(ToList(s)) == |s|
  {
    if s != [] {
      ToListElements(s[1..]);
    }
  }

  lemma {:induction false} SortedElements(l: M.List<Action>)
    requires M.Sorted(l, ActionCmp)
    ensures InOrder(M.Elements(l))
  {
    if l.Cons? {
      if l.tail.Cons? {
        SortedElements(l.tail);
        var e := M.Elements(l.tail);
        forall k | 0 <= k < |e|
          ensures ActionCmp(l.head, e[k]) <= 0
        {
          assert k > 0 ==> ActionCmp(e[0], e[k]) <= 0;
        }
      }
    }
  }

  // Action_sort
  method ActionSort(ap: seq<Action>) returns (r: seq<Action>)
    requires |ap| < 0x4000_0000
    ensures InOrder(r) && multiset(r) == multiset(ap)
  {
    ToListElements(ap);
    assert M.Ordering(ActionCmp) by {
      assert forall a, b, c :: M.Chain(ActionCmp, a, b, c) ==> ActionCmp(a, c) <= 0;
    }
    var l := M.Msort(ToList(ap), ActionCmp);
    M.StableSortPermutes(l, ToList(ap), ActionCmp);
    SortedElements(l);
    r := M.Elements(l);
  }

  // ---- conflicts ----

  // An action that ends up in the tables: compute_action gives it a code.
  predicate Alive(a: Action) {
    a.typ == SHIFT || a.typ == ACCEPT || a.typ == REDUCE || a.typ == ERROR
  }

  // Two actions on one symbol compete only if one is a REDUCE and the other a REDUCE or SHIFT.
  predicate CanClash(x: Action, y: Action) {
    x.sp == y.sp && Alive(x) && Alive(y) ==>
      (x.typ == SHIFT && y.typ == REDUCE) || (x.typ == REDUCE && y.typ == REDUCE)
  }

  function Prec(g: Grammar, s: Symbol): int {
    if s < |g.prec| then g.prec[s] else -1
  }

  function RulePrec(g: Grammar, r: nat): int {
    if r < |g.rules| && g.rules[r].precsym.Some? then Prec(g, g.rules[r].precsym.value) else -1
  }

  // resolve_conflict: the two actions afterwards, and the error count.
  function ResolveConflict(g: Grammar, x: Action, y: Action): (Action, Action, nat)
    requires g.Valid() && x.sp == y.sp < g.nsymbol && CanClash(x, y)
  {
    if x.typ == SHIFT && y.typ == REDUCE then
      var spx, spy := Prec(g, x.sp), RulePrec(g, y.arg);
      if spx < 0 || spy < 0 then (x, y.(typ := CONFLICT), 1)
      else if spx > spy then (x, y.(typ := RD_RESOLVED), 0)
      else if spx < spy then (x.(typ := SH_RESOLVED), y, 0)
      else if g.assoc[x.sp] == Right then (x, y.(typ := RD_RESOLVED), 0)
      else if g.assoc[x.sp] == Left then (x.(typ := SH_RESOLVED), y, 0)
      else
        assert g.assoc[x.sp] == NonAssoc;
        (x, y.(typ := CONFLICT), 1)
    else if x.typ == REDUCE && y.typ == REDUCE then
      var spx, spy := RulePrec(g, x.arg), RulePrec(g, y.arg);
      if spx < 0 || spy < 0 || spx == spy then (x, y.(typ := CONFLICT), 1)
      else if spx > spy then (x, y.(typ := RD_RESOLVED), 0)
      else (x.(typ := RD_RESOLVED), y, 0)
    else (x, y, 0)
  }

  predicate NoPrecedence(g: Grammar) {
    forall s :: 0 <= s < |g.prec| ==> g.prec[s] < 0
  }

  // An action keeps everything but possibly its life.
  predicate Retired(old_: Action, new_: Action) {
    new_ == old_ || (!Alive(new_) && new_.sp == old_.sp && new_.arg == old_.arg)
  }

  lemma ResolveOne(g: Grammar, x: Action, y: Action)
    requires g.Valid() && x.sp == y.sp < g.nsymbol && CanClash(x, y)
    ensures var (x', y', n) := ResolveConflict(g, x, y);
            && Retired(x, x') && Retired(y, y') && !(Alive(x') && Alive(y'))
            && (Alive(x) && Alive(y) ==> Alive(x') || Alive(y'))
            && (!(Alive(x) && Alive(y)) ==> x' == x && y' == y && n == 0)
            && (Alive(x) && Alive(y) && NoPrecedence(g) ==> n > 0)
  {
  }

  // The rank of a token is its precedence, that of a rule the precedence of its precedence
  // symbol, if it has one. The rank decides between a shift and a reduce, associativity
  // between equals; and the conflict that is left is reported, with the shift taken.
  lemma ShiftOrReduce(g: Grammar, x: Action, y: Action)
    requires g.Valid() && x.sp == y.sp < g.nsymbol && x.typ == SHIFT && y.typ == REDUCE && y.arg < |g.rules|
    ensures var (x', y', n) := ResolveConflict(g, x, y);
            var sym, token := g.rules[y.arg].precsym, g.prec[x.sp];
            && (sym == None || token < 0 ==> Alive(x') && !Alive(y') && n == 1)
            && (sym.Some? && token >= 0 ==>
                  var rule := g.prec[sym.value];
                  && (Alive(x') <==> rule < token || (rule == token && g.assoc[x.sp] != Left))
                  && (Alive(y') <==> !Alive(x'))
                  && n == if rule < 0 || (rule == token && g.assoc[x.sp] == NonAssoc) then 1 else 0)
  {
  }

  // Of two reduces the one whose rule has the higher rank is taken, or else the first one.
  lemma ReduceOrReduce(g: Grammar, x: Action, y: Action)
    requires g.Valid() && x.sp == y.sp < g.nsymbol && x.typ == REDUCE && y.typ == REDUCE
    requires x.arg < |g.rules| && y.arg < |g.rules|
    ensures var (x', y', n) := ResolveConflict(g, x, y);
            var first, second := g.rules[x.arg].precsym, g.rules[y.arg].precsym;
            && (first == None || second == None ==> Alive(x') && !Alive(y') && n == 1)
            && (first.Some? && second.Some? ==>
                  var p, q := g.prec[first.value], g.prec[second.value];
                  && (Alive(y') <==> 0 <= p < q) && (Alive(x') <==> !Alive(y'))
                  && n == if p < 0 || q < 0 || p == q then 1 else 0)
  {
  }

  ghost predicate RetiredAll(s: seq<Action>, s': seq<Action>) {
    |s| == |s'| && forall k :: 0 <= k < |s| ==> Retired(s[k], s'[k])
  }

  // No two living actions share a symbol.
  ghost predicate OneEach(s: seq<Action>) {
    forall i, j :: 0 <= i < j < |s| && s[i].sp == s[j].sp ==> !(Alive(s[i]) && Alive(s[j]))
  }

  ghost predicate Rivals(s: seq<Action>) {
    forall i, j :: 0 <= i < j < |s| ==> CanClash(s[i], s[j])
  }

  ghost predicate AllAlive(s: seq<Action>) {
    forall k :: 0 <= k < |s| ==> Alive(s[k])
  }

  lemma RetiredRivals(s: seq<Action>, s': seq<Action>)
    requires RetiredAll(s, s') && Rivals(s)
    ensures Rivals(s')
  {
  }

  ghost predicate DistinctSps(s: seq<Action>) {
    forall i, j :: 0 <= i < j < |s| ==> s[i].sp != s[j].sp
  }

  // ---- who wins: the actions on one symbol, in their order ----

  // y takes the place of x.
  ghost predicate Beats(g: Grammar, x: Action, y: Action) {
    g.Valid() && x.sp == y.sp < g.nsymbol && CanClash(x, y) && Alive(ResolveConflict(g, x, y).1)
  }

  // The champion of s[lo..hi]: each action in turn meets the champion so far.
  ghost function Champion(g: Grammar, s: seq<Action>, lo: nat, hi: nat): (c: nat)
    requires lo < hi <= |s|
    ensures lo <= c < hi
    decreases hi
  {
    if hi == lo + 1 then lo
    else
      var c := Champion(g, s, lo, hi - 1);
      if Beats(g, s[c], s[hi - 1]) then hi - 1 else c
  }

  // The champion never goes back.
  lemma {:induction false} ChampionOn(g: Grammar, s: seq<Action>, lo: nat, a: nat, b: nat)
    requires lo < a <= b <= |s|
    ensures Champion(g, s, lo, a) <= Champion(g, s, lo, b)
    decreases b
  {
    hide Beats;
    if a < b {
      ChampionOn(g, s, lo, a, b - 1);
    }
  }

  // The meeting of x and y is reported.
  ghost predicate Disputed(g: Grammar, x: Action, y: Action) {
    g.Valid() && x.sp == y.sp < g.nsymbol && CanClash(x, y) && ResolveConflict(g, x, y).2 > 0
  }

  // No action of s[lo..hi] has a reported meeting with the champion before it.
  ghost predicate Undisputed(g: Grammar, s: seq<Action>, lo: nat, hi: nat) {
    lo < hi <= |s| && forall k :: lo < k < hi ==> !Disputed(g, s[Champion(g, s, lo, k)], s[k])
  }

  lemma BeatsShift(g: Grammar, x: Action, y: Action)
    requires g.Valid() && x.sp == y.sp < g.nsymbol && x.typ == SHIFT && y.typ == REDUCE
    ensures var token, rule := Prec(g, x.sp), RulePrec(g, y.arg);
            Beats(g, x, y) <==> 0 <= token < rule || (0 <= token == rule && g.assoc[x.sp] == Left)
  {
  }

  lemma BeatsReduce(g: Grammar, x: Action, y: Action)
    requires g.Valid() && x.sp == y.sp < g.nsymbol && x.typ == REDUCE && y.typ == REDUCE
    ensures Beats(g, x, y) <==> 0 <= RulePrec(g, x.arg) < RulePrec(g, y.arg)
  {
  }

  // c is the first action, if none beats it; otherwise, of the actions that beat the first
  // one, the earliest whose rule has the highest precedence.
  ghost predicate Wins(g: Grammar, cs: seq<Action>, n: nat, c: nat) {
    && c < n <= |cs|
    && (c == 0 ==> forall k :: 1 <= k < n ==> !Beats(g, cs[0], cs[k]))
    && (c > 0 ==> Beats(g, cs[0], cs[c]) && forall k :: 1 <= k < n && Beats(g, cs[0], cs[k]) ==>
          RulePrec(g, cs[k].arg) <= RulePrec(g, cs[c].arg) &&
          (k < c ==> RulePrec(g, cs[k].arg) < RulePrec(g, cs[c].arg)))
  }

  // Candidates on one symbol: a shift can only be the first.
  ghost predicate Contenders(g: Grammar, cs: seq<Action>) {
    && cs != [] && cs[0].sp < g.nsymbol
    && (forall k :: 1 <= k < |cs| ==> cs[k].sp == cs[0].sp && cs[k].typ == REDUCE)
    && (|cs| > 1 ==> cs[0].typ == SHIFT || cs[0].typ == REDUCE)
  }

  lemma {:induction false} ChampionWins(g: Grammar, cs: seq<Action>, n: nat)
    requires g.Valid() && Contenders(g, cs) && 0 < n <= |cs|
    ensures Wins(g, cs, n, Champion(g, cs, 0, n))
  {
    if n > 1 {
      ChampionWins(g, cs, n - 1);
      ChampionStep(g, cs, n, Champion(g, cs, 0, n - 1));
    }
  }

  lemma ChampionStep(g: Grammar, cs: seq<Action>, n: nat, c: nat)
    requires g.Valid() && Contenders(g, cs) && 1 < n <= |cs| && Wins(g, cs, n - 1, c)
    ensures Wins(g, cs, n, if Beats(g, cs[c], cs[n - 1]) then n - 1 else c)
  {
    var y := cs[n - 1];
    if cs[0].typ == SHIFT {
      BeatsShift(g, cs[0], y);
    } else {
      BeatsReduce(g, cs[0], y);
    }
    if c > 0 {
      if cs[0].typ == SHIFT {
        BeatsShift(g, cs[0], cs[c]);
      } else {
        BeatsReduce(g, cs[0], cs[c]);
      }
      BeatsReduce(g, cs[c], y);
    }
    hide Beats;
  }

  // All actions on one symbol, in a sorted list.
  ghost predicate Group(s: seq<Action>, lo: nat, hi: nat) {
    && lo < hi <= |s| && (forall k :: lo <= k < hi ==> s[k].sp == s[lo].sp)
    && (lo > 0 ==> s[lo - 1].sp != s[lo].sp) && (hi < |s| ==> s[hi].sp != s[lo].sp)
  }

  lemma GroupOf(s: seq<Action>, i: nat) returns (lo: nat, hi: nat)
    requires i < |s|
    ensures Group(s, lo, hi) && lo <= i < hi
  {
    lo, hi := i, i + 1;
    while lo > 0 && s[lo - 1].sp == s[i].sp
      invariant lo <= i && forall k :: lo <= k <= i ==> s[k].sp == s[i].sp
    {
      lo := lo - 1;
    }
    while hi < |s| && s[hi].sp == s[i].sp
      invariant i < hi <= |s| && forall k :: lo <= k < hi ==> s[k].sp == s[i].sp
    {
      hi := hi + 1;
    }
  }

  // Exactly the champion of every symbol is left alive.
  ghost predicate Decided(g: Grammar, s: seq<Action>, r: seq<Action>) {
    |r| == |s| && forall lo: nat, hi: nat, k: nat ::
      Group(s, lo, hi) && lo <= k < hi ==> (Alive(r[k]) <==> k == Champion(g, s, lo, hi))
  }

  lemma {:induction false} SymbolOrder(s: seq<Action>)
    requires InOrder(s)
    ensures forall i, j :: 0 <= i <= j < |s| ==> s[i].sp <= s[j].sp
  {
    forall i, j | 0 <= i < j < |s|
      ensures s[i].sp <= s[j].sp
    {
      assert ActionCmp(s[i], s[j]) <= 0;
    }
  }

  lemma InGroup(s: seq<Action>, lo: nat, hi: nat, l: nat)
    requires InOrder(s) && Group(s, lo, hi) && l < |s| && s[l].sp == s[lo].sp
    ensures lo <= l < hi
  {
    SymbolOrder(s);
    hide InOrder;
  }

  lemma DecidedOneEach(g: Grammar, s: seq<Action>, r: seq<Action>)
    requires Decided(g, s, r) && RetiredAll(s, r) && InOrder(s)
    ensures OneEach(r)
  {
    forall i, j | 0 <= i < j < |r| && r[i].sp == r[j].sp
      ensures !(Alive(r[i]) && Alive(r[j]))
    {
      assert Retired(s[i], r[i]) && Retired(s[j], r[j]);
      var lo, hi := GroupOf(s, i);
      InGroup(s, lo, hi, j);
    }
  }

  // What the loops have made of the actions s[lo..hi] when i is next: either the actions
  // before m are out and m has not met the others, or m has met them all.
  ghost predicate Stage(g: Grammar, s: seq<Action>, r: seq<Action>, lo: nat, hi: nat, i: nat, m: nat) {
    && lo <= m < hi <= |s| == |r| && Champion(g, s, lo, m + 1) == m
    && (i <= lo ==> m == lo) && (lo < i < m ==> Champion(g, s, lo, m) < i)
    && (i <= m ==> forall k :: lo <= k < hi ==> (Alive(r[k]) <==> m <= k))
    && (i > m ==> Champion(g, s, lo, hi) == m && forall k :: lo <= k < hi ==> (Alive(r[k]) <==> k == m))
  }

  ghost predicate InStage(g: Grammar, s: seq<Action>, r: seq<Action>, lo: nat, hi: nat, i: nat) {
    exists m: nat :: Stage(g, s, r, lo, hi, i, m)
  }

  ghost predicate Staged(g: Grammar, s: seq<Action>, r: seq<Action>, i: nat) {
    |r| == |s| && forall lo: nat, hi: nat :: Group(s, lo, hi) ==> InStage(g, s, r, lo, hi, i)
  }

  // Action i has met the actions before j: it still stands, or the next stage is reached.
  ghost predicate Meeting(g: Grammar, s: seq<Action>, r: seq<Action>, lo: nat, hi: nat, i: nat, j: nat) {
    && lo <= i < j <= hi <= |s| == |r|
    && (|| (Champion(g, s, lo, i + 1) == i == Champion(g, s, lo, j)
            && forall k :: lo <= k < hi ==> (Alive(r[k]) <==> k == i || j <= k))
        || (!Alive(r[i]) && Champion(g, s, lo, j) != i && InStage(g, s, r, lo, hi, i + 1)))
  }

  lemma MeetingStart(g: Grammar, s: seq<Action>, r: seq<Action>, lo: nat, hi: nat, i: nat)
    requires lo <= i < hi <= |s| && InStage(g, s, r, lo, hi, i)
    ensures Meeting(g, s, r, lo, hi, i, i + 1)
  {
    hide Champion;
    var m: nat :| Stage(g, s, r, lo, hi, i, m);
    if i != m {
      assert Stage(g, s, r, lo, hi, i + 1, m);
      ChampionOn(g, s, lo, i + 1, if i < m then m else hi);
    }
  }

  lemma MeetingEnd(g: Grammar, s: seq<Action>, r: seq<Action>, lo: nat, hi: nat, i: nat)
    requires Meeting(g, s, r, lo, hi, i, hi)
    ensures InStage(g, s, r, lo, hi, i + 1)
  {
    hide Champion;
    if Alive(r[i]) {
      assert Stage(g, s, r, lo, hi, i + 1, i);
    }
  }

  lemma StagedStart(g: Grammar, s: seq<Action>)
    requires AllAlive(s)
    ensures Staged(g, s, s, 0)
  {
    forall lo: nat, hi: nat | Group(s, lo, hi)
      ensures InStage(g, s, s, lo, hi, 0)
    {
      assert Stage(g, s, s, lo, hi, 0, lo);
    }
  }

  // The other groups do not notice.
  lemma StagedStep(g: Grammar, s: seq<Action>, c: seq<Action>, r: seq<Action>, lo: nat, hi: nat, i: nat)
    requires Staged(g, s, c, i) && Group(s, lo, hi) && lo <= i < hi && InStage(g, s, r, lo, hi, i + 1)
    requires |r| == |c| && forall k :: 0 <= k < |r| && !(lo <= k < hi) ==> r[k] == c[k]
    ensures Staged(g, s, r, i + 1)
  {
    hide Champion, Alive;
    forall lo': nat, hi': nat | Group(s, lo', hi')
      ensures InStage(g, s, r, lo', hi', i + 1)
    {
      if lo' <= i < hi' {
        SameGroup(s, lo, hi, lo', hi', i);
      } else {
        ApartGroups(s, lo, hi, lo', hi', i);
        assert InStage(g, s, c, lo', hi', i);
        var m: nat :| Stage(g, s, c, lo', hi', i, m);
        assert Stage(g, s, r, lo', hi', i + 1, m);
      }
    }
  }

  lemma SameGroup(s: seq<Action>, lo: nat, hi: nat, lo': nat, hi': nat, i: nat)
    requires Group(s, lo, hi) && Group(s, lo', hi') && lo <= i < hi && lo' <= i < hi'
    ensures lo == lo' && hi == hi'
  {
  }

  lemma ApartGroups(s: seq<Action>, lo: nat, hi: nat, lo': nat, hi': nat, i: nat)
    requires Group(s, lo, hi) && Group(s, lo', hi') && lo <= i < hi && !(lo' <= i < hi')
    ensures hi <= lo' || hi' <= lo
  {
  }

  lemma StagedDecided(g: Grammar, s: seq<Action>, r: seq<Action>)
    requires Staged(g, s, r, |s|)
    ensures Decided(g, s, r)
  {
    hide Champion, Alive;
    forall lo: nat, hi: nat, k: nat | Group(s, lo, hi) && lo <= k < hi
      ensures Alive(r[k]) <==> k == Champion(g, s, lo, hi)
    {
      assert InStage(g, s, r, lo, hi, |s|);
      var m: nat :| Stage(g, s, r, lo, hi, |s|, m);
    }
  }

  // The two nested loops over a sorted list.
  method ResolveAll(g: Grammar, s: seq<Action>) returns (r: seq<Action>, errors: nat)
    requires g.Valid() && InOrder(s) && Rivals(s) && AllAlive(s) && forall k :: 0 <= k < |s| ==> s[k].sp < g.nsymbol
    ensures RetiredAll(s, r) && OneEach(r) && Decided(g, s, r)
    ensures errors == 0 && NoPrecedence(g) ==> r == s
    ensures errors == 0 <==> AllUndisputed(g, s)
  {
    hide InOrder, Staged, InStage, Group, OneEach, NoPrecedence, Decided, CalmUpTo, Calm, AllUndisputed;
    r, errors := s, 0;
    StagedStart(g, s);
    assert CalmUpTo(g, s, 0) by {
      NoneYet(g, s);
    }
    for i := 0 to |s|
      invariant RetiredAll(s, r) && Staged(g, s, r, i)
      invariant errors == 0 && NoPrecedence(g) ==> r == s
      invariant errors == 0 <==> CalmUpTo(g, s, i)
    {
      RetiredRivals(s, r);
      ghost var before := r;
      ghost var lo, hi := GroupOf(s, i);
      GroupBounds(g, s, r, lo, hi, i);
      var n;
      r, n := ResolveFrom(g, s, r, i, lo, hi);
      StagedStep(g, s, before, r, lo, hi, i);
      CalmStep(g, s, lo, hi, i);
      errors := errors + n;
    }
    CalmAll(g, s);
    StagedDecided(g, s, r);
    DecidedOneEach(g, s, r);
  }

  lemma NoneYet(g: Grammar, s: seq<Action>)
    ensures CalmUpTo(g, s, 0)
  {
  }

  lemma GroupBounds(g: Grammar, s: seq<Action>, r: seq<Action>, lo: nat, hi: nat, i: nat)
    requires Staged(g, s, r, i) && Group(s, lo, hi)
    ensures hi <= |s| && InStage(g, s, r, lo, hi, i)
  {
  }

  // No action of s[lo..hi] has a reported meeting with i as the champion.
  ghost predicate Calm(g: Grammar, s: seq<Action>, lo: nat, hi: nat, i: nat) {
    lo <= i < hi <= |s| && forall k :: i < k < hi && Champion(g, s, lo, k) == i ==> !Disputed(g, s[i], s[k])
  }

  // All actions before i have met the others without a report.
  ghost predicate CalmUpTo(g: Grammar, s: seq<Action>, i: nat) {
    forall lo: nat, hi: nat, k: nat :: Group(s, lo, hi) && lo <= k < hi && k < i ==> Calm(g, s, lo, hi, k)
  }

  ghost predicate AllUndisputed(g: Grammar, s: seq<Action>) {
    forall lo: nat, hi: nat :: Group(s, lo, hi) ==> Undisputed(g, s, lo, hi)
  }

  lemma CalmStep(g: Grammar, s: seq<Action>, lo: nat, hi: nat, i: nat)
    requires Group(s, lo, hi) && lo <= i < hi
    ensures CalmUpTo(g, s, i + 1) <==> CalmUpTo(g, s, i) && Calm(g, s, lo, hi, i)
  {
    hide Calm, Champion;
    forall lo': nat, hi': nat | Group(s, lo', hi') && lo' <= i < hi'
      ensures lo' == lo && hi' == hi
    {
      SameGroup(s, lo, hi, lo', hi', i);
    }
    hide Group;
  }

  lemma CalmAll(g: Grammar, s: seq<Action>)
    ensures CalmUpTo(g, s, |s|) <==> AllUndisputed(g, s)
  {
    hide Disputed, Champion;
    if CalmUpTo(g, s, |s|) {
      forall lo: nat, hi: nat | Group(s, lo, hi)
        ensures Undisputed(g, s, lo, hi)
      {
        forall k | lo < k < hi
          ensures !Disputed(g, s[Champion(g, s, lo, k)], s[k])
        {
          assert Calm(g, s, lo, hi, Champion(g, s, lo, k));
        }
      }
    }
    if AllUndisputed(g, s) {
      forall lo: nat, hi: nat, k: nat | Group(s, lo, hi) && lo <= k < hi
        ensures Calm(g, s, lo, hi, k)
      {
        assert Undisputed(g, s, lo, hi);
      }
    }
  }

  // The inner loop: everything after i on the same symbol against action i.
  method ResolveFrom(g: Grammar, ghost s: seq<Action>, c: seq<Action>, i: nat, ghost lo: nat, ghost hi: nat)
    returns (r: seq<Action>, errors: nat)
    requires g.Valid() && RetiredAll(s, c) && Rivals(c) && i < |c| && forall k :: 0 <= k < |s| ==> s[k].sp < g.nsymbol
    requires Group(s, lo, hi) && lo <= i < hi && InStage(g, s, c, lo, hi, i)
    ensures RetiredAll(s, r) && InStage(g, s, r, lo, hi, i + 1)
    ensures forall k :: 0 <= k < |r| && !(lo <= k < hi) ==> r[k] == c[k]
    ensures errors == 0 && NoPrecedence(g) ==> r == c
    ensures errors == 0 <==> Calm(g, s, lo, hi, i)
  {
    hide Meeting, InStage, Champion, NoPrecedence, Alive, ResolveConflict, Disputed;
    r, errors := c, 0;
    var j: nat := i + 1;
    MeetingStart(g, s, c, lo, hi, i);
    while j < |r| && r[j].sp == r[i].sp
      invariant i < j <= hi && RetiredAll(s, r) && RetiredAll(c, r) && Meeting(g, s, r, lo, hi, i, j)
      invariant forall k :: 0 <= k < |r| && !(lo <= k < hi) ==> r[k] == c[k]
      invariant errors == 0 && NoPrecedence(g) ==> r == c
      invariant errors == 0 <==> Calm(g, s, lo, j, i)
    {
      assert Retired(s[i], r[i]) && Retired(s[j], r[j]);
      RetiredRivals(c, r);
      ResolveOne(g, r[i], r[j]);
      var (x, y, n) := ResolveConflict(g, r[i], r[j]);
      MeetingStep(g, s, r, lo, hi, i, j);
      r := r[i := x][j := y];
      errors := errors + n;
      j := j + 1;
    }
    assert Retired(s[i], r[i]) && (j < |r| ==> Retired(s[j], r[j]));
    MeetingEnd(g, s, r, lo, hi, i);
  }

  lemma MeetingStep(g: Grammar, s: seq<Action>, r: seq<Action>, lo: nat, hi: nat, i: nat, j: nat)
    requires Meeting(g, s, r, lo, hi, i, j) && RetiredAll(s, r) && j < hi
    requires g.Valid() && r[i].sp == r[j].sp < g.nsymbol && CanClash(r[i], r[j])
    ensures var (x, y, n) := ResolveConflict(g, r[i], r[j]);
            && Meeting(g, s, r[i := x][j := y], lo, hi, i, j + 1)
            && (n == 0 <==> !(Champion(g, s, lo, j) == i && Disputed(g, s[i], s[j])))
  {
    var (x, y, n) := ResolveConflict(g, r[i], r[j]);
    var r' := r[i := x][j := y];
    ResolveOne(g, r[i], r[j]);
    assert Retired(s[i], r[i]) && Retired(s[j], r[j]);
    if Alive(r[i]) && Champion(g, s, lo, j) == i && Alive(r[j]) {
      assert r[i] == s[i] && r[j] == s[j];
      assert Beats(g, s[i], s[j]) <==> Alive(y);
      assert Disputed(g, s[i], s[j]) <==> n > 0;
      hide ResolveConflict, Alive, Disputed;
      if Beats(g, s[i], s[j]) {
        assert Champion(g, s, lo, j + 1) == j;
        assert Stage(g, s, r', lo, hi, i + 1, j);
      }
    } else {
      assert r' == r;
    }
  }

  // ---- the actions of a state before conflicts are resolved ----

  predicate CompleteItem(g: Grammar, it: Item) {
    it.rule < |g.rules| && it.dot == |g.rules[it.rule].rhs|
  }

  // A reduce for a complete item on a terminal of its follow set.
  ghost predicate ReduceAction(g: Grammar, a: Auto, f: Follow, i: nat, act: Action) {
    && act.typ == REDUCE && act.sp < g.nterminal && i < |a.states| && act.arg < |g.rules|
    && var it := Item(act.arg, |g.rules[act.arg].rhs|);
       it in a.states[i].c.items && Cfg(i, it) in f && act.sp in f[Cfg(i, it)]
  }

  // The candidate actions of state i.
  ghost predicate Raw(g: Grammar, a: Auto, f: Follow, i: nat, act: Action) {
    && i < |a.states|
    && (|| act in a.states[i].ap
        || ReduceAction(g, a, f, i, act)
        || (i == 0 && act == Action(g.start, ACCEPT, 0)))
  }

  // act is the only candidate of state i on its symbol.
  ghost predicate Uncontested(g: Grammar, a: Auto, f: Follow, i: nat, act: Action) {
    Raw(g, a, f, i, act) && forall y :: Raw(g, a, f, i, y) && y.sp == act.sp ==> y == act
  }

  // State i has at most one candidate action on every symbol: the LALR(1) condition.
  ghost predicate ConflictFree(g: Grammar, a: Auto, f: Follow, i: nat) {
    forall x, y :: Raw(g, a, f, i, x) && Raw(g, a, f, i, y) && x.sp == y.sp ==> x == y
  }

  // What is known of a finished automaton.
  ghost predicate Finished(g: Grammar, info: FirstInfo, a: Auto)
    requires g.Valid() && Shaped(g, info)
  {
    GoodAuto(g, info, a) && |a.states| > 0 && forall m :: 0 <= m < |a.states| ==> Complete(g, a, m)
  }

  lemma ShiftSymbol(g: Grammar, info: FirstInfo, a: Auto, i: nat, k: nat)
    requires g.Valid() && Shaped(g, info) && Finished(g, info, a) && i < |a.states| && k < |a.states[i].ap|
    ensures a.states[i].ap[k].typ == SHIFT && 1 <= a.states[i].ap[k].sp < g.nsymbol && a.states[i].ap[k].sp != g.start
  {
    var act := a.states[i].ap[k];
    assert Complete(g, a, i) && GoodShift(g, a, i, act);
    var p :| p in a.states[i].c.items && AtDot(g, p, act.sp);
    assert g.ValidRule(g.rules[p.rule]);
    assert g.rules[p.rule].rhs[p.dot] in g.rules[p.rule].rhs;
  }

  lemma ShiftMember(g: Grammar, info: FirstInfo, a: Auto, i: nat, x: Action)
    requires g.Valid() && Shaped(g, info) && Finished(g, info, a) && i < |a.states| && x in a.states[i].ap
    ensures x.typ == SHIFT && 1 <= x.sp < g.nsymbol && x.sp != g.start
  {
    var k :| 0 <= k < |a.states[i].ap| && a.states[i].ap[k] == x;
    ShiftSymbol(g, info, a, i, k);
  }

  lemma OneShift(ap: seq<Action>, x: Action, y: Action)
    requires DistinctSymbols(ap) && x in ap && y in ap && x.sp == y.sp
    ensures x == y
  {
  }

  // Candidates clash only as resolve_conflict expects.
  lemma RawPair(g: Grammar, info: FirstInfo, a: Auto, f: Follow, i: nat, x: Action, y: Action)
    requires g.Valid() && Shaped(g, info) && Finished(g, info, a)
    requires Raw(g, a, f, i, x) && Raw(g, a, f, i, y) && x != y && ActionCmp(x, y) <= 0
    ensures CanClash(x, y)
  {
    var ap := a.states[i].ap;
    if x.sp == y.sp {
      if x in ap {
        ShiftMember(g, info, a, i, x);
      }
      if y in ap {
        ShiftMember(g, info, a, i, y);
      }
      if x in ap && y in ap {
        assert Complete(g, a, i);
        OneShift(ap, x, y);
      }
    }
  }

  lemma RawAlive(g: Grammar, info: FirstInfo, a: Auto, f: Follow, i: nat, x: Action)
    requires g.Valid() && Shaped(g, info) && Finished(g, info, a) && Raw(g, a, f, i, x)
    ensures x.sp < g.nsymbol && Alive(x)
  {
    if x in a.states[i].ap {
      ShiftMember(g, info, a, i, x);
    }
  }

  ghost predicate NoDupA(s: seq<Action>) {
    forall i, j :: 0 <= i < j < |s| ==> s[i] != s[j]
  }

  lemma {:induction false} NoDupCount(s: seq<Action>)
    requires NoDupA(s)
    ensures forall x :: multiset(s)[x] <= 1
  {
    if s != [] {
      NoDupCount(s[1..]);
      assert s == [s[0]] + s[1..];
      assert s[0] !in s[1..];
    }
  }

  lemma CountNoDup(s: seq<Action>)
    requires forall x :: multiset(s)[x] <= 1
    ensures NoDupA(s)
  {
    forall i, j | 0 <= i < j < |s|
      ensures s[i] != s[j]
    {
      SplitCount(s, i);
      assert s[j] in s[i + 1..];
    }
  }

  lemma SplitCount(s: seq<Action>, i: nat)
    requires i < |s|
    ensures multiset(s)[s[i]] == multiset(s[..i])[s[i]] + 1 + multiset(s[i + 1..])[s[i]]
    ensures s[i] in s[i + 1..] ==> multiset(s[i + 1..])[s[i]] >= 1
  {
    assert s == s[..i] + [s[i]] + s[i + 1..];
  }

  // A sorted duplicate-free list of candidates is what the resolving loops expect.
  lemma SortedCandidates(g: Grammar, info: FirstInfo, a: Auto, f: Follow, i: nat, raw: seq<Action>, s: seq<Action>)
    requires g.Valid() && Shaped(g, info) && Finished(g, info, a)
    requires NoDupA(raw) && forall x :: x in raw <==> Raw(g, a, f, i, x)
    requires InOrder(s) && multiset(s) == multiset(raw)
    ensures NoDupA(s) && Rivals(s) && AllAlive(s) && forall k :: 0 <= k < |s| ==> s[k].sp < g.nsymbol
    ensures forall x :: x in s <==> Raw(g, a, f, i, x)
    ensures DistinctSps(s) <==> ConflictFree(g, a, f, i)
  {
    NoDupCount(raw);
    CountNoDup(s);
    forall x
      ensures x in s <==> Raw(g, a, f, i, x)
    {
      assert x in s <==> x in multiset(s);
      assert x in raw <==> x in multiset(raw);
    }
    forall k | 0 <= k < |s|
      ensures Alive(s[k]) && s[k].sp < g.nsymbol
    {
      RawAlive(g, info, a, f, i, s[k]);
    }
    forall p, q | 0 <= p < q < |s|
      ensures CanClash(s[p], s[q])
    {
      RawPair(g, info, a, f, i, s[p], s[q]);
    }
    if ConflictFree(g, a, f, i) {
      assert DistinctSps(s);
    }
    if DistinctSps(s) {
      forall x, y | Raw(g, a, f, i, x) && Raw(g, a, f, i, y) && x.sp == y.sp
        ensures x == y
      {
        var p :| 0 <= p < |s| && s[p] == x;
        var q :| 0 <= q < |s| && s[q] == y;
      }
    }
  }

  // ---- FindActions for one state ----

  // The reduce actions found so far: all of the first k items, and of item k those
  // on the terminals below j.
  ghost predicate ReducesUpTo(g: Grammar, a: Auto, f: Follow, i: nat, k: nat, j: nat, act: Action) {
    && ReduceAction(g, a, f, i, act) && k <= |a.states[i].c.items|
    && var it := Item(act.arg, |g.rules[act.arg].rhs|);
       it in a.states[i].c.items[..k] || (k < |a.states[i].c.items| && it == a.states[i].c.items[k] && act.sp < j)
  }

  ghost predicate Gathered(g: Grammar, a: Auto, f: Follow, i: nat, raw: seq<Action>, k: nat, j: nat) {
    && NoDupA(raw) && i < |a.states|
    && forall x :: x in raw <==> x in a.states[i].ap || ReducesUpTo(g, a, f, i, k, j, x)
  }

  lemma GatherOne(g: Grammar, a: Auto, f: Follow, i: nat, raw: seq<Action>, k: nat, j: nat)
    requires g.Valid() && Gathered(g, a, f, i, raw, k, j) && k < |a.states[i].c.items| && j < g.nterminal
    requires NoDup(a.states[i].c.items) && CompleteItem(g, a.states[i].c.items[k])
    requires forall x :: x in a.states[i].ap ==> x.typ == SHIFT
    ensures var it := a.states[i].c.items[k];
            var act := Action(j, REDUCE, it.rule);
            if Cfg(i, it) in f && j in f[Cfg(i, it)] then Gathered(g, a, f, i, [act] + raw, k, j + 1)
            else Gathered(g, a, f, i, raw, k, j + 1)
  {
    var it := a.states[i].c.items[k];
    var act := Action(j, REDUCE, it.rule);
    assert it !in a.states[i].c.items[..k];
    assert it == Item(it.rule, |g.rules[it.rule].rhs|);
    if Cfg(i, it) in f && j in f[Cfg(i, it)] {
      assert act !in raw;
      PrependA(act, raw);
    }
  }

  lemma PrependA(act: Action, raw: seq<Action>)
    requires NoDupA(raw) && act !in raw
    ensures NoDupA([act] + raw) && forall x :: x in [act] + raw <==> x == act || x in raw
  {
  }

  lemma GatherNext(g: Grammar, a: Auto, f: Follow, i: nat, raw: seq<Action>, k: nat)
    requires i < |a.states| && k < |a.states[i].c.items|
    requires Gathered(g, a, f, i, raw, k, if CompleteItem(g, a.states[i].c.items[k]) then g.nterminal else 0)
    ensures Gathered(g, a, f, i, raw, k + 1, 0)
  {
    PrefixMembers(a.states[i].c.items, k);
  }

  method GatherActions(g: Grammar, ghost info: FirstInfo, a: Auto, f: Follow, i: nat) returns (raw: seq<Action>)
    requires g.Valid() && Shaped(g, info) && Finished(g, info, a) && i < |a.states|
    ensures NoDupA(raw) && forall x :: x in raw <==> Raw(g, a, f, i, x)
    ensures |raw| <= |a.states[i].ap| + |a.states[i].c.items| * g.nterminal + 1
  {
    var items := a.states[i].c.items;
    GoodItems(g, info, a, i);
    ShiftsOnly(g, info, a, i);
    raw := a.states[i].ap;
    for k := 0 to |items|
      invariant Gathered(g, a, f, i, raw, k, 0)
      invariant |raw| <= |a.states[i].ap| + k * g.nterminal
    {
      var cfp := items[k];
      if CompleteItem(g, cfp) {
        for j := 0 to g.nterminal
          invariant Gathered(g, a, f, i, raw, k, j)
          invariant |raw| <= |a.states[i].ap| + k * g.nterminal + j
        {
          GatherOne(g, a, f, i, raw, k, j);
          if Cfg(i, cfp) in f && j in f[Cfg(i, cfp)] {
            raw := [Action(j, REDUCE, cfp.rule)] + raw;
          }
        }
      }
      GatherNext(g, a, f, i, raw, k);
      assert (k + 1) * g.nterminal == k * g.nterminal + g.nterminal;
    }
    WholeSeq(items);
    if i == 0 {
      PrependA(Action(g.start, ACCEPT, 0), raw);
      raw := [Action(g.start, ACCEPT, 0)] + raw;
    }
  }

  lemma ShiftsOnly(g: Grammar, info: FirstInfo, a: Auto, i: nat)
    requires g.Valid() && Shaped(g, info) && Finished(g, info, a) && i < |a.states|
    ensures NoDupA(a.states[i].ap) && forall x :: x in a.states[i].ap ==> x.typ == SHIFT
  {
    assert Complete(g, a, i);
    DistinctNoDup(a.states[i].ap);
    forall x | x in a.states[i].ap
      ensures x.typ == SHIFT
    {
      ShiftMember(g, info, a, i, x);
    }
  }

  lemma DistinctNoDup(ap: seq<Action>)
    requires DistinctSymbols(ap)
    ensures NoDupA(ap)
  {
  }

  // The action list of state i after FindActions: at most one living action on a
  // symbol, only candidates, and every candidate that has no rival.
  ghost predicate ActionsFound(g: Grammar, a: Auto, f: Follow, i: nat, acts: seq<Action>) {
    && OneEach(acts)
    && (forall x :: x in acts ==> x.sp < g.nsymbol)
    && (forall x :: x in acts && Alive(x) ==> Raw(g, a, f, i, x))
    && (forall x :: Uncontested(g, a, f, i, x) ==> x in acts && Alive(x))
  }

  // The candidates of state i on symbol x, in the order of their list.
  ghost predicate Candidates(g: Grammar, a: Auto, f: Follow, i: nat, x: Symbol, cs: seq<Action>) {
    && cs != [] && Increasing(cs) && forall z :: z in cs <==> Raw(g, a, f, i, z) && z.sp == x
  }

  ghost predicate Increasing(cs: seq<Action>) {
    forall p, q :: 0 <= p < q < |cs| ==> ActionCmp(cs[p], cs[q]) < 0
  }

  ghost predicate ChampionTaken(g: Grammar, acts: seq<Action>, cs: seq<Action>)
    requires cs != []
  {
    var c := cs[Champion(g, cs, 0, |cs|)]; c in acts && Alive(c)
  }

  ghost predicate HasCandidates(g: Grammar, a: Auto, f: Follow, i: nat, x: Symbol) {
    exists cs :: Candidates(g, a, f, i, x, cs)
  }

  // On every symbol with candidates their champion is in the list.
  ghost predicate ConflictsResolved(g: Grammar, a: Auto, f: Follow, i: nat, acts: seq<Action>) {
    && (forall z :: Raw(g, a, f, i, z) ==> HasCandidates(g, a, f, i, z.sp))
    && (forall x, cs :: Candidates(g, a, f, i, x, cs) ==> ChampionTaken(g, acts, cs))
  }

  // An increasing list is determined by its members.
  lemma {:induction false} IncreasingUnique(a: seq<Action>, b: seq<Action>)
    requires Increasing(a) && Increasing(b) && forall z :: z in a <==> z in b
    ensures a == b
  {
    HeadIn(a);
    HeadIn(b);
    if a != [] && b != [] {
      SameHead(a, b);
      TailMembers(a);
      TailMembers(b);
      IncreasingUnique(a[1..], b[1..]);
      assert a == [a[0]] + a[1..] && b == [b[0]] + b[1..];
    }
  }

  lemma HeadIn(a: seq<Action>)
    ensures a != [] ==> a[0] in a
  {
  }

  lemma SameHead(a: seq<Action>, b: seq<Action>)
    requires Increasing(a) && Increasing(b) && a != [] && b != [] && a[0] in b && b[0] in a
    ensures a[0] == b[0]
  {
    var p :| 0 <= p < |b| && b[p] == a[0];
    var q :| 0 <= q < |a| && a[q] == b[0];
  }

  lemma TailMembers(a: seq<Action>)
    requires Increasing(a) && a != []
    ensures Increasing(a[1..]) && forall z :: z in a[1..] <==> z in a && z != a[0]
  {
    forall z | z in a && z != a[0]
      ensures z in a[1..]
    {
      var p :| 0 <= p < |a| && a[p] == z;
      assert a[1..][p - 1] == z;
    }
    forall p | 0 <= p < |a[1..]|
      ensures a[1..][p] != a[0] && a[1..][p] in a
    {
      assert ActionCmp(a[0], a[p + 1]) < 0;
    }
  }

  lemma {:induction false} ChampionOfSlice(g: Grammar, s: seq<Action>, lo: nat, hi: nat, end: nat)
    requires lo < hi <= end <= |s|
    ensures Champion(g, s, lo, hi) == lo + Champion(g, s[lo..end], 0, hi - lo)
    decreases hi
  {
    hide Beats;
    if hi > lo + 1 {
      ChampionOfSlice(g, s, lo, hi - 1, end);
    }
  }

  // The group of a candidate in the sorted list of all candidates.
  lemma GroupCandidates(g: Grammar, a: Auto, f: Follow, i: nat, s: seq<Action>, z: Action) returns (lo: nat, hi: nat)
    requires NoDupA(s) && InOrder(s) && (forall y :: y in s <==> Raw(g, a, f, i, y)) && z in s
    ensures lo < hi <= |s| && Group(s, lo, hi) && s[lo].sp == z.sp && Candidates(g, a, f, i, z.sp, s[lo..hi])
  {
    hide Raw, NoDupA, InOrder;
    var k: nat :| k < |s| && s[k] == z;
    lo, hi := GroupOf(s, k);
    SliceIncreasing(s, lo, hi);
    SliceMembers(s, lo, hi);
    hide Increasing;
    assert s[lo].sp == z.sp;
    assert s[lo..hi] != [];
  }

  lemma SliceIncreasing(s: seq<Action>, lo: nat, hi: nat)
    requires NoDupA(s) && InOrder(s) && lo <= hi <= |s|
    ensures Increasing(s[lo..hi])
  {
    forall p, q | 0 <= p < q < hi - lo
      ensures ActionCmp(s[lo..hi][p], s[lo..hi][q]) < 0
    {
      assert s[lo + p] != s[lo + q] && ActionCmp(s[lo + p], s[lo + q]) <= 0;
    }
  }

  lemma SliceMembers(s: seq<Action>, lo: nat, hi: nat)
    requires InOrder(s) && Group(s, lo, hi)
    ensures forall y :: y in s[lo..hi] <==> y in s && y.sp == s[lo].sp
  {
    forall y | y in s && y.sp == s[lo].sp
      ensures y in s[lo..hi]
    {
      var l: nat :| l < |s| && s[l] == y;
      InGroup(s, lo, hi, l);
      assert s[lo..hi][l - lo] == y;
    }
  }

  lemma ContestsResolved(g: Grammar, a: Auto, f: Follow, i: nat, s: seq<Action>, acts: seq<Action>)
    requires Decided(g, s, acts) && RetiredAll(s, acts) && NoDupA(s) && InOrder(s)
    requires forall x :: x in s <==> Raw(g, a, f, i, x)
    ensures ConflictsResolved(g, a, f, i, acts)
  {
    hide Raw, NoDupA, InOrder, Candidates, Group, Alive;
    forall z | Raw(g, a, f, i, z)
      ensures HasCandidates(g, a, f, i, z.sp)
    {
      var lo, hi := GroupCandidates(g, a, f, i, s, z);
    }
    forall x, cs | Candidates(g, a, f, i, x, cs)
      ensures cs != [] && ChampionTaken(g, acts, cs)
    {
      CandidateListed(g, a, f, i, x, cs);
      var lo, hi := GroupCandidates(g, a, f, i, s, cs[0]);
      SameCandidates(g, a, f, i, x, cs, s[lo..hi]);
      GroupChampion(g, s, acts, lo, hi);
    }
  }

  lemma CandidateListed(g: Grammar, a: Auto, f: Follow, i: nat, x: Symbol, cs: seq<Action>)
    requires Candidates(g, a, f, i, x, cs)
    ensures cs != [] && Raw(g, a, f, i, cs[0]) && cs[0].sp == x
  {
    hide Raw;
    assert cs[0] in cs;
  }

  lemma SameCandidates(g: Grammar, a: Auto, f: Follow, i: nat, x: Symbol, cs: seq<Action>, cs': seq<Action>)
    requires Candidates(g, a, f, i, x, cs) && Candidates(g, a, f, i, x, cs')
    ensures cs == cs'
  {
    hide Raw, Increasing;
    IncreasingUnique(cs, cs');
  }

  lemma GroupChampion(g: Grammar, s: seq<Action>, acts: seq<Action>, lo: nat, hi: nat)
    requires Group(s, lo, hi) && Decided(g, s, acts) && RetiredAll(s, acts)
    ensures s[lo..hi] != [] && ChampionTaken(g, acts, s[lo..hi])
  {
    hide Alive;
    ChampionOfSlice(g, s, lo, hi, hi);
    var c := Champion(g, s, lo, hi);
    hide Champion;
    assert Alive(acts[c]) && Retired(s[c], acts[c]);
    assert s[lo..hi][c - lo] == s[c] == acts[c];
  }

  // On no symbol of state i a candidate has a reported meeting with the champion before it.
  ghost predicate NothingReported(g: Grammar, a: Auto, f: Follow, i: nat) {
    forall x, cs :: Candidates(g, a, f, i, x, cs) ==> Undisputed(g, cs, 0, |cs|)
  }

  lemma UndisputedSlice(g: Grammar, s: seq<Action>, lo: nat, hi: nat)
    requires lo < hi <= |s|
    ensures Undisputed(g, s, lo, hi) <==> Undisputed(g, s[lo..hi], 0, hi - lo)
  {
    hide Champion, Disputed;
    var t := s[lo..hi];
    forall k: nat | 0 < k < hi - lo
      ensures s[Champion(g, s, lo, lo + k)] == t[Champion(g, t, 0, k)] && s[lo + k] == t[k]
    {
      ChampionOfSlice(g, s, lo, lo + k, hi);
    }
    if Undisputed(g, t, 0, hi - lo) {
      forall k | lo < k < hi
        ensures !Disputed(g, s[Champion(g, s, lo, k)], s[k])
      {
        ghost var j: nat := k - lo;
        assert s[lo + j] == t[j] && !Disputed(g, t[Champion(g, t, 0, j)], t[j]);
      }
    }
  }

  lemma ReportsExact(g: Grammar, a: Auto, f: Follow, i: nat, s: seq<Action>)
    requires NoDupA(s) && InOrder(s) && forall x :: x in s <==> Raw(g, a, f, i, x)
    ensures AllUndisputed(g, s) <==> NothingReported(g, a, f, i)
  {
    hide Raw, NoDupA, InOrder, Candidates, Group, Undisputed;
    if AllUndisputed(g, s) {
      forall x, cs | Candidates(g, a, f, i, x, cs)
        ensures Undisputed(g, cs, 0, |cs|)
      {
        CandidateListed(g, a, f, i, x, cs);
        var lo, hi := GroupCandidates(g, a, f, i, s, cs[0]);
        SameCandidates(g, a, f, i, x, cs, s[lo..hi]);
        UndisputedSlice(g, s, lo, hi);
      }
    }
    if NothingReported(g, a, f, i) {
      forall lo: nat, hi: nat | Group(s, lo, hi)
        ensures Undisputed(g, s, lo, hi)
      {
        GroupInside(s, lo, hi);
        var lo', hi' := GroupCandidates(g, a, f, i, s, s[lo]);
        GroupHolds(s, lo, hi, lo', hi');
        UndisputedSlice(g, s, lo, hi);
      }
    }
  }

  lemma GroupInside(s: seq<Action>, lo: nat, hi: nat)
    requires Group(s, lo, hi)
    ensures lo < hi <= |s| && s[lo] in s
  {
  }

  // Of the groups of a sorted list with one symbol there is only one.
  lemma GroupHolds(s: seq<Action>, lo: nat, hi: nat, lo': nat, hi': nat)
    requires Group(s, lo, hi) && Group(s, lo', hi') && s[lo].sp == s[lo'].sp && InOrder(s)
    ensures lo == lo' && hi == hi'
  {
    InGroup(s, lo', hi', lo);
    hide InOrder;
    SameGroup(s, lo, hi, lo', hi', lo);
  }

  // A state without conflicts is not reported.
  lemma ConflictFreeQuiet(g: Grammar, a: Auto, f: Follow, i: nat)
    requires ConflictFree(g, a, f, i)
    ensures NothingReported(g, a, f, i)
  {
    hide Raw, Disputed, Champion;
    forall x, cs | Candidates(g, a, f, i, x, cs)
      ensures |cs| == 1
    {
      CandidatesApart(g, a, f, i, x, cs);
    }
  }

  lemma CandidatesApart(g: Grammar, a: Auto, f: Follow, i: nat, x: Symbol, cs: seq<Action>)
    requires Candidates(g, a, f, i, x, cs)
    ensures |cs| > 1 ==>
      cs[0] != cs[1] && Raw(g, a, f, i, cs[0]) && Raw(g, a, f, i, cs[1]) && cs[0].sp == cs[1].sp == x
  {
    hide Raw;
    if |cs| > 1 {
      assert cs[0] in cs && cs[1] in cs && ActionCmp(cs[0], cs[1]) < 0;
    }
  }

  method FindActions(g: Grammar, ghost info: FirstInfo, a: Auto, f: Follow, i: nat)
    returns (acts: seq<Action>, errors: nat)
    requires g.Valid() && Shaped(g, info) && Finished(g, info, a) && i < |a.states|
    requires |a.states[i].ap| + |a.states[i].c.items| * g.nterminal + 1 < 0x4000_0000
    ensures ActionsFound(g, a, f, i, acts) && ConflictsResolved(g, a, f, i, acts) && |acts| < 0x4000_0000
    ensures errors == 0 <==> NothingReported(g, a, f, i)
    ensures errors == 0 && NoPrecedence(g) ==> ConflictFree(g, a, f, i)
  {
    var raw := GatherActions(g, info, a, f, i);
    var s := ActionSort(raw);
    SortedCandidates(g, info, a, f, i, raw, s);
    acts, errors := ResolveAll(g, s);
    ContestsResolved(g, a, f, i, s, acts);
    ReportsExact(g, a, f, i, s);
    hide ConflictsResolved, Decided, NothingReported, AllUndisputed;
    assert |multiset(s)| == |s| && |multiset(raw)| == |raw|;
    ResolvedFound(g, info, a, f, i, s, acts);
  }

  lemma ResolvedFound(g: Grammar, info: FirstInfo, a: Auto, f: Follow, i: nat, s: seq<Action>, acts: seq<Action>)
    requires g.Valid() && Shaped(g, info) && Finished(g, info, a)
    requires RetiredAll(s, acts) && OneEach(acts) && ConflictsResolved(g, a, f, i, acts) && AllAlive(s) && NoDupA(s)
    requires (forall x :: x in s <==> Raw(g, a, f, i, x)) && forall k :: 0 <= k < |s| ==> s[k].sp < g.nsymbol
    requires DistinctSps(s) <==> ConflictFree(g, a, f, i)
    ensures ActionsFound(g, a, f, i, acts)
    ensures acts == s && OneEach(s) ==> ConflictFree(g, a, f, i)
  {
    forall x | x in acts
      ensures x.sp < g.nsymbol && (Alive(x) ==> Raw(g, a, f, i, x))
    {
      var k :| 0 <= k < |acts| && acts[k] == x;
      assert Retired(s[k], acts[k]);
      assert s[k] in s;
    }
    forall x | Uncontested(g, a, f, i, x)
      ensures x in acts && Alive(x)
    {
      assert Candidates(g, a, f, i, x.sp, [x]);
      assert ChampionTaken(g, acts, [x]);
    }
  }
}
