// compute_action and ReportTable of lemon.c: the action lists of all states become
// the arrays of the generated parser; yy_find_shift_action and
// yy_find_reduce_action of lempar.c read them back.

module Tables {
  import opened Wrappers
  import opened Grammars
  import opened ActionTable
  import opened Automaton
  import opened Actions
  import opened Compress

  // compute_action
  function Code(g: Grammar, nstate: nat, act: Action): int {
    match act.typ
    case SHIFT => act.arg
    case REDUCE => act.arg + nstate
    case ERROR => nstate + |g.rules|
    case ACCEPT => nstate + |g.rules| + 1
    case _ => -1
  }

  // yy_action, yy_lookahead, yy_shift_ofst, YY_SHIFT_USE_DFLT, yy_reduce_ofst,
  // YY_REDUCE_USE_DFLT, yy_default
  datatype Tables = Tables(action: seq<int>, lookahead: seq<int>, shiftOfst: seq<int>, shiftUseDflt: int,
                           reduceOfst: seq<int>, reduceUseDflt: int, dflt: seq<int>)
  {
    predicate Shaped(nstate: nat) {
      |action| == |lookahead| && |shiftOfst| == |reduceOfst| == |dflt| == nstate
    }
  }

  function ErrorAction(g: Grammar, nstate: nat): nat {
    nstate + |g.rules|
  }

  // The body the two lookups share.
  function Lookup(g: Grammar, t: Tables, ofst: int, useDflt: int, s: nat, x: nat): int
    requires t.Shaped(|t.dflt|) && s < |t.dflt|
  {
    if ofst == useDflt then t.dflt[s]
    else if x == g.nsymbol + 1 then |t.dflt| + |g.rules| + 2   // YYNOCODE: YY_NO_ACTION
    else if ofst + x < 0 || ofst + x >= |t.action| || t.lookahead[ofst + x] != x then t.dflt[s]
    else t.action[ofst + x]
  }

  function FindShiftAction(g: Grammar, t: Tables, s: nat, x: nat): int
    requires t.Shaped(|t.dflt|) && s < |t.dflt|
  {
    Lookup(g, t, t.shiftOfst[s], t.shiftUseDflt, s, x)
  }

  function FindReduceAction(g: Grammar, t: Tables, s: nat, x: nat): int
    requires t.Shaped(|t.dflt|) && s < |t.dflt|
  {
    Lookup(g, t, t.reduceOfst[s], t.reduceUseDflt, s, x)
  }

  // ---- what the tables must say ----

  // A table value for symbol x in a state with these actions.
  ghost predicate Tells(g: Grammar, nstate: nat, acts: seq<Action>, x: Symbol, other: int, v: int) {
    (forall act :: Acts(acts, x, act) ==> v == Code(g, nstate, act)) && (Silent(acts, x) ==> v == other)
  }

  ghost predicate ReportedState(g: Grammar, t: Tables, s: nat, acts: seq<Action>)
    requires t.Shaped(|t.dflt|) && s < |t.dflt|
  {
    && Tells(g, |t.dflt|, acts, g.nsymbol, ErrorAction(g, |t.dflt|), t.dflt[s])
    && (forall x :: 0 <= x < g.nterminal ==> Tells(g, |t.dflt|, acts, x, t.dflt[s], FindShiftAction(g, t, s, x)))
    && (forall x ::
      g.nterminal <= x < g.nsymbol ==> Tells(g, |t.dflt|, acts, x, t.dflt[s], FindReduceAction(g, t, s, x)))
  }

  ghost predicate Reported(g: Grammar, lists: seq<seq<Action>>, t: Tables) {
    t.Shaped(|lists|) && forall s :: 0 <= s < |lists| ==> ReportedState(g, t, s, lists[s])
  }

  // Default-reduce compression followed by packing loses no action: the driver's
  // lookup finds the action of every symbol that has one, and the state's default
  // reduce or an error for the others.
  lemma TablesPreserve(g: Grammar, t: Tables, s: nat, acts: seq<Action>, out: seq<Action>, best: Option<nat>, x: Symbol)
    requires g.Valid() && t.Shaped(|t.dflt|) && s < |t.dflt| && ReportedState(g, t, s, out)
    requires OneEach(acts) && CompressedInto(g, acts, out, best) && forall y :: y in acts ==> y.sp < g.nsymbol
    requires x < g.nsymbol
    ensures var v := if x < g.nterminal then FindShiftAction(g, t, s, x) else FindReduceAction(g, t, s, x);
            Tells(g, |t.dflt|, acts, x, if best.Some? then |t.dflt| + best.value else ErrorAction(g, |t.dflt|), v)
  {
    var v := if x < g.nterminal then FindShiftAction(g, t, s, x) else FindReduceAction(g, t, s, x);
    assert Tells(g, |t.dflt|, out, x, t.dflt[s], v);
    DefaultValue(g, t, s, acts, out, best);
    forall act | Acts(acts, x, act)
      ensures v == Code(g, |t.dflt|, act)
    {
      CompressionPreserves(g, acts, out, best, x, act);
    }
    if Silent(acts, x) {
      CompressionPreserves(g, acts, out, best, x, Action(x, NOT_USED, 0));
    }
  }

  lemma DefaultValue(g: Grammar, t: Tables, s: nat, acts: seq<Action>, out: seq<Action>, best: Option<nat>)
    requires t.Shaped(|t.dflt|) && s < |t.dflt| && ReportedState(g, t, s, out)
    requires CompressedInto(g, acts, out, best) && forall y :: y in acts ==> y.sp < g.nsymbol
    ensures t.dflt[s] == if best.Some? then |t.dflt| + best.value else ErrorAction(g, |t.dflt|)
  {
    if best.Some? {
      assert Acts(out, g.nsymbol, Action(g.nsymbol, REDUCE, best.value));
    } else {
      assert Silent(out, g.nsymbol);
    }
  }

  // ---- the rows of one state ----

  predicate InRange(act: Action, lo: nat, hi: nat) {
    lo <= act.sp < hi && Alive(act)
  }

  // The transaction set of the living actions on symbols in lo..hi.
  function Slots(g: Grammar, nstate: nat, acts: seq<Action>, lo: nat, hi: nat): seq<Slot> {
    if acts == [] then []
    else
      var last := acts[|acts| - 1];
      Slots(g, nstate, acts[..|acts| - 1], lo, hi) +
        if InRange(last, lo, hi) then [Slot(last.sp, Code(g, nstate, last))] else []
  }

  lemma {:induction false} SlotsMembers(g: Grammar, nstate: nat, acts: seq<Action>, lo: nat, hi: nat)
    ensures forall e :: e in Slots(g, nstate, acts, lo, hi) <==>
              exists k :: 0 <= k < |acts| && InRange(acts[k], lo, hi) && e == Slot(acts[k].sp, Code(g, nstate, acts[k]))
    ensures |Slots(g, nstate, acts, lo, hi)| <= |acts|
  {
    if acts != [] {
      SlotsMembers(g, nstate, acts[..|acts| - 1], lo, hi);
    }
  }

  // A living action has its slot, and a slot its living action.
  lemma SlotOf(g: Grammar, nstate: nat, acts: seq<Action>, lo: nat, hi: nat, act: Action)
    requires Acts(acts, act.sp, act) && lo <= act.sp < hi
    ensures Slot(act.sp, Code(g, nstate, act)) in Slots(g, nstate, acts, lo, hi)
  {
    SlotsMembers(g, nstate, acts, lo, hi);
    var k :| 0 <= k < |acts| && acts[k] == act;
    assert InRange(acts[k], lo, hi);
  }

  lemma SlotNotSilent(g: Grammar, nstate: nat, acts: seq<Action>, lo: nat, hi: nat, e: Slot)
    requires e in Slots(g, nstate, acts, lo, hi)
    ensures e.lookahead >= 0 && !Silent(acts, e.lookahead)
  {
    SlotsMembers(g, nstate, acts, lo, hi);
    var k :| 0 <= k < |acts| && InRange(acts[k], lo, hi) && e == Slot(acts[k].sp, Code(g, nstate, acts[k]));
    assert acts[k] in acts;
  }

  // The output loops: unused slots print as {default} and "no action".
  function Printed(g: Grammar, nstate: nat, slots: seq<Slot>): (seq<int>, seq<int>) {
    (seq(|slots|, i requires 0 <= i < |slots| =>
           if slots[i].action < 0 then g.nsymbol + |g.rules| + 2 else slots[i].action),
     seq(|slots|, i requires 0 <= i < |slots| => if slots[i].lookahead < 0 then g.nsymbol else slots[i].lookahead))
  }

  // The tables answer the row's lookups exactly.
  lemma RowLookup(g: Grammar, t: Tables, s: nat, acts: seq<Action>, lo: nat, hi: nat, table: seq<Slot>, n: nat,
                  ofst: int, useDflt: int, x: nat)
    requires t.Shaped(|t.dflt|) && s < |t.dflt| && n <= |table| && lo <= x < hi <= g.nsymbol
    requires (t.action, t.lookahead) == Printed(g, |t.dflt|, table[..n])
    requires forall k :: n <= k < |table| ==> table[k].lookahead < 0
    requires ofst != useDflt && Embedded(table, Row(ofst, Slots(g, |t.dflt|, acts, lo, hi)))
    ensures Tells(g, |t.dflt|, acts, x, t.dflt[s], Lookup(g, t, ofst, useDflt, s, x))
  {
    var entries := Slots(g, |t.dflt|, acts, lo, hi);
    forall act | Acts(acts, x, act)
      ensures Lookup(g, t, ofst, useDflt, s, x) == Code(g, |t.dflt|, act)
    {
      SlotOf(g, |t.dflt|, acts, lo, hi, act);
      var e := Slot(act.sp, Code(g, |t.dflt|, act));
      var i :| 0 <= i < |entries| && entries[i] == e;
      assert table[x + ofst] == e;
    }
    if 0 <= ofst + x < n && table[ofst + x].lookahead == x {
      assert Answers(table, ofst, ofst + x);
      SlotNotSilent(g, |t.dflt|, acts, lo, hi, table[ofst + x]);
    }
  }

  lemma NoRowLookup(g: Grammar, t: Tables, s: nat, acts: seq<Action>, lo: nat, hi: nat, useDflt: int, x: nat)
    requires t.Shaped(|t.dflt|) && s < |t.dflt| && lo <= x < hi
    requires Slots(g, |t.dflt|, acts, lo, hi) == []
    ensures Tells(g, |t.dflt|, acts, x, t.dflt[s], Lookup(g, t, useDflt, useDflt, s, x))
  {
    forall act | Acts(acts, x, act)
      ensures Lookup(g, t, useDflt, useDflt, s, x) == Code(g, |t.dflt|, act)
    {
      SlotOf(g, |t.dflt|, acts, lo, hi, act);
    }
  }

  // ---- ReportTable ----

  datatype Axset = Axset(stp: nat, isTkn: bool, nAction: nat)

  // At most one living action on a symbol, {default} included.
  ghost predicate Tabular(g: Grammar, acts: seq<Action>) {
    OneEach(acts) && forall x :: x in acts && Alive(x) ==> x.sp <= g.nsymbol
  }

  ghost predicate AllTabular(g: Grammar, lists: seq<seq<Action>>) {
    forall s :: 0 <= s < |lists| ==> Tabular(g, lists[s])
  }

  // The counting loop over the actions of one state.
  method CountActions(g: Grammar, nstate: nat, acts: seq<Action>) returns (nTknAct: nat, nNtAct: nat, iDflt: int)
    requires g.Valid() && Tabular(g, acts)
    ensures nTknAct == |TknSlots(g, nstate, acts)| && nNtAct == |NtSlots(g, nstate, acts)|
    ensures Tells(g, nstate, acts, g.nsymbol, ErrorAction(g, nstate), iDflt)
  {
    nTknAct, nNtAct, iDflt := 0, 0, ErrorAction(g, nstate);
    for k := 0 to |acts|
      invariant nTknAct == |TknSlots(g, nstate, acts[..k])| && nNtAct == |NtSlots(g, nstate, acts[..k])|
      invariant Tells(g, nstate, acts[..k], g.nsymbol, ErrorAction(g, nstate), iDflt)
    {
      PrefixMembers(acts, k);
      assert acts[..k + 1][..k] == acts[..k];
      if Code(g, nstate, acts[k]) >= 0 {
        if acts[k].sp < g.nterminal {
          nTknAct := nTknAct + 1;
        } else if acts[k].sp < g.nsymbol {
          nNtAct := nNtAct + 1;
        } else {
          iDflt := Code(g, nstate, acts[k]);
        }
      }
    }
    WholeSeq(acts);
  }

  function TknSlots(g: Grammar, nstate: nat, acts: seq<Action>): seq<Slot> {
    Slots(g, nstate, acts, 0, g.nterminal)
  }

  function NtSlots(g: Grammar, nstate: nat, acts: seq<Action>): seq<Slot> {
    Slots(g, nstate, acts, g.nterminal, g.nsymbol)
  }

  ghost predicate CountsOk(g: Grammar, lists: seq<seq<Action>>, ax: seq<Axset>) {
    forall i :: 0 <= i < |ax| ==> ax[i].stp < |lists| && ax[i].nAction == |SetOf(g, lists, ax[i].stp, ax[i].isTkn)|
  }

  ghost predicate Descending(ax: seq<Axset>) {
    forall i, j :: 0 <= i < j < |ax| ==> ax[i].nAction >= ax[j].nAction
  }

  ghost predicate AllListed(ax: seq<Axset>, n: nat) {
    forall s, b :: 0 <= s < n ==> Listed(ax, s, b)
  }

  // ax lists the two action sets of every state, the largest first.
  ghost predicate AxsetsOk(g: Grammar, lists: seq<seq<Action>>, ax: seq<Axset>) {
    CountsOk(g, lists, ax) && Descending(ax) && AllListed(ax, |lists|)
  }

  ghost predicate Listed(ax: seq<Axset>, s: nat, b: bool) {
    exists i :: 0 <= i < |ax| && ax[i].stp == s && ax[i].isTkn == b
  }

  function SetOf(g: Grammar, lists: seq<seq<Action>>, s: nat, isTkn: bool): seq<Slot> {
    if s < |lists| then (if isTkn then TknSlots(g, |lists|, lists[s]) else NtSlots(g, |lists|, lists[s])) else []
  }

  // The loop that hands one set of actions to the table.
  method AddSet(g: Grammar, tab: Acttab, nstate: nat, acts: seq<Action>, lo: nat, hi: nat)
    requires tab.Valid() && tab.aLookahead == [] && OneEach(acts)
    modifies tab
    ensures tab.Valid() && tab.aLookahead == Slots(g, nstate, acts, lo, hi) && tab.rows == old(tab.rows)
  {
    for k := 0 to |acts|
      invariant tab.Valid() && tab.aLookahead == Slots(g, nstate, acts[..k], lo, hi) && tab.rows == old(tab.rows)
    {
      assert acts[..k + 1][..k] == acts[..k];
      if lo <= acts[k].sp < hi && Code(g, nstate, acts[k]) >= 0 {
        NewLookahead(g, nstate, acts, lo, hi, k);
        tab.Action(acts[k].sp, Code(g, nstate, acts[k]));
      }
    }
    WholeSeq(acts);
  }

  lemma NewLookahead(g: Grammar, nstate: nat, acts: seq<Action>, lo: nat, hi: nat, k: nat)
    requires OneEach(acts) && k < |acts| && Alive(acts[k])
    ensures var s := Slots(g, nstate, acts[..k], lo, hi);
            forall i :: 0 <= i < |s| ==> s[i].lookahead != acts[k].sp
  {
    var s := Slots(g, nstate, acts[..k], lo, hi);
    SlotsMembers(g, nstate, acts[..k], lo, hi);
    forall i | 0 <= i < |s|
      ensures s[i].lookahead != acts[k].sp
    {
      assert s[i] in s;
    }
  }

  // iTknOfst (or iNtOfst) of all states: None is NO_OFFSET.
  ghost predicate OffsetsOk(g: Grammar, lists: seq<seq<Action>>, rows: seq<ActionTable.Row>, ofst: seq<Option<int>>,
                            isTkn: bool, mn: int) {
    && |ofst| == |lists|
    && forall s ::
      0 <= s < |ofst| && ofst[s].Some? ==>
        ofst[s].value >= mn && ActionTable.Row(ofst[s].value, SetOf(g, lists, s, isTkn)) in rows
  }

  ghost predicate Given(ofst: seq<Option<int>>, s: nat) {
    s < |ofst| && ofst[s].Some?
  }

  ghost predicate Placed(ax: seq<Axset>, i: nat, tkn: seq<Option<int>>, nt: seq<Option<int>>) {
    forall j :: 0 <= j < i <= |ax| ==> Given(if ax[j].isTkn then tkn else nt, ax[j].stp)
  }

  lemma PlacedStep(ax: seq<Axset>, i: nat, tkn: seq<Option<int>>, nt: seq<Option<int>>, tkn': seq<Option<int>>,
                   nt': seq<Option<int>>)
    requires Placed(ax, i, tkn, nt) && i < |ax|
    requires forall s :: Given(tkn, s) ==> Given(tkn', s)
    requires forall s :: Given(nt, s) ==> Given(nt', s)
    requires Given(if ax[i].isTkn then tkn' else nt', ax[i].stp)
    ensures Placed(ax, i + 1, tkn', nt')
  {
  }

  // One turn of the packing loop: the set of state stp becomes a row.
  method PackSet(g: Grammar, lists: seq<seq<Action>>, tab: Acttab, stp: nat, isTkn: bool, ofsts: seq<Option<int>>,
                 mn: int)
    returns (ofsts': seq<Option<int>>, mn': int)
    requires g.Valid() && AllTabular(g, lists) && stp < |lists| && tab.Valid() && tab.aLookahead == []
    requires SetOf(g, lists, stp, isTkn) != [] && OffsetsOk(g, lists, tab.rows, ofsts, isTkn, mn)
    modifies tab
    ensures tab.Valid() && tab.aLookahead == [] && old(tab.rows) <= tab.rows
    ensures OffsetsOk(g, lists, tab.rows, ofsts', isTkn, mn')
    ensures forall s :: Given(ofsts', s) <==> s == stp || Given(ofsts, s)
  {
    assert Tabular(g, lists[stp]);
    if isTkn {
      AddSet(g, tab, |lists|, lists[stp], 0, g.nterminal);
    } else {
      AddSet(g, tab, |lists|, lists[stp], g.nterminal, g.nsymbol);
    }
    ghost var entries := tab.aLookahead;
    var ofst := tab.Insert();
    ofsts' := ofsts[stp := Some(ofst)];
    mn' := if ofst < mn then ofst else mn;
    assert tab.rows[|tab.rows| - 1] == ActionTable.Row(ofst, entries);
  }

  lemma MoreRows(g: Grammar, lists: seq<seq<Action>>, rows: seq<ActionTable.Row>, rows': seq<ActionTable.Row>,
                 ofst: seq<Option<int>>, isTkn: bool, mn: int)
    requires OffsetsOk(g, lists, rows, ofst, isTkn, mn) && rows <= rows'
    ensures OffsetsOk(g, lists, rows', ofst, isTkn, mn)
  {
    assert forall r :: r in rows ==> r in rows';
  }

  // The packing loop of ReportTable: largest sets first, until the empty ones.
  method PackRows(g: Grammar, lists: seq<seq<Action>>, ax: seq<Axset>)
    returns (tab: Acttab, tkn: seq<Option<int>>, mnTknOfst: int, nt: seq<Option<int>>, mnNtOfst: int)
    requires g.Valid() && AllTabular(g, lists) && AxsetsOk(g, lists, ax)
    ensures tab.Valid() && fresh(tab)
    ensures OffsetsOk(g, lists, tab.rows, tkn, true, mnTknOfst) && OffsetsOk(g, lists, tab.rows, nt, false, mnNtOfst)
    ensures AllPacked(g, lists, tkn, true) && AllPacked(g, lists, nt, false)
  {
    tab := new Acttab();
    tkn, nt := seq(|lists|, _ => None), seq(|lists|, _ => None);
    mnTknOfst, mnNtOfst := 0, 0;
    var i := 0;
    while i < |ax| && ax[i].nAction > 0
      invariant i <= |ax| && tab.Valid() && fresh(tab) && tab.aLookahead == []
      invariant OffsetsOk(g, lists, tab.rows, tkn, true, mnTknOfst)
        && OffsetsOk(g, lists, tab.rows, nt, false, mnNtOfst)
      invariant Placed(ax, i, tkn, nt)
    {
      ghost var rows, tkn0, nt0 := tab.rows, tkn, nt;
      if ax[i].isTkn {
        tkn, mnTknOfst := PackSet(g, lists, tab, ax[i].stp, true, tkn, mnTknOfst);
        MoreRows(g, lists, rows, tab.rows, nt, false, mnNtOfst);
      } else {
        nt, mnNtOfst := PackSet(g, lists, tab, ax[i].stp, false, nt, mnNtOfst);
        MoreRows(g, lists, rows, tab.rows, tkn, true, mnTknOfst);
      }
      PlacedStep(ax, i, tkn0, nt0, tkn, nt);
      i := i + 1;
    }
    RestEmpty(g, lists, ax, i, tkn, nt, true);
    RestEmpty(g, lists, ax, i, tkn, nt, false);
  }

  // A state without offset has no actions of that kind.
  ghost predicate AllPacked(g: Grammar, lists: seq<seq<Action>>, ofst: seq<Option<int>>, isTkn: bool) {
    forall s :: 0 <= s < |lists| && !Given(ofst, s) ==> SetOf(g, lists, s, isTkn) == []
  }

  // The sets after the first empty one are empty.
  lemma RestEmpty(g: Grammar, lists: seq<seq<Action>>, ax: seq<Axset>, i: nat, tkn: seq<Option<int>>,
                  nt: seq<Option<int>>, b: bool)
    requires AxsetsOk(g, lists, ax) && i <= |ax| && (i < |ax| ==> ax[i].nAction == 0) && Placed(ax, i, tkn, nt)
    ensures AllPacked(g, lists, if b then tkn else nt, b)
  {
    forall s | 0 <= s < |lists| && !Given(if b then tkn else nt, s)
      ensures SetOf(g, lists, s, b) == []
    {
      assert Listed(ax, s, b);
      var j :| 0 <= j < |ax| && ax[j].stp == s && ax[j].isTkn == b;
      AfterEmpty(ax, i, j);
    }
  }

  lemma AfterEmpty(ax: seq<Axset>, i: nat, j: nat)
    requires Descending(ax) && i <= j < |ax| && ax[i].nAction == 0
    ensures ax[j].nAction == 0
  {
    if i < j {
      assert ax[i].nAction >= ax[j].nAction;
    }
  }

  // ---- qsort by axset_compare: any order is possible among equal counts ----

  function InsertAx(a: Axset, ax: seq<Axset>): (r: seq<Axset>)
    ensures multiset(r) == multiset(ax) + multiset{a}
  {
    if ax == [] || a.nAction >= ax[0].nAction then [a] + ax
    else
      assert ax == [ax[0]] + ax[1..];
      [ax[0]] + InsertAx(a, ax[1..])
  }

  function SortAx(ax: seq<Axset>): (r: seq<Axset>)
    ensures multiset(r) == multiset(ax)
  {
    if ax == [] then []
    else
      assert ax == [ax[0]] + ax[1..];
      InsertAx(ax[0], SortAx(ax[1..]))
  }

  lemma {:induction false} InsertAxDescends(a: Axset, ax: seq<Axset>)
    requires Descending(ax)
    ensures Descending(InsertAx(a, ax))
  {
    if ax != [] && a.nAction < ax[0].nAction {
      InsertAxDescends(a, ax[1..]);
      var r := InsertAx(a, ax[1..]);
      forall k | 0 <= k < |r|
        ensures r[k].nAction <= ax[0].nAction
      {
        assert r[k] in multiset(r);
        assert r[k] == a || r[k] in ax[1..];
      }
    }
  }

  lemma {:induction false} SortAxDescends(ax: seq<Axset>)
    ensures Descending(SortAx(ax))
  {
    if ax != [] {
      SortAxDescends(ax[1..]);
      InsertAxDescends(ax[0], SortAx(ax[1..]));
    }
  }

  // ---- the output ----

  function PrintedOfst(ofst: seq<Option<int>>, mn: int): seq<int> {
    seq(|ofst|, s requires 0 <= s < |ofst| => if ofst[s].None? then mn - 1 else ofst[s].value)
  }

  lemma StateReported(g: Grammar, lists: seq<seq<Action>>, t: Tables, s: nat, tab: seq<Slot>, n: nat,
                      rows: seq<ActionTable.Row>,
                      tkn: seq<Option<int>>, mnTkn: int, nt: seq<Option<int>>, mnNt: int)
    requires t.Shaped(|lists|) && s < |lists| && n <= |tab| && g.Valid()
    requires (t.action, t.lookahead) == Printed(g, |lists|, tab[..n])
    requires forall k :: n <= k < |tab| ==> tab[k].lookahead < 0
    requires forall r :: r in rows ==> Embedded(tab, r)
    requires OffsetsOk(g, lists, rows, tkn, true, mnTkn) && OffsetsOk(g, lists, rows, nt, false, mnNt)
    requires t.shiftOfst == PrintedOfst(tkn, mnTkn) && t.shiftUseDflt == mnTkn - 1
    requires t.reduceOfst == PrintedOfst(nt, mnNt) && t.reduceUseDflt == mnNt - 1
    requires AllPacked(g, lists, tkn, true) && AllPacked(g, lists, nt, false)
    requires Tells(g, |lists|, lists[s], g.nsymbol, ErrorAction(g, |lists|), t.dflt[s])
    ensures ReportedState(g, t, s, lists[s])
  {
    forall x: Symbol | x < g.nterminal
      ensures Tells(g, |lists|, lists[s], x, t.dflt[s], FindShiftAction(g, t, s, x))
    {
      if tkn[s].None? {
        assert !Given(tkn, s) && SetOf(g, lists, s, true) == [];
        NoRowLookup(g, t, s, lists[s], 0, g.nterminal, mnTkn - 1, x);
      } else {
        RowLookup(g, t, s, lists[s], 0, g.nterminal, tab, n, tkn[s].value, mnTkn - 1, x);
      }
    }
    forall x: Symbol | g.nterminal <= x < g.nsymbol
      ensures Tells(g, |lists|, lists[s], x, t.dflt[s], FindReduceAction(g, t, s, x))
    {
      if nt[s].None? {
        assert !Given(nt, s) && SetOf(g, lists, s, false) == [];
        NoRowLookup(g, t, s, lists[s], g.nterminal, g.nsymbol, mnNt - 1, x);
      } else {
        RowLookup(g, t, s, lists[s], g.nterminal, g.nsymbol, tab, n, nt[s].value, mnNt - 1, x);
      }
    }
  }

  // The action lists of all states become tables that answer every lookup.
  method ReportTable(g: Grammar, lists: seq<seq<Action>>) returns (t: Tables)
    requires g.Valid() && AllTabular(g, lists)
    ensures Reported(g, lists, t)
  {
    var ax: seq<Axset>, dflt: seq<int> := [], [];
    for i := 0 to |lists|
      invariant |dflt| == i && forall s ::
        0 <= s < i ==> Tells(g, |lists|, lists[s], g.nsymbol, ErrorAction(g, |lists|), dflt[s])
      invariant CountsOk(g, lists, ax) && AllListed(ax, i)
    {
      assert Tabular(g, lists[i]);
      var nTknAct, nNtAct, iDflt := CountActions(g, |lists|, lists[i]);
      ListTwo(ax, i, nTknAct, nNtAct);
      ax := ax + [Axset(i, true, nTknAct), Axset(i, false, nNtAct)];
      dflt := dflt + [iDflt];
    }
    SortedOk(g, lists, ax);
    var tab, tkn, mnTknOfst, nt, mnNtOfst := PackRows(g, lists, SortAx(ax));
    var (action, lookahead) := Printed(g, |lists|, tab.aAction[..tab.nAction]);
    t := Tables(action, lookahead, PrintedOfst(tkn, mnTknOfst), mnTknOfst - 1, PrintedOfst(nt, mnNtOfst), mnNtOfst - 1,
      dflt);
    forall s | 0 <= s < |lists|
      ensures ReportedState(g, t, s, lists[s])
    {
      StateReported(g, lists, t, s, tab.aAction, tab.nAction, tab.rows, tkn, mnTknOfst, nt, mnNtOfst);
    }
  }

  lemma ListTwo(ax: seq<Axset>, i: nat, m: nat, n: nat)
    ensures var ax' := ax + [Axset(i, true, m), Axset(i, false, n)];
            forall s, b :: Listed(ax, s, b) || s == i ==> Listed(ax', s, b)
  {
    var ax' := ax + [Axset(i, true, m), Axset(i, false, n)];
    assert ax'[|ax|] == Axset(i, true, m) && ax'[|ax| + 1] == Axset(i, false, n);
    forall s, b | Listed(ax, s, b)
      ensures Listed(ax', s, b)
    {
      var k :| 0 <= k < |ax| && ax[k].stp == s && ax[k].isTkn == b;
      assert ax'[k] == ax[k];
    }
    forall b
      ensures Listed(ax', i, b)
    {
      assert ax'[if b then |ax| else |ax| + 1].isTkn == b;
    }
  }

  lemma SortedOk(g: Grammar, lists: seq<seq<Action>>, ax: seq<Axset>)
    requires CountsOk(g, lists, ax) && AllListed(ax, |lists|)
    ensures AxsetsOk(g, lists, SortAx(ax))
  {
    var r := SortAx(ax);
    SortAxDescends(ax);
    forall k | 0 <= k < |r|
      ensures r[k] in ax
    {
      assert r[k] in multiset(r);
    }
    forall s, b | 0 <= s < |lists|
      ensures Listed(r, s, b)
    {
      assert Listed(ax, s, b);
      var i :| 0 <= i < |ax| && ax[i].stp == s && ax[i].isTkn == b;
      assert ax[i] in multiset(ax);
      assert ax[i] in r;
    }
  }
}
