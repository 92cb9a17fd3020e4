// getstate / buildshifts / FindStates of lemon.c: the states are discovered depth
// first; every state keeps its configurations, and every shift leaves back links.

module Automaton {
  import opened Wrappers
  import opened Grammars
  import opened Sets
  import opened FirstSets
  import opened States

  datatype ActType = SHIFT | ACCEPT | REDUCE | ERROR | CONFLICT | SH_RESOLVED | RD_RESOLVED | NOT_USED

  // arg is the new state of a SHIFT and the rule of a REDUCE.
  datatype Action = Action(sp: Symbol, typ: ActType, arg: nat)

  datatype State = State(basis: seq<Item>, c: Configs, ap: seq<Action>)

  // A configuration, named by its state and item.
  datatype Cfg = Cfg(state: nat, item: Item)

  datatype Auto = Auto(states: seq<State>, bplp: map<Cfg, seq<Cfg>>)

  function Prev(it: Item): Item
    requires it.dot > 0
  {
    Item(it.rule, it.dot - 1)
  }

  function ItemSet(basis: seq<Item>): (s: set<Item>)
    ensures forall it :: it in s <==> it in basis
  {
    set it | it in basis
  }

  function Seed(i: nat): set<nat> {
    if i == 0 then {0} else {}
  }

  // State 0 starts with the start rules; every other basis was shifted to.
  ghost predicate BasisOk(g: Grammar, i: nat, basis: seq<Item>) {
    && NoDup(basis)
    && (forall it :: it in basis ==> ValidItem(g, it))
    && (if i == 0 then forall it :: it in basis <==> ValidItem(g, it) && StartItem(g, it) && it.dot == 0
        else basis != [] && forall it :: it in basis ==> it.dot > 0)
  }

  ghost predicate GoodState(g: Grammar, info: FirstInfo, i: nat, s: State)
    requires g.Valid() && Shaped(g, info)
  {
    BasisOk(g, i, s.basis) && ClosureOf(g, info, s.basis, Seed(i), s.c)
  }

  ghost predicate GoodStates(g: Grammar, info: FirstInfo, states: seq<State>)
    requires g.Valid() && Shaped(g, info)
  {
    && (forall i :: 0 <= i < |states| ==> GoodState(g, info, i, states[i]))
    && (forall i, j :: 0 <= i < j < |states| ==> ItemSet(states[i].basis) != ItemSet(states[j].basis))
  }

  // The basis of m is exactly the items of n with x moved past the dot.
  ghost predicate LeadsTo(g: Grammar, n: State, x: Symbol, m: State) {
    forall q :: q in m.basis <==> q.dot > 0 && Prev(q) in n.c.items && AtDot(g, Prev(q), x)
  }

  ghost predicate Linked(bplp: map<Cfg, seq<Cfg>>, d: Cfg, c: Cfg) {
    d in bplp && c in bplp[d]
  }

  predicate ReadyDot(g: Grammar, it: Item) {
    it.rule < |g.rules| && it.dot < |g.rules[it.rule].rhs|
  }

  // Every item of n with x at the dot is a back link of its successor in m.
  ghost predicate BackLinked(g: Grammar, a: Auto, n: nat, x: Symbol, m: nat)
    requires n < |a.states|
  {
    forall p :: p in a.states[n].c.items && AtDot(g, p, x) ==> Linked(a.bplp, Cfg(m, Next(p)), Cfg(n, p))
  }

  ghost predicate CanShift(g: Grammar, n: State, x: Symbol) {
    exists p :: p in n.c.items && AtDot(g, p, x)
  }

  // Action k of state n is a good shift.
  ghost predicate GoodShift(g: Grammar, a: Auto, n: nat, act: Action)
    requires n < |a.states|
  {
    && act.typ == SHIFT && act.arg < |a.states| && CanShift(g, a.states[n], act.sp)
    && LeadsTo(g, a.states[n], act.sp, a.states[act.arg])
    && BackLinked(g, a, n, act.sp, act.arg)
  }

  ghost predicate HasShift(ap: seq<Action>, x: Symbol) {
    exists k :: 0 <= k < |ap| && ap[k].sp == x
  }

  ghost predicate DistinctSymbols(ap: seq<Action>) {
    forall k, l :: 0 <= k < l < |ap| ==> ap[k].sp != ap[l].sp
  }

  // The actions of n are good shifts on different symbols.
  ghost predicate ShiftsOk(g: Grammar, a: Auto, n: nat)
    requires n < |a.states|
  {
    && DistinctSymbols(a.states[n].ap)
    && forall k :: 0 <= k < |a.states[n].ap| ==> GoodShift(g, a, n, a.states[n].ap[k])
  }

  // ... and there is one for every symbol at a dot.
  ghost predicate Complete(g: Grammar, a: Auto, n: nat)
    requires n < |a.states|
  {
    && ShiftsOk(g, a, n)
    && forall p, x :: p in a.states[n].c.items && AtDot(g, p, x) ==> HasShift(a.states[n].ap, x)
  }

  // Back links connect an item with its successor.
  ghost predicate BackLinksOk(a: Auto) {
    forall d, c :: Linked(a.bplp, d, c) ==>
      && d.state < |a.states| && d.item in a.states[d.state].c.items
      && c.state < |a.states| && c.item in a.states[c.state].c.items
      && d.item == Next(c.item)
  }

  // a only grew into a'; of state n the actions may have changed.
  ghost predicate Extends(a: Auto, a': Auto, n: nat) {
    && |a.states| <= |a'.states|
    && (forall i :: 0 <= i < |a.states| ==> a'.states[i].basis == a.states[i].basis && a'.states[i].c == a.states[i].c)
    && (forall i :: 0 <= i < |a.states| && i != n ==> a'.states[i].ap == a.states[i].ap)
    && (forall d, c :: Linked(a.bplp, d, c) ==> Linked(a'.bplp, d, c))
  }

  lemma ExtendsTrans(a: Auto, b: Auto, c: Auto, n: nat)
    requires Extends(a, b, n) && Extends(b, c, n)
    ensures Extends(a, c, n)
  {
  }

  lemma ExtendsKeepsShift(g: Grammar, a: Auto, a': Auto, n: nat, m: nat, act: Action)
    requires Extends(a, a', n) && m < |a.states| && GoodShift(g, a, m, act)
    ensures GoodShift(g, a', m, act)
  {
  }

  lemma ExtendsKeepsComplete(g: Grammar, a: Auto, a': Auto, n: nat, m: nat)
    requires Extends(a, a', n) && m < |a.states| && m != n && Complete(g, a, m)
    ensures Complete(g, a', m)
  {
    forall k | 0 <= k < |a'.states[m].ap|
      ensures GoodShift(g, a', m, a'.states[m].ap[k])
    {
      ExtendsKeepsShift(g, a, a', n, m, a.states[m].ap[k]);
    }
  }

  ghost predicate GoodAuto(g: Grammar, info: FirstInfo, a: Auto)
    requires g.Valid() && Shaped(g, info)
  {
    GoodStates(g, info, a.states) && BackLinksOk(a)
  }

  // The basis sets that no state has yet: their number is the measure of the
  // depth-first search.
  ghost function Unbuilt(g: Grammar, states: seq<State>): set<set<Item>> {
    set b: set<Item> | b <= AllItems(g) && forall i :: 0 <= i < |states| ==> ItemSet(states[i].basis) != b
  }

  lemma UnbuiltShrinks(g: Grammar, states: seq<State>, states': seq<State>)
    requires |states| <= |states'| && forall i :: 0 <= i < |states| ==> states'[i].basis == states[i].basis
    ensures |Unbuilt(g, states')| <= |Unbuilt(g, states)|
  {
    SubsetCount(Unbuilt(g, states'), Unbuilt(g, states));
  }

  lemma NewStateShrinks(g: Grammar, states: seq<State>, s: State)
    requires forall it :: it in s.basis ==> ValidItem(g, it)
    requires forall i :: 0 <= i < |states| ==> ItemSet(states[i].basis) != ItemSet(s.basis)
    ensures |Unbuilt(g, states + [s])| < |Unbuilt(g, states)|
  {
    var b := ItemSet(s.basis);
    forall it | it in b
      ensures it in AllItems(g)
    {
      InAllItems(g, it);
    }
    var states' := states + [s];
    assert b in Unbuilt(g, states);
    assert states'[|states|] == s;
    assert b !in Unbuilt(g, states');
    assert forall i :: 0 <= i < |states| ==> states'[i] == states[i];
    SubsetCount(Unbuilt(g, states'), Unbuilt(g, states));
  }

  lemma ShiftsOkStays(g: Grammar, a: Auto, a': Auto, n: nat)
    requires n < |a.states| && ShiftsOk(g, a, n) && Extends(a, a', |a.states|)
    ensures ShiftsOk(g, a', n)
  {
    forall k | 0 <= k < |a'.states[n].ap|
      ensures GoodShift(g, a', n, a'.states[n].ap[k])
    {
      ExtendsKeepsShift(g, a, a', |a.states|, n, a.states[n].ap[k]);
    }
  }

  // Action_add of a good shift on a new symbol.
  function WithAction(states: seq<State>, n: nat, act: Action): seq<State>
    requires n < |states|
  {
    states[n := states[n].(ap := [act] + states[n].ap)]
  }

  lemma AddShift(g: Grammar, a: Auto, n: nat, act: Action)
    requires n < |a.states| && ShiftsOk(g, a, n) && GoodShift(g, a, n, act) && !HasShift(a.states[n].ap, act.sp)
    ensures var a' := Auto(WithAction(a.states, n, act), a.bplp);
            && Extends(a, a', n) && ShiftsOk(g, a', n)
            && forall x :: HasShift(a'.states[n].ap, x) <==> x == act.sp || HasShift(a.states[n].ap, x)
  {
    var a' := Auto(WithAction(a.states, n, act), a.bplp);
    var ap, ap' := a.states[n].ap, a'.states[n].ap;
    forall k | 0 <= k < |ap'|
      ensures GoodShift(g, a', n, ap'[k])
    {
      ExtendsKeepsShift(g, a, a', n, n, if k == 0 then act else ap[k - 1]);
    }
    HasShiftCons(ap, act);
  }

  lemma HasShiftCons(ap: seq<Action>, act: Action)
    ensures forall x :: HasShift([act] + ap, x) <==> x == act.sp || HasShift(ap, x)
    ensures DistinctSymbols(ap) && !HasShift(ap, act.sp) ==> DistinctSymbols([act] + ap)
  {
    var ap' := [act] + ap;
    assert ap'[0] == act && forall k :: 0 <= k < |ap| ==> ap[k] == ap'[k + 1];
  }

  lemma AddActionGood(g: Grammar, info: FirstInfo, a: Auto, n: nat, act: Action)
    requires g.Valid() && Shaped(g, info) && GoodAuto(g, info, a) && n < |a.states|
    ensures GoodAuto(g, info, Auto(WithAction(a.states, n, act), a.bplp))
  {
    var states' := WithAction(a.states, n, act);
    assert forall i :: 0 <= i < |states'| ==> states'[i].basis == a.states[i].basis && states'[i].c == a.states[i].c;
    forall i | 0 <= i < |states'|
      ensures GoodState(g, info, i, states'[i])
    {
      assert GoodState(g, info, i, a.states[i]);
    }
  }

  // A new state with its closure, reached by no back link yet.
  lemma NewStateGood(g: Grammar, info: FirstInfo, a: Auto, s: State)
    requires g.Valid() && Shaped(g, info) && GoodAuto(g, info, a)
    requires GoodState(g, info, |a.states|, s)
    requires forall i :: 0 <= i < |a.states| ==> ItemSet(a.states[i].basis) != ItemSet(s.basis)
    ensures var a' := Auto(a.states + [s], a.bplp);
            GoodAuto(g, info, a') && Extends(a, a', |a.states|)
  {
  }

  // ---- back links ----

  // The links that shifting from state n into state m adds.
  ghost predicate ShiftLink(n: nat, m: nat, basis: seq<Item>, d: Cfg, c: Cfg) {
    d.state == m && d.item in basis && d.item.dot > 0 && c == Cfg(n, Prev(d.item))
  }

  // Plink_add on the new basis configurations, and Plink_copy into an existing state.
  method AddBackLinks(bplp: map<Cfg, seq<Cfg>>, n: nat, m: nat, basis: seq<Item>) returns (r: map<Cfg, seq<Cfg>>)
    requires forall it :: it in basis ==> it.dot > 0
    ensures forall d, c :: Linked(r, d, c) <==> Linked(bplp, d, c) || ShiftLink(n, m, basis, d, c)
  {
    r := bplp;
    for k := 0 to |basis|
      invariant forall d, c :: Linked(r, d, c) <==> Linked(bplp, d, c) || ShiftLink(n, m, basis[..k], d, c)
    {
      var y := Cfg(m, basis[k]);
      var x := Cfg(n, Prev(basis[k]));
      ghost var before := r;
      r := r[y := [x] + if y in r then r[y] else []];
      PlinkAdded(before, r, y, x);
      PrefixMembers(basis, k);
    }
    assert basis[..|basis|] == basis;
  }

  lemma PlinkAdded(bplp: map<Cfg, seq<Cfg>>, r: map<Cfg, seq<Cfg>>, y: Cfg, x: Cfg)
    requires r == bplp[y := [x] + if y in bplp then bplp[y] else []]
    ensures forall d, c :: Linked(r, d, c) <==> Linked(bplp, d, c) || (d == y && c == x)
  {
    forall d, c
      ensures Linked(r, d, c) <==> Linked(bplp, d, c) || (d == y && c == x)
    {
      if d == y {
        assert c in r[y] <==> c == x || (y in bplp && c in bplp[y]);
      }
    }
  }

  lemma PrefixMembers<T>(s: seq<T>, k: nat)
    requires k < |s|
    ensures forall x :: x in s[..k + 1] <==> x in s[..k] || x == s[k]
  {
    assert s[..k + 1] == s[..k] + [s[k]];
  }

  lemma BackLinksStayOk(a: Auto, bplp: map<Cfg, seq<Cfg>>, n: nat, m: nat, basis: seq<Item>)
    requires BackLinksOk(a) && n < |a.states| && m < |a.states|
    requires forall q :: q in basis ==> q.dot > 0 && Prev(q) in a.states[n].c.items && q in a.states[m].c.items
    requires forall d, c :: Linked(bplp, d, c) <==> Linked(a.bplp, d, c) || ShiftLink(n, m, basis, d, c)
    ensures BackLinksOk(Auto(a.states, bplp)) && Extends(a, Auto(a.states, bplp), |a.states|)
    ensures forall q :: q in basis ==> Linked(bplp, Cfg(m, q), Cfg(n, Prev(q)))
  {
    assert forall q :: q in basis ==> ShiftLink(n, m, basis, Cfg(m, q), Cfg(n, Prev(q)));
  }

  // ---- nothing more than needed: no other state, configuration or link ----

  // A back link comes from a shift between its states.
  ghost predicate Shifts(g: Grammar, a: Auto, d: Cfg, c: Cfg) {
    && c.state < |a.states| && d.state < |a.states| && ReadyDot(g, c.item)
    && LeadsTo(g, a.states[c.state], g.rules[c.item.rule].rhs[c.item.dot], a.states[d.state])
  }

  // State m was first shifted to from an earlier one.
  ghost predicate HasSource(g: Grammar, states: seq<State>, m: nat)
    requires m < |states|
  {
    exists n: nat, x :: n < m && CanShift(g, states[n], x) && LeadsTo(g, states[n], x, states[m])
  }

  ghost predicate JustifiedState(g: Grammar, info: FirstInfo, i: nat, s: State)
    requires g.Valid() && Shaped(g, info)
  {
    Justified(g, info, s.basis, Seed(i), s.c)
  }

  ghost predicate Tight(g: Grammar, info: FirstInfo, a: Auto)
    requires g.Valid() && Shaped(g, info)
  {
    && (forall i: nat :: i < |a.states| ==> JustifiedState(g, info, i, a.states[i]))
    && (forall i: nat :: 0 < i < |a.states| ==> HasSource(g, a.states, i))
    && (forall d, c :: Linked(a.bplp, d, c) ==> Shifts(g, a, d, c))
  }

  lemma SourceStays(g: Grammar, states: seq<State>, states': seq<State>, m: nat)
    requires m < |states| <= |states'| && HasSource(g, states, m)
    requires forall i :: 0 <= i < |states| ==> states'[i].basis == states[i].basis && states'[i].c == states[i].c
    ensures HasSource(g, states', m)
  {
    var n: nat, x :| n < m && CanShift(g, states[n], x) && LeadsTo(g, states[n], x, states[m]);
    assert CanShift(g, states'[n], x) && LeadsTo(g, states'[n], x, states'[m]);
  }

  lemma ShiftsStay(g: Grammar, a: Auto, a': Auto, d: Cfg, c: Cfg)
    requires Shifts(g, a, d, c) && |a.states| <= |a'.states|
    requires forall i ::
      0 <= i < |a.states| ==> a'.states[i].basis == a.states[i].basis && a'.states[i].c == a.states[i].c
    ensures Shifts(g, a', d, c)
  {
  }

  lemma TightAction(g: Grammar, info: FirstInfo, a: Auto, n: nat, act: Action)
    requires g.Valid() && Shaped(g, info) && Tight(g, info, a) && n < |a.states|
    ensures Tight(g, info, Auto(WithAction(a.states, n, act), a.bplp))
  {
    hide Justified, LeadsTo, HasSource, Shifts;
    var a' := Auto(WithAction(a.states, n, act), a.bplp);
    assert forall i ::
      0 <= i < |a.states| ==> a'.states[i].basis == a.states[i].basis && a'.states[i].c == a.states[i].c;
    forall i: nat | i < |a'.states|
      ensures JustifiedState(g, info, i, a'.states[i]) && (0 < i ==> HasSource(g, a'.states, i))
    {
      assert JustifiedState(g, info, i, a.states[i]);
      if 0 < i {
        SourceStays(g, a.states, a'.states, i);
      }
    }
    forall d, c | Linked(a'.bplp, d, c)
      ensures Shifts(g, a', d, c)
    {
      ShiftsStay(g, a, a', d, c);
    }
  }

  // The basis was shifted to from a state, over some symbol.
  ghost predicate Moved(g: Grammar, n: State, basis: seq<Item>) {
    exists x :: CanShift(g, n, x) && Advanced(g, n.c.items, x, basis)
  }

  lemma MovedBy(g: Grammar, n: State, x: Symbol, basis: seq<Item>)
    requires CanShift(g, n, x) && Advanced(g, n.c.items, x, basis)
    ensures Moved(g, n, basis)
  {
  }

  lemma TightNew(g: Grammar, info: FirstInfo, a: Auto, s: State, n: nat)
    requires g.Valid() && Shaped(g, info) && Tight(g, info, a) && JustifiedState(g, info, |a.states|, s)
    requires a.states != [] ==> n < |a.states| && Moved(g, a.states[n], s.basis)
    ensures Tight(g, info, Auto(a.states + [s], a.bplp))
  {
    hide JustifiedState, Shifts, Moved;
    var a' := Auto(a.states + [s], a.bplp);
    forall i: nat | 0 < i < |a'.states|
      ensures HasSource(g, a'.states, i)
    {
      if i < |a.states| {
        SourceStays(g, a.states, a'.states, i);
      } else {
        NewSource(g, a.states, s, n);
      }
    }
    hide HasSource;
    forall d, c | Linked(a'.bplp, d, c)
      ensures Shifts(g, a', d, c)
    {
      ShiftsStay(g, a, a', d, c);
    }
  }

  lemma NewSource(g: Grammar, states: seq<State>, s: State, n: nat)
    requires n < |states| && Moved(g, states[n], s.basis)
    ensures HasSource(g, states + [s], |states|)
  {
    var states' := states + [s];
    var x :| CanShift(g, states[n], x) && Advanced(g, states[n].c.items, x, s.basis);
    assert states'[n] == states[n] && states'[|states|] == s;
    assert LeadsTo(g, states'[n], x, states'[|states|]);
  }

  lemma TightLinks(g: Grammar, info: FirstInfo, a: Auto, bplp: map<Cfg, seq<Cfg>>, n: nat, m: nat, basis: seq<Item>)
    requires g.Valid() && Shaped(g, info) && Tight(g, info, a) && n < |a.states| && m < |a.states|
    requires Moved(g, a.states[n], basis) && ItemSet(a.states[m].basis) == ItemSet(basis)
    requires forall d, c :: Linked(bplp, d, c) <==> Linked(a.bplp, d, c) || ShiftLink(n, m, basis, d, c)
    ensures Tight(g, info, Auto(a.states, bplp))
  {
    hide JustifiedState, HasSource;
    var a' := Auto(a.states, bplp);
    var x :| CanShift(g, a.states[n], x) && Advanced(g, a.states[n].c.items, x, basis);
    assert forall q :: q in a.states[m].basis <==> q in ItemSet(basis);
    assert LeadsTo(g, a.states[n], x, a.states[m]);
    hide LeadsTo;
    forall d, c | Linked(bplp, d, c)
      ensures Shifts(g, a', d, c)
    {
      if Linked(a.bplp, d, c) {
        ShiftsStay(g, a, a', d, c);
      } else {
        assert d.item in basis && AtDot(g, Prev(d.item), x);
      }
    }
  }

  // ---- the generator's state ----

  class Lemon {
    const g: Grammar
    const info: FirstInfo
    var states: seq<State>
    var bplp: map<Cfg, seq<Cfg>>

    ghost function Snap(): Auto
      reads this
    {
      Auto(states, bplp)
    }

    ghost predicate Valid()
      reads this
    {
      g.Valid() && Exact(g, info) && GoodAuto(g, info, Snap()) && Tight(g, info, Snap())
    }

    constructor (g: Grammar, info: FirstInfo)
      requires g.Valid() && Exact(g, info)
      ensures Valid() && this.g == g && this.info == info && states == [] && bplp == map[]
    {
      this.g, this.info := g, info;
      states, bplp := [], map[];
    }

    // State_find on the sorted basis.
    method FindState(basis: seq<Item>) returns (idx: nat)
      ensures idx <= |states| && forall i :: 0 <= i < idx ==> ItemSet(states[i].basis) != ItemSet(basis)
      ensures idx < |states| ==> ItemSet(states[idx].basis) == ItemSet(basis)
    {
      idx := 0;
      while idx < |states| && ItemSet(states[idx].basis) != ItemSet(basis)
        decreases |states| - idx
        invariant idx <= |states|
        invariant forall i :: 0 <= i < idx ==> ItemSet(states[i].basis) != ItemSet(basis)
      {
        idx := idx + 1;
      }
    }

    // The basis was shifted to from state n (or is the start basis).
    ghost predicate Shifted(from: Option<nat>, basis: seq<Item>)
      reads this
    {
      match from
      case None => states == [] && BasisOk(g, 0, basis)
      case Some(n) =>
        && n < |states| && BasisOk(g, 1, basis) && Moved(g, states[n], basis)
        && forall q :: q in basis ==> Prev(q) in states[n].c.items
    }

    method GetState(basis: seq<Item>, from: Option<nat>) returns (idx: nat)
      requires Valid() && Shifted(from, basis)
      modifies this
      ensures Valid() && Extends(old(Snap()), Snap(), old(|states|))
      ensures idx < |states| && ItemSet(states[idx].basis) == ItemSet(basis)
      ensures from.Some? ==> forall q :: q in basis ==> Linked(bplp, Cfg(idx, q), Cfg(from.value, Prev(q)))
      ensures forall m :: old(|states|) <= m < |states| ==> Complete(g, Snap(), m)
      decreases |Unbuilt(g, states)|, 0, 0
    {
      hide Tight, JustifiedState, Moved;
      idx := FindState(basis);
      if idx == |states| {
        var c := Closure(g, info, basis, Seed(idx));
        ghost var before := Snap();
        var s := State(basis, c, []);
        NewStateGood(g, info, Snap(), s);
        StateJustified(g, info, idx, s);
        TightNew(g, info, Snap(), s, if from.Some? then from.value else 0);
        NewStateShrinks(g, states, s);
        states := states + [s];
        LinkBack(basis, from, idx);
        ghost var linked := Snap();
        BuildShifts(idx);
        ExtendsTrans(before, linked, Snap(), idx);
      } else {
        LinkBack(basis, from, idx);
      }
    }

    // The basis of the first state is every start rule with its dot at the left.
    method StartBasis() returns (basis: seq<Item>)
      ensures BasisOk(g, 0, basis)
    {
      basis := [];
      for r := 0 to |g.rules|
        invariant NoDup(basis)
        invariant forall it :: it in basis <==> it.rule < r && StartItem(g, it) && it.dot == 0
      {
        if g.rules[r].lhs == g.start {
          AppendMembers(basis, Item(r, 0));
          basis := basis + [Item(r, 0)];
        }
      }
    }

    lemma StateJustified(g: Grammar, info: FirstInfo, i: nat, s: State)
      requires g.Valid() && Shaped(g, info) && Justified(g, info, s.basis, Seed(i), s.c)
      ensures JustifiedState(g, info, i, s)
    {
    }

    method FindStates()
      requires Valid() && states == [] && bplp == map[]
      modifies this
      ensures Valid() && |states| > 0
      ensures forall m :: 0 <= m < |states| ==> Complete(g, Snap(), m)
    {
      var basis := StartBasis();
      var _ := GetState(basis, None);
    }

    method LinkBack(basis: seq<Item>, from: Option<nat>, idx: nat)
      requires Valid() && idx < |states| && ItemSet(states[idx].basis) == ItemSet(basis)
      requires from.Some? ==> from.value < |states| && Moved(g, states[from.value], basis)
      requires from.Some? ==> forall q :: q in basis ==> q.dot > 0 && Prev(q) in states[from.value].c.items
      modifies this`bplp
      ensures Valid() && Extends(old(Snap()), Snap(), |states|)
      ensures from.Some? ==> forall q :: q in basis ==> Linked(bplp, Cfg(idx, q), Cfg(from.value, Prev(q)))
    {
      hide Tight, Moved;
      if from.Some? {
        var r := AddBackLinks(bplp, from.value, idx, basis);
        TightLinks(g, info, Snap(), r, from.value, idx, basis);
        BackLinksStayOk(Snap(), r, from.value, idx, basis);
        bplp := r;
      }
    }

    // buildshifts: one successor state for every symbol at a dot.
    method BuildShifts(n: nat)
      requires Valid() && n < |states| && states[n].ap == []
      modifies this
      ensures Valid() && Extends(old(Snap()), Snap(), n)
      ensures forall m :: n <= m < |states| && (m == n || old(|states|) <= m) ==> Complete(g, Snap(), m)
      decreases |Unbuilt(g, states)|, 1
    {
      hide Tight;
      var items := states[n].c.items;
      GoodItems(g, info, Snap(), n);
      var status := new bool[|items|](_ => false);   // COMPLETE flags
      for c := 0 to |items|
        invariant Valid() && Extends(old(Snap()), Snap(), n)
        invariant forall m :: old(|states|) <= m < |states| ==> Complete(g, Snap(), m)
        invariant ShiftsOk(g, Snap(), n) && Marked(items, status[..], states[n].ap)
        invariant Served(items, states[n].ap, c)
      {
        var cfp := items[c];
        assert cfp in items;
        ghost var flags, ap := status[..], states[n].ap;
        if !status[c] && cfp.dot < |g.rules[cfp.rule].rhs| {
          var sp := g.rules[cfp.rule].rhs[cfp.dot];
          ghost var before := Snap();
          UnbuiltShrinks(g, old(states), states);
          ShiftOn(n, items, status, c, sp);
          ExtendsTrans(old(Snap()), before, Snap(), n);
          StayComplete(old(|states|), before, Snap(), n);
        }
        ServedStep(items, flags, ap, states[n].ap, c);
      }
    }

    lemma StayComplete(from: nat, a: Auto, b: Auto, n: nat)
      requires Extends(a, b, n) && n < from <= |a.states|
      requires forall m :: from <= m < |a.states| ==> Complete(g, a, m)
      requires forall m :: |a.states| <= m < |b.states| ==> Complete(g, b, m)
      ensures forall m :: from <= m < |b.states| ==> Complete(g, b, m)
    {
      forall m | from <= m < |a.states|
        ensures Complete(g, b, m)
      {
        ExtendsKeepsComplete(g, a, b, n, m);
      }
    }

    // A configuration is marked exactly when the symbol at its dot has its shift.
    ghost predicate Marked(items: seq<Item>, status: seq<bool>, ap: seq<Action>) {
      && |status| == |items|
      && forall b ::
        0 <= b < |items| ==>
          (status[b] <==> ReadyDot(g, items[b]) && HasShift(ap, g.rules[items[b].rule].rhs[items[b].dot]))
    }

    // The first c configurations have their shifts.
    ghost predicate Served(items: seq<Item>, ap: seq<Action>, c: nat) {
      c <= |items| && forall b :: 0 <= b < c ==> ServedItem(items[b], ap)
    }

    ghost predicate ServedItem(it: Item, ap: seq<Action>) {
      ReadyDot(g, it) ==> HasShift(ap, g.rules[it.rule].rhs[it.dot])
    }

    lemma ServedStep(items: seq<Item>, status: seq<bool>, ap: seq<Action>, ap': seq<Action>, c: nat)
      requires Served(items, ap, c) && c < |items| && Marked(items, status, ap)
      requires forall x :: HasShift(ap, x) ==> HasShift(ap', x)
      requires status[c] || !ReadyDot(g, items[c]) || HasShift(ap', g.rules[items[c].rule].rhs[items[c].dot])
      ensures Served(items, ap', c + 1)
    {
    }

    // The inner loop and the shift on sp.
    method ShiftOn(n: nat, items: seq<Item>, status: array<bool>, c: nat, sp: Symbol)
      requires Valid() && n < |states| && items == states[n].c.items && c < |items| && AtDot(g, items[c], sp)
      requires ShiftsOk(g, Snap(), n) && Marked(items, status[..], states[n].ap) && !status[c]
      requires Served(items, states[n].ap, c)
      modifies this, status
      ensures Valid() && Extends(old(Snap()), Snap(), n)
      ensures forall m :: old(|states|) <= m < |states| ==> Complete(g, Snap(), m)
      ensures ShiftsOk(g, Snap(), n) && Marked(items, status[..], states[n].ap)
      ensures forall x :: HasShift(states[n].ap, x) <==> x == sp || HasShift(old(states[n].ap), x)
      decreases |Unbuilt(g, states)|, 0, 2
    {
      hide Tight;
      ghost var ap, flags := states[n].ap, status[..];
      Unmarked(items, flags, ap, c, sp);
      assert CanShift(g, states[n], sp) by {
        assert items[c] in states[n].c.items;
      }
      GoodItems(g, info, Snap(), n);
      var basis := Collect(items, status, c, sp);
      ghost var marked := status[..];
      AddSuccessor(n, sp, basis);
      MarkedStep(items, flags, marked, ap, states[n].ap, sp);
    }

    lemma Unmarked(items: seq<Item>, flags: seq<bool>, ap: seq<Action>, c: nat, sp: Symbol)
      requires c < |items| && AtDot(g, items[c], sp) && Marked(items, flags, ap) && !flags[c]
      ensures !HasShift(ap, sp) && forall b :: 0 <= b < |items| && AtDot(g, items[b], sp) ==> !flags[b]
    {
    }

    lemma MarkedStep(items: seq<Item>, flags: seq<bool>, flags': seq<bool>, ap: seq<Action>, ap': seq<Action>,
                     sp: Symbol)
      requires Marked(items, flags, ap) && MarkedOn(g, items, flags, flags', |items|, sp)
      requires forall x :: HasShift(ap', x) <==> x == sp || HasShift(ap, x)
      ensures Marked(items, flags', ap')
    {
    }

    // getstate on the collected basis, and Action_add of the shift.
    method AddSuccessor(n: nat, sp: Symbol, basis: seq<Item>)
      requires Valid() && n < |states| && ShiftsOk(g, Snap(), n) && !HasShift(states[n].ap, sp)
      requires Advanced(g, states[n].c.items, sp, basis) && CanShift(g, states[n], sp)
      modifies this
      ensures Valid() && Extends(old(Snap()), Snap(), n)
      ensures forall m :: old(|states|) <= m < |states| ==> Complete(g, Snap(), m)
      ensures ShiftsOk(g, Snap(), n)
      ensures forall x :: HasShift(states[n].ap, x) <==> x == sp || HasShift(old(states[n].ap), x)
      decreases |Unbuilt(g, states)|, 0, 1
    {
      hide Tight, Moved, GoodAuto, Complete;
      ghost var before := Snap();
      ShiftBasis(g, info, before, n, sp, basis);
      MovedBy(g, states[n], sp, basis);
      var newstp := GetState(basis, Some(n));
      ghost var reached := Snap();
      var act := Action(sp, SHIFT, newstp);
      NewShift(g, before, reached, n, act, basis);
      AddShift(g, reached, n, act);
      AddActionGood(g, info, reached, n, act);
      TightAction(g, info, reached, n, act);
      states := WithAction(states, n, act);
      AddedCompletes(g, before, reached, Snap(), n);
    }

    // The inner loop of buildshifts.
    method Collect(items: seq<Item>, status: array<bool>, c: nat, sp: Symbol) returns (basis: seq<Item>)
      requires status.Length == |items| && c <= |items| && NoDup(items)
      requires forall b :: 0 <= b < c ==> !AtDot(g, items[b], sp)
      requires forall b :: 0 <= b < |items| && AtDot(g, items[b], sp) ==> !status[..][b]
      modifies status
      ensures MarkedOn(g, items, old(status[..]), status[..], |items|, sp)
      ensures Advanced(g, items, sp, basis)
    {
      basis := [];
      ghost var flags := status[..];
      for b := c to |items|
        invariant MarkedOn(g, items, flags, status[..], b, sp)
        invariant Advanced(g, items[..b], sp, basis)
      {
        AdvanceStep(g, items, b, sp, basis);
        MarkStep(g, items, flags, status[..], b, sp);
        ghost var before := status[..];
        if !status[b] && ReadyDot(g, items[b]) {
          var bsp := g.rules[items[b].rule].rhs[items[b].dot];
          if bsp == sp {
            status[b] := true;
            basis := basis + [Next(items[b])];
            assert status[..] == before[b := true];
          }
        }
      }
      WholeSeq(items);
    }
  }

  // The configurations before b with sp at the dot have been marked.
  ghost predicate MarkedOn(g: Grammar, items: seq<Item>, flags: seq<bool>, flags': seq<bool>, b: nat, sp: Symbol) {
    && |flags| == |flags'| == |items|
    && forall x :: 0 <= x < |items| ==> flags'[x] == (flags[x] || (x < b && AtDot(g, items[x], sp)))
  }

  lemma MarkStep(g: Grammar, items: seq<Item>, flags: seq<bool>, flags': seq<bool>, b: nat, sp: Symbol)
    requires MarkedOn(g, items, flags, flags', b, sp) && b < |items| && (AtDot(g, items[b], sp) ==> !flags[b])
    ensures if AtDot(g, items[b], sp) then !flags'[b] && MarkedOn(g, items, flags, flags'[b := true], b + 1, sp)
            else MarkedOn(g, items, flags, flags', b + 1, sp)
  {
  }

  lemma WholeSeq<T>(s: seq<T>)
    ensures s[..|s|] == s
  {
  }

  ghost predicate Advanced(g: Grammar, items: seq<Item>, sp: Symbol, basis: seq<Item>) {
    NoDup(basis) && forall q :: q in basis <==> q.dot > 0 && Prev(q) in items && AtDot(g, Prev(q), sp)
  }

  lemma AdvanceStep(g: Grammar, items: seq<Item>, b: nat, sp: Symbol, basis: seq<Item>)
    requires b < |items| && NoDup(items) && Advanced(g, items[..b], sp, basis)
    ensures Advanced(g, items[..b + 1], sp, if AtDot(g, items[b], sp) then basis + [Next(items[b])] else basis)
  {
    PrefixMembers(items, b);
    assert items[b] !in items[..b];
    if AtDot(g, items[b], sp) {
      var q := Next(items[b]);
      assert Prev(q) == items[b];
      AppendMembers(basis, q);
    }
  }

  lemma AppendMembers(basis: seq<Item>, q: Item)
    requires NoDup(basis) && q !in basis
    ensures NoDup(basis + [q]) && forall x :: x in basis + [q] <==> x in basis || x == q
  {
  }

  lemma AddedCompletes(g: Grammar, a: Auto, b: Auto, c: Auto, n: nat)
    requires n < |a.states| && Extends(a, b, |a.states|) && Extends(b, c, n) && |b.states| == |c.states|
    requires forall m :: |a.states| <= m < |b.states| ==> Complete(g, b, m)
    ensures Extends(a, c, n)
    ensures forall m :: |a.states| <= m < |c.states| ==> Complete(g, c, m)
  {
    forall m | |a.states| <= m < |c.states|
      ensures Complete(g, c, m)
    {
      ExtendsKeepsComplete(g, b, c, n, m);
    }
  }

  lemma GoodItems(g: Grammar, info: FirstInfo, a: Auto, n: nat)
    requires g.Valid() && Shaped(g, info) && GoodAuto(g, info, a) && n < |a.states|
    ensures NoDup(a.states[n].c.items) && forall it :: it in a.states[n].c.items ==> ValidItem(g, it)
  {
    assert GoodState(g, info, n, a.states[n]);
  }

  // The collected basis is one that GetState accepts.
  lemma ShiftBasis(g: Grammar, info: FirstInfo, a: Auto, n: nat, sp: Symbol, basis: seq<Item>)
    requires g.Valid() && Shaped(g, info) && GoodAuto(g, info, a) && n < |a.states|
    requires NoDup(basis) && CanShift(g, a.states[n], sp)
    requires forall q :: q in basis <==> q.dot > 0 && Prev(q) in a.states[n].c.items && AtDot(g, Prev(q), sp)
    ensures BasisOk(g, 1, basis) && forall q :: q in basis ==> Prev(q) in a.states[n].c.items
  {
    assert GoodState(g, info, n, a.states[n]);
    var p :| p in a.states[n].c.items && AtDot(g, p, sp);
    assert Prev(Next(p)) == p;
    assert Next(p) in basis;
  }

  // Reaching the state with the collected basis makes the shift good.
  lemma NewShift(g: Grammar, a: Auto, a': Auto, n: nat, act: Action, basis: seq<Item>)
    requires n < |a.states| && ShiftsOk(g, a, n) && Extends(a, a', |a.states|)
    requires forall q :: q in basis <==> q.dot > 0 && Prev(q) in a.states[n].c.items && AtDot(g, Prev(q), act.sp)
    requires CanShift(g, a.states[n], act.sp)
    requires act.typ == SHIFT && act.arg < |a'.states| && ItemSet(a'.states[act.arg].basis) == ItemSet(basis)
    requires forall q :: q in basis ==> Linked(a'.bplp, Cfg(act.arg, q), Cfg(n, Prev(q)))
    ensures ShiftsOk(g, a', n) && GoodShift(g, a', n, act)
  {
    ShiftsOkStays(g, a, a', n);
    assert forall q :: q in a'.states[act.arg].basis <==> q in ItemSet(basis);
    forall p | p in a'.states[n].c.items && AtDot(g, p, act.sp)
      ensures Linked(a'.bplp, Cfg(act.arg, Next(p)), Cfg(n, p))
    {
      assert Prev(Next(p)) == p;
      assert Next(p) in basis;
    }
  }
}
