// The states of lemon.c: Configlist_closure, with the follow-set seeds and propagation links
// it leaves.

module States {
  import opened Grammars
  import opened FirstSets

  datatype Item = Item(rule: nat, dot: nat)

  predicate ValidItem(g: Grammar, it: Item) {
    it.rule < |g.rules| && it.dot <= |g.rules[it.rule].rhs|
  }

  // The symbol x follows the dot.
  predicate AtDot(g: Grammar, it: Item, x: Symbol) {
    it.rule < |g.rules| && it.dot < |g.rules[it.rule].rhs| && g.rules[it.rule].rhs[it.dot] == x
  }

  function Next(it: Item): Item {
    Item(it.rule, it.dot + 1)
  }

  // What follows the symbol at the dot.
  function Rest(g: Grammar, it: Item): Form
    requires it.rule < |g.rules| && it.dot < |g.rules[it.rule].rhs|
  {
    g.rules[it.rule].rhs[it.dot + 1..]
  }

  predicate StartItem(g: Grammar, it: Item) {
    it.rule < |g.rules| && g.rules[it.rule].lhs == g.start
  }

  // ---- FIRST of a form, as the generator computes it ----

  predicate Skips(g: Grammar, info: FirstInfo, s: Symbol) {
    !g.Terminal(s) && s < |info.lambda| && info.lambda[s]
  }

  function FirstSeq(g: Grammar, info: FirstInfo, a: Form): set<nat>
    requires Shaped(g, info) && forall k :: 0 <= k < |a| ==> a[k] < g.nsymbol
  {
    if a == [] then {}
    else FirstOf(g, info.first, a[0]) + if Skips(g, info, a[0]) then FirstSeq(g, info, a[1..]) else {}
  }

  predicate NullSeq(g: Grammar, info: FirstInfo, a: Form) {
    forall k :: 0 <= k < |a| ==> Skips(g, info, a[k])
  }

  // ---- closure ----

  // Item d was added because of item c.
  predicate Predicts(g: Grammar, c: Item, d: Item) {
    d.dot == 0 && d.rule < |g.rules| && AtDot(g, c, g.rules[d.rule].lhs)
  }

  // The configurations of one state: its items, their follow sets, and the
  // propagation links between them (fplp).
  datatype Configs = Configs(items: seq<Item>, fws: map<Item, set<nat>>, fplp: map<Item, seq<Item>>)

  ghost predicate NoDup(s: seq<Item>) {
    forall i, j :: 0 <= i < j < |s| ==> s[i] != s[j]
  }

  ghost predicate Shape(g: Grammar, c: Configs) {
    && NoDup(c.items)
    && (forall it :: it in c.items ==> ValidItem(g, it))
    && (forall it :: it in c.items <==> it in c.fws)
    && (forall it :: it in c.items <==> it in c.fplp)
  }

  ghost predicate Predicted(g: Grammar, items: seq<Item>, d: Item) {
    exists p :: p in items && Predicts(g, p, d)
  }

  // Items outside the basis are predicted by others.
  ghost predicate GrownItems(g: Grammar, basis: seq<Item>, items: seq<Item>) {
    basis <= items && forall it :: it in items ==> it in basis || Predicted(g, items, it)
  }

  // Basis items have the seed, start items nothing else, and all members are terminals.
  ghost predicate GrownSets(g: Grammar, basis: seq<Item>, seed: set<nat>, fws: map<Item, set<nat>>) {
    && (forall it :: it in basis ==> it in fws && seed <= fws[it])
    && (forall it :: it in fws && StartItem(g, it) ==> fws[it] <= seed)
    && (forall it, t :: it in fws && t in fws[it] ==> t in seed || t < g.nterminal)
  }

  // Links go from an item to items it predicts.
  ghost predicate GrownLinks(g: Grammar, fplp: map<Item, seq<Item>>) {
    forall it, d :: it in fplp && d in fplp[it] ==> d in fplp && Predicts(g, it, d)
  }

  // What every list under construction satisfies.
  ghost predicate Grown(g: Grammar, basis: seq<Item>, seed: set<nat>, c: Configs) {
    && Shape(g, c)
    && GrownItems(g, basis, c.items)
    && GrownSets(g, basis, seed, c.fws)
    && GrownLinks(g, c.fplp)
  }

  // Item it has predicted d, with the follow information d gets from it.
  ghost predicate Expanded(g: Grammar, info: FirstInfo, c: Configs, it: Item, d: Item)
    requires g.Valid() && Shaped(g, info) && Shape(g, c) && it in c.items && Predicts(g, it, d)
  {
    && d in c.items
    && FirstSeq(g, info, Rest(g, it)) <= c.fws[d]
    && (NullSeq(g, info, Rest(g, it)) ==> d in c.fplp[it])
  }

  ghost predicate ExpandedAll(g: Grammar, info: FirstInfo, c: Configs, it: Item)
    requires g.Valid() && Shaped(g, info) && Shape(g, c) && it in c.items
  {
    forall d :: Predicts(g, it, d) ==> Expanded(g, info, c, it, d)
  }

  ghost predicate ClosureOf(g: Grammar, info: FirstInfo, basis: seq<Item>, seed: set<nat>, c: Configs)
    requires g.Valid() && Shaped(g, info)
  {
    Grown(g, basis, seed, c) && forall it :: it in c.items ==> ExpandedAll(g, info, c, it)
  }

  // c only grew into c'.
  ghost predicate Larger(c: Configs, c': Configs) {
    && c.items <= c'.items
    && (forall it :: it in c.fws ==> it in c'.fws && c.fws[it] <= c'.fws[it])
    && (forall it, d :: it in c.fplp && d in c.fplp[it] ==> it in c'.fplp && d in c'.fplp[it])
  }

  lemma LargerKeepsExpanded(g: Grammar, info: FirstInfo, c: Configs, c': Configs, it: Item)
    requires g.Valid() && Shaped(g, info) && Shape(g, c) && Shape(g, c') && Larger(c, c')
    requires it in c.items && ExpandedAll(g, info, c, it)
    ensures it in c'.items && ExpandedAll(g, info, c', it)
  {
    assert forall x :: x in c.items ==> x in c'.items;
    forall d | Predicts(g, it, d)
      ensures Expanded(g, info, c', it, d)
    {
      assert Expanded(g, info, c, it, d);
    }
  }

  ghost function AllItems(g: Grammar): set<Item> {
    set r: nat, d: nat | r < |g.rules| && d <= |g.rules[r].rhs| :: Item(r, d)
  }

  lemma InAllItems(g: Grammar, it: Item)
    requires ValidItem(g, it)
    ensures it in AllItems(g)
  {
    var r, d := it.rule, it.dot;
    assert it == Item(r, d);
  }

  // ---- nothing more than needed: the closure is the least one ----

  // The terminal t can stand behind d, because item p predicts d.
  ghost predicate Spontaneous(g: Grammar, info: FirstInfo, p: Item, d: Item, t: nat)
    requires g.Valid() && Shaped(g, info)
  {
    Predicts(g, p, d) && (assert g.ValidRule(g.rules[p.rule]); t in FirstSeq(g, info, Rest(g, p)))
  }

  ghost predicate Given(g: Grammar, info: FirstInfo, items: seq<Item>, d: Item, t: nat)
    requires g.Valid() && Shaped(g, info)
  {
    exists p :: p in items && Spontaneous(g, info, p, d, t)
  }

  // An item before number k predicts it.
  ghost predicate PredictedBefore(g: Grammar, items: seq<Item>, k: nat)
    requires k < |items|
  {
    exists j: nat :: j < k && Predicts(g, items[j], items[k])
  }

  ghost predicate Rooted(g: Grammar, basis: seq<Item>, items: seq<Item>) {
    basis <= items && forall k: nat :: |basis| <= k < |items| ==> PredictedBefore(g, items, k)
  }

  ghost predicate SetsGiven(g: Grammar, info: FirstInfo, basis: seq<Item>, seed: set<nat>, items: seq<Item>,
                            fws: map<Item, set<nat>>)
    requires g.Valid() && Shaped(g, info)
  {
    forall d, t :: d in fws && t in fws[d] ==> (d in basis && t in seed) || Given(g, info, items, d, t)
  }

  ghost predicate LinksGiven(g: Grammar, info: FirstInfo, fplp: map<Item, seq<Item>>) {
    forall it, d :: it in fplp && d in fplp[it] ==> Predicts(g, it, d) && NullSeq(g, info, Rest(g, it))
  }

  // Every item, every terminal and every link is there for a reason.
  ghost predicate Justified(g: Grammar, info: FirstInfo, basis: seq<Item>, seed: set<nat>, c: Configs)
    requires g.Valid() && Shaped(g, info)
  {
    Rooted(g, basis, c.items) && SetsGiven(g, info, basis, seed, c.items, c.fws) && LinksGiven(g, info, c.fplp)
  }

  lemma RootedAdded(g: Grammar, basis: seq<Item>, items: seq<Item>, it: Item, d: Item)
    requires Rooted(g, basis, items) && it in items && Predicts(g, it, d)
    ensures Rooted(g, basis, items + [d])
  {
    var items' := items + [d];
    var l: nat :| l < |items| && items[l] == it;
    forall k: nat | |basis| <= k < |items'|
      ensures PredictedBefore(g, items', k)
    {
      if k < |items| {
        assert PredictedBefore(g, items, k);
        var j: nat :| j < k && Predicts(g, items[j], items[k]);
        assert Predicts(g, items'[j], items'[k]);
      } else {
        assert Predicts(g, items'[l], items'[k]);
      }
    }
  }

  lemma GivenMore(g: Grammar, info: FirstInfo, items: seq<Item>, items': seq<Item>, d: Item, t: nat)
    requires g.Valid() && Shaped(g, info) && Given(g, info, items, d, t) && items <= items'
    ensures Given(g, info, items', d, t)
  {
    hide Spontaneous;
    var p :| p in items && Spontaneous(g, info, p, d, t);
    assert p in items';
  }

  lemma AddedJustified(g: Grammar, info: FirstInfo, basis: seq<Item>, seed: set<nat>, c: Configs, it: Item, d: Item)
    requires g.Valid() && Shaped(g, info) && Justified(g, info, basis, seed, c) && it in c.items && Predicts(g, it, d)
    ensures Justified(g, info, basis, seed, Added(c, d))
  {
    hide Given;
    if d !in c.fws {
      RootedAdded(g, basis, c.items, it, d);
      hide Rooted;
      forall x, t | x in c.fws && t in c.fws[x]
        ensures (x in basis && t in seed) || Given(g, info, c.items + [d], x, t)
      {
        if Given(g, info, c.items, x, t) {
          GivenMore(g, info, c.items, c.items + [d], x, t);
        }
      }
    }
  }

  lemma InformedJustified(g: Grammar, info: FirstInfo, basis: seq<Item>, seed: set<nat>, c: Configs, it: Item, d: Item,
                          first: set<nat>, link: bool)
    requires g.Valid() && Shaped(g, info) && Justified(g, info, basis, seed, c) && it in c.items && Predicts(g, it, d)
    requires d in c.fws && it in c.fplp
    requires forall t :: t in first ==> Spontaneous(g, info, it, d, t)
    requires link ==> NullSeq(g, info, Rest(g, it))
    ensures Justified(g, info, basis, seed, Informed(c, it, d, first, link))
  {
    hide Rooted, Spontaneous, NullSeq, Predicts;
    assert forall t :: t in first ==> Given(g, info, c.items, d, t);
    hide Given;
  }

  // Configlist_add: find the configuration or append a new one with an empty set.
  function Added(c: Configs, it: Item): Configs {
    if it in c.fws then c
    else Configs(c.items + [it], c.fws[it := {}], c.fplp[it := []])
  }

  lemma AppendedItems(g: Grammar, basis: seq<Item>, items: seq<Item>, it: Item, d: Item)
    requires GrownItems(g, basis, items) && it in items && Predicts(g, it, d)
    ensures GrownItems(g, basis, items + [d])
  {
    var items' := items + [d];
    forall x | x in items'
      ensures x in basis || Predicted(g, items', x)
    {
      if x in items {
        if x !in basis {
          var p :| p in items && Predicts(g, p, x);
          assert p in items';
        }
      } else {
        assert x == d && it in items';
      }
    }
  }

  lemma AppendedLinks(g: Grammar, fplp: map<Item, seq<Item>>, d: Item)
    requires GrownLinks(g, fplp) && d !in fplp
    ensures GrownLinks(g, fplp[d := []])
  {
    var fplp' := fplp[d := []];
    forall x, y | x in fplp' && y in fplp'[x]
      ensures y in fplp' && Predicts(g, x, y)
    {
      assert x in fplp && y in fplp[x];
    }
  }

  lemma AppendedShape(g: Grammar, c: Configs, d: Item)
    requires Shape(g, c) && ValidItem(g, d) && d !in c.fws
    ensures Shape(g, Added(c, d)) && Larger(c, Added(c, d)) && d in Added(c, d).items
  {
    var c' := Added(c, d);
    assert forall x :: x in c'.items <==> x in c.items || x == d;
  }

  lemma AppendedSets(g: Grammar, basis: seq<Item>, seed: set<nat>, fws: map<Item, set<nat>>, d: Item)
    requires GrownSets(g, basis, seed, fws) && d !in fws
    ensures GrownSets(g, basis, seed, fws[d := {}])
  {
  }

  lemma AddedGrown(g: Grammar, basis: seq<Item>, seed: set<nat>, c: Configs, it: Item, d: Item)
    requires Grown(g, basis, seed, c) && it in c.items && Predicts(g, it, d)
    ensures Grown(g, basis, seed, Added(c, d)) && Larger(c, Added(c, d)) && d in Added(c, d).items
  {
    if d !in c.fws {
      AppendedShape(g, c, d);
      AppendedItems(g, basis, c.items, it, d);
      AppendedLinks(g, c.fplp, d);
      AppendedSets(g, basis, seed, c.fws, d);
      assert Added(c, d) == Configs(c.items + [d], c.fws[d := {}], c.fplp[d := []]);
    }
  }

  // Giving d the terminals of first, and the link from it when the rest can vanish.
  function Informed(c: Configs, it: Item, d: Item, first: set<nat>, link: bool): Configs
    requires d in c.fws && it in c.fplp
  {
    Configs(c.items, c.fws[d := c.fws[d] + first], if link then c.fplp[it := c.fplp[it] + [d]] else c.fplp)
  }

  lemma InformedSets(g: Grammar, basis: seq<Item>, seed: set<nat>, fws: map<Item, set<nat>>, d: Item, first: set<nat>)
    requires GrownSets(g, basis, seed, fws) && d in fws && !StartItem(g, d)
    requires forall t :: t in first ==> t < g.nterminal
    ensures GrownSets(g, basis, seed, fws[d := fws[d] + first])
  {
  }

  lemma InformedLinks(g: Grammar, fplp: map<Item, seq<Item>>, it: Item, d: Item)
    requires GrownLinks(g, fplp) && it in fplp && d in fplp && Predicts(g, it, d)
    ensures GrownLinks(g, fplp[it := fplp[it] + [d]])
  {
    var fplp' := fplp[it := fplp[it] + [d]];
    forall x, y | x in fplp' && y in fplp'[x]
      ensures y in fplp' && Predicts(g, x, y)
    {
      if y in fplp[x] {
      } else {
        assert x == it && y == d;
      }
    }
  }

  lemma InformedShape(g: Grammar, c: Configs, it: Item, d: Item, first: set<nat>, link: bool)
    requires Shape(g, c) && it in c.items && d in c.items
    ensures Shape(g, Informed(c, it, d, first, link)) && Larger(c, Informed(c, it, d, first, link))
  {
    var c' := Informed(c, it, d, first, link);
    forall x, y | x in c.fplp && y in c.fplp[x]
      ensures x in c'.fplp && y in c'.fplp[x]
    {
    }
  }

  lemma {:induction false} FirstSeqTerminals(g: Grammar, info: FirstInfo, a: Form)
    requires g.Valid() && Exact(g, info) && forall k :: 0 <= k < |a| ==> a[k] < g.nsymbol
    ensures forall t :: t in FirstSeq(g, info, a) ==> t < g.nterminal
  {
    if a != [] {
      FirstSeqTerminals(g, info, a[1..]);
    }
  }

  lemma LargerTrans(a: Configs, b: Configs, c: Configs)
    requires Larger(a, b) && Larger(b, c)
    ensures Larger(a, c)
  {
  }

  // What the loop body of Configlist_closure does for item it and new item d.
  function Predict(g: Grammar, info: FirstInfo, c: Configs, it: Item, d: Item): Configs
    requires g.Valid() && Shaped(g, info) && it in c.fplp && Predicts(g, it, d)
  {
    assert g.ValidRule(g.rules[it.rule]);
    var c1 := Added(c, d);
    if d in c1.fws && it in c1.fplp then
      Informed(c1, it, d, FirstSeq(g, info, Rest(g, it)), NullSeq(g, info, Rest(g, it)))
    else c
  }

  lemma PredictedNotStart(g: Grammar, it: Item, d: Item)
    requires g.Valid() && Predicts(g, it, d)
    ensures !StartItem(g, d) && ValidItem(g, d)
  {
    assert g.rules[it.rule].rhs[it.dot] in g.rules[it.rule].rhs;
  }

  lemma PredictGrown(g: Grammar, info: FirstInfo, basis: seq<Item>, seed: set<nat>, c: Configs, it: Item, d: Item)
    requires g.Valid() && Exact(g, info) && Grown(g, basis, seed, c) && it in c.items && Predicts(g, it, d)
    ensures var c' := Predict(g, info, c, it, d);
            Grown(g, basis, seed, c') && Larger(c, c') && Expanded(g, info, c', it, d)
  {
    var c1 := Added(c, d);
    var first, link := FirstSeq(g, info, Rest(g, it)), NullSeq(g, info, Rest(g, it));
    PredictedNotStart(g, it, d);
    AddedGrown(g, basis, seed, c, it, d);
    FirstSeqTerminals(g, info, Rest(g, it));
    InformedSets(g, basis, seed, c1.fws, d, first);
    InformedLinks(g, c1.fplp, it, d);
    InformedShape(g, c1, it, d, first, link);
    var c' := Informed(c1, it, d, first, link);
    LargerTrans(c, c1, c');
  }

  // ---- Configlist_closure ----

  // The loop over the symbols after the predicted one.
  method FollowInside(g: Grammar, info: FirstInfo, it: Item) returns (first: set<nat>, link: bool)
    requires g.Valid() && Shaped(g, info) && it.rule < |g.rules| && it.dot < |g.rules[it.rule].rhs|
    ensures forall k :: 0 <= k < |Rest(g, it)| ==> Rest(g, it)[k] < g.nsymbol
    ensures first == FirstSeq(g, info, Rest(g, it)) && link == NullSeq(g, info, Rest(g, it))
  {
    var rhs := g.rules[it.rule].rhs;
    assert g.ValidRule(g.rules[it.rule]);
    first, link := {}, true;
    var i := it.dot + 1;
    while i < |rhs| && link
      invariant it.dot < i <= |rhs|
      invariant FirstSeq(g, info, Rest(g, it)) == first + if link then FirstSeq(g, info, rhs[i..]) else {}
      invariant NullSeq(g, info, Rest(g, it)) == (link && NullSeq(g, info, rhs[i..]))
    {
      var xsp := rhs[i];
      assert rhs[i..][1..] == rhs[i + 1..];
      assert NullSeq(g, info, rhs[i..]) == (Skips(g, info, xsp) && NullSeq(g, info, rhs[i + 1..]));
      if g.Terminal(xsp) {
        first, link := first + {xsp}, false;
      } else {
        first := first + info.first[xsp - g.nterminal];
        if !info.lambda[xsp] {
          link := false;
        }
      }
      i := i + 1;
    }
  }

  // The state of the loop over the rules of the symbol at the dot of it.
  ghost predicate Expanding(g: Grammar, info: FirstInfo, basis: seq<Item>, seed: set<nat>, c: Configs, c': Configs,
                            it: Item, r: nat)
    requires g.Valid() && Shaped(g, info)
  {
    && Grown(g, basis, seed, c') && Larger(c, c') && it in c'.items
    && forall q: nat :: q < r && Predicts(g, it, Item(q, 0)) ==> Expanded(g, info, c', it, Item(q, 0))
  }

  lemma LargerKeepsExpanding(g: Grammar, info: FirstInfo, c: Configs, c': Configs, it: Item, r: nat)
    requires g.Valid() && Shaped(g, info) && Shape(g, c) && Shape(g, c') && Larger(c, c') && it in c.items
    requires forall q: nat :: q < r && Predicts(g, it, Item(q, 0)) ==> Expanded(g, info, c, it, Item(q, 0))
    ensures it in c'.items
    ensures forall q: nat :: q < r && Predicts(g, it, Item(q, 0)) ==> Expanded(g, info, c', it, Item(q, 0))
  {
    assert forall x :: x in c.items ==> x in c'.items;
  }

  lemma ExpandStep(g: Grammar, info: FirstInfo, basis: seq<Item>, seed: set<nat>, c: Configs, c': Configs, it: Item,
                   r: nat)
    requires g.Valid() && Exact(g, info) && Expanding(g, info, basis, seed, c, c', it, r)
    requires Predicts(g, it, Item(r, 0))
    ensures Expanding(g, info, basis, seed, c, Predict(g, info, c', it, Item(r, 0)), it, r + 1)
  {
    var c'' := Predict(g, info, c', it, Item(r, 0));
    PredictGrown(g, info, basis, seed, c', it, Item(r, 0));
    LargerTrans(c, c', c'');
    LargerKeepsExpanding(g, info, c', c'', it, r);
  }

  // The loop over the rules of the symbol at the dot of one configuration.
  method Expand(g: Grammar, info: FirstInfo, ghost basis: seq<Item>, ghost seed: set<nat>, c: Configs, it: Item)
    returns (c': Configs)
    requires g.Valid() && Exact(g, info) && Grown(g, basis, seed, c) && it in c.items
    requires Justified(g, info, basis, seed, c)
    ensures Grown(g, basis, seed, c') && Larger(c, c') && ExpandedAll(g, info, c', it)
    ensures Justified(g, info, basis, seed, c')
  {
    hide Justified, NoDup;
    assert ValidItem(g, it);
    ExpandStart(g, info, basis, seed, c, it);
    hide Grown, Expanding, ExpandedAll, Larger, ValidItem;
    c' := c;
    for r := 0 to |g.rules|
      invariant Expanding(g, info, basis, seed, c, c', it, r) && Justified(g, info, basis, seed, c')
    {
      if it.dot < |g.rules[it.rule].rhs| && g.rules[r].lhs == g.rules[it.rule].rhs[it.dot] {
        c' := AddPredicted(g, info, basis, seed, c, c', it, r);
      } else {
        ExpandSkip(g, info, basis, seed, c, c', it, r);
      }
    }
    ExpandDone(g, info, basis, seed, c, c', it);
  }

  lemma ExpandStart(g: Grammar, info: FirstInfo, basis: seq<Item>, seed: set<nat>, c: Configs, it: Item)
    requires g.Valid() && Shaped(g, info) && Grown(g, basis, seed, c) && it in c.items
    ensures Expanding(g, info, basis, seed, c, c, it, 0)
  {
  }

  lemma ExpandSkip(g: Grammar, info: FirstInfo, basis: seq<Item>, seed: set<nat>, c: Configs, c': Configs, it: Item,
                   r: nat)
    requires g.Valid() && Shaped(g, info) && Expanding(g, info, basis, seed, c, c', it, r)
    requires !Predicts(g, it, Item(r, 0))
    ensures Expanding(g, info, basis, seed, c, c', it, r + 1)
  {
  }

  lemma ExpandDone(g: Grammar, info: FirstInfo, basis: seq<Item>, seed: set<nat>, c: Configs, c': Configs, it: Item)
    requires g.Valid() && Shaped(g, info) && Expanding(g, info, basis, seed, c, c', it, |g.rules|)
    ensures Grown(g, basis, seed, c') && Larger(c, c') && it in c'.items && ExpandedAll(g, info, c', it)
  {
    forall d | Predicts(g, it, d)
      ensures Expanded(g, info, c', it, d)
    {
      assert d == Item(d.rule, 0);
    }
  }

  method AddPredicted(g: Grammar, info: FirstInfo, ghost basis: seq<Item>, ghost seed: set<nat>, ghost c: Configs,
                      c0: Configs, it: Item, r: nat) returns (c': Configs)
    requires g.Valid() && Exact(g, info) && Expanding(g, info, basis, seed, c, c0, it, r)
    requires Predicts(g, it, Item(r, 0)) && Justified(g, info, basis, seed, c0)
    ensures Expanding(g, info, basis, seed, c, c', it, r + 1) && Justified(g, info, basis, seed, c')
  {
    hide Justified, NoDup;
    ExpandStep(g, info, basis, seed, c, c0, it, r);
    AddedGrown(g, basis, seed, c0, it, Item(r, 0));
    AddedJustified(g, info, basis, seed, c0, it, Item(r, 0));
    var first, link := FollowInside(g, info, it);
    c' := Added(c0, Item(r, 0));
    InformedJustified(g, info, basis, seed, c', it, Item(r, 0), first, link);
    c' := Informed(c', it, Item(r, 0), first, link);
  }

  ghost function Unlisted(g: Grammar, items: seq<Item>): set<Item> {
    set it | it in AllItems(g) && it !in items
  }

  // The configurations in walked are expanded.
  ghost predicate Walked(g: Grammar, info: FirstInfo, c: Configs, walked: seq<Item>)
    requires g.Valid() && Shaped(g, info) && Shape(g, c)
  {
    forall it :: it in walked ==> it in c.items && ExpandedAll(g, info, c, it)
  }

  // One turn of the walk over the growing list.
  method Walk(g: Grammar, info: FirstInfo, ghost basis: seq<Item>, ghost seed: set<nat>, c: Configs, i: nat)
    returns (c': Configs)
    requires g.Valid() && Exact(g, info) && i < |c.items| && Grown(g, basis, seed, c)
    requires Walked(g, info, c, c.items[..i]) && Justified(g, info, basis, seed, c)
    ensures Grown(g, basis, seed, c') && c.items <= c'.items
    ensures Walked(g, info, c', c'.items[..i + 1]) && Justified(g, info, basis, seed, c')
  {
    hide Justified, NoDup;
    var it := c.items[i];
    c' := Expand(g, info, basis, seed, c, it);
    WalkedStays(g, info, c, c', c.items[..i]);
    PrefixStep(c.items, c'.items, i);
  }

  lemma PrefixStep<T>(a: seq<T>, b: seq<T>, i: nat)
    requires a <= b && i < |a|
    ensures b[..i + 1] == a[..i] + [a[i]]
  {
  }

  // Configlist_closure: the list grows while it is walked.
  method Closure(g: Grammar, info: FirstInfo, basis: seq<Item>, seed: set<nat>) returns (c: Configs)
    requires g.Valid() && Exact(g, info)
    requires NoDup(basis) && (forall it :: it in basis ==> ValidItem(g, it))
    ensures ClosureOf(g, info, basis, seed, c) && Justified(g, info, basis, seed, c)
  {
    hide Justified;
    c := Configs(basis, map it | it in basis :: seed, map it | it in basis :: []);
    InitialGrown(g, basis, seed, c);
    InitialJustified(g, info, basis, seed, c);
    assert c.items[..0] == [];
    var i := 0;
    while i < |c.items|
      invariant i <= |c.items| && Grown(g, basis, seed, c)
      invariant Walked(g, info, c, c.items[..i]) && Justified(g, info, basis, seed, c)
      decreases Unlisted(g, c.items), |c.items| - i
    {
      ghost var before := c.items;
      c := Walk(g, info, basis, seed, c, i);
      UnlistedShrinks(g, before, c.items);
      i := i + 1;
    }
  }

  lemma InitialGrown(g: Grammar, basis: seq<Item>, seed: set<nat>, c: Configs)
    requires NoDup(basis) && forall it :: it in basis ==> ValidItem(g, it)
    requires c == Configs(basis, map it | it in basis :: seed, map it | it in basis :: [])
    ensures Grown(g, basis, seed, c)
  {
    assert forall it :: it in c.fws ==> c.fws[it] == seed;
    assert forall it :: it in c.fplp ==> c.fplp[it] == [];
  }

  lemma InitialJustified(g: Grammar, info: FirstInfo, basis: seq<Item>, seed: set<nat>, c: Configs)
    requires g.Valid() && Shaped(g, info)
    requires c == Configs(basis, map it | it in basis :: seed, map it | it in basis :: [])
    ensures Justified(g, info, basis, seed, c)
  {
  }

  lemma WalkedStays(g: Grammar, info: FirstInfo, c: Configs, c': Configs, walked: seq<Item>)
    requires g.Valid() && Shaped(g, info) && Shape(g, c) && Shape(g, c') && Larger(c, c') && Walked(g, info, c, walked)
    ensures Walked(g, info, c', walked)
  {
    forall it | it in walked
      ensures it in c'.items && ExpandedAll(g, info, c', it)
    {
      LargerKeepsExpanded(g, info, c, c', it);
    }
  }

  // The list either stays or uses up items.
  lemma UnlistedShrinks(g: Grammar, items: seq<Item>, items': seq<Item>)
    requires items <= items' && NoDup(items') && forall it :: it in items' ==> ValidItem(g, it)
    ensures items' == items || Unlisted(g, items') < Unlisted(g, items)
  {
    assert forall it :: it in items ==> it in items';
    if |items| < |items'| {
      var d := items'[|items|];
      assert d !in items;
      InAllItems(g, d);
      assert d in Unlisted(g, items) && d !in Unlisted(g, items');
    } else {
      assert items' == items;
    }
  }
}
