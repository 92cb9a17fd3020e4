// FindLinks and FindFollowSets on the finished automaton: the propagation links of
// all configurations, and the least follow sets closed under them.

module Lookaheads {
  import opened Grammars
  import opened FirstSets
  import opened States
  import opened Automaton
  import opened FollowSets

  predicate IsConfig(states: seq<State>, c: Cfg) {
    c.state < |states| && c.item in states[c.state].c.items
  }

  // Forward links inside a state, left by the closure.
  predicate ClosureLink(states: seq<State>, c: Cfg, d: Cfg) {
    && c.state == d.state && c.state < |states|
    && c.item in states[c.state].c.fplp && d.item in states[c.state].c.fplp[c.item]
  }

  // Follow information flows from c to d.
  ghost predicate Flows(a: Auto, c: Cfg, d: Cfg) {
    ClosureLink(a.states, c, d) || Linked(a.bplp, d, c)
  }

  type Follow = map<Cfg, set<nat>>

  ghost predicate FollowSolution(a: Auto, f: Follow) {
    && (forall c :: IsConfig(a.states, c) ==> c in f)
    && (forall c ::
      IsConfig(a.states, c) && c.item in a.states[c.state].c.fws ==> a.states[c.state].c.fws[c.item] <= f[c])
    && (forall c, d :: IsConfig(a.states, c) && IsConfig(a.states, d) && Flows(a, c, d) ==> f[c] <= f[d])
  }

  ghost predicate FollowBelow(a: Auto, f: Follow, f': Follow) {
    forall c :: IsConfig(a.states, c) ==> c in f && c in f' && f[c] <= f'[c]
  }

  // The least solution: what LALR(1) lookaheads are.
  ghost predicate FollowsOf(a: Auto, f: Follow) {
    FollowSolution(a, f) && forall s :: FollowSolution(a, s) ==> FollowBelow(a, f, s)
  }

  // ---- numbering the configurations in loop order ----

  ghost predicate Numbered(order: seq<Cfg>, pos: map<Cfg, nat>) {
    && (forall c :: c in pos ==> pos[c] < |order| && order[pos[c]] == c)
    && (forall k :: 0 <= k < |order| ==> order[k] in pos)
  }

  // The configurations of the states before i and the first k items of state i.
  ghost predicate Before(states: seq<State>, i: nat, k: nat, c: Cfg) {
    || (c.state < i && IsConfig(states, c))
    || (c.state == i < |states| && k <= |states[i].c.items| && c.item in states[i].c.items[..k])
  }

  method Enumerate(states: seq<State>) returns (order: seq<Cfg>, pos: map<Cfg, nat>)
    ensures Numbered(order, pos) && forall c :: c in pos <==> IsConfig(states, c)
  {
    order, pos := [], map[];
    for i := 0 to |states|
      invariant Numbered(order, pos) && forall c :: c in pos <==> Before(states, i, 0, c)
    {
      var items := states[i].c.items;
      for k := 0 to |items|
        invariant Numbered(order, pos) && forall c :: c in pos <==> Before(states, i, k, c)
      {
        PrefixMembers(items, k);
        var c := Cfg(i, items[k]);
        order, pos := order + [c], pos[c := |order|];
      }
      assert items[..|items|] == items;
    }
  }

  // ---- FindLinks ----

  // The forward links as lists of configurations.
  method FindLinks(a: Auto, order: seq<Cfg>) returns (fplp: map<Cfg, seq<Cfg>>)
    requires forall c :: c in order <==> IsConfig(a.states, c)
    requires forall d, c :: Linked(a.bplp, d, c) ==> IsConfig(a.states, d) && IsConfig(a.states, c)
    ensures forall c, d :: IsConfig(a.states, c) ==> (Linked(fplp, c, d) <==> Flows(a, c, d))
  {
    fplp := map c | c in order :: OwnLinks(a.states, c);
    assert forall c, d :: IsConfig(a.states, c) ==> (Linked(fplp, c, d) <==> ClosureLink(a.states, c, d));
    for k := 0 to |order|
      invariant forall c, d :: IsConfig(a.states, c) ==>
        (Linked(fplp, c, d) <==> ClosureLink(a.states, c, d) || (d in order[..k] && Linked(a.bplp, d, c)))
    {
      var cfp := order[k];
      PrefixMembers(order, k);
      fplp := Forward(a, fplp, cfp);
    }
    assert order[..|order|] == order;
  }

  // The forward links a configuration has from the closure.
  function OwnLinks(states: seq<State>, c: Cfg): (l: seq<Cfg>)
    requires IsConfig(states, c)
    ensures forall d :: d in l <==> ClosureLink(states, c, d)
  {
    if c.item in states[c.state].c.fplp then InState(c.state, states[c.state].c.fplp[c.item]) else []
  }

  function InState(i: nat, items: seq<Item>): (l: seq<Cfg>)
    ensures forall d :: d in l <==> d.state == i && d.item in items
  {
    if items == [] then [] else [Cfg(i, items[0])] + InState(i, items[1..])
  }

  // The loop over the back links of cfp.
  method Forward(a: Auto, fplp: map<Cfg, seq<Cfg>>, cfp: Cfg) returns (r: map<Cfg, seq<Cfg>>)
    ensures forall c, d :: Linked(r, c, d) <==> Linked(fplp, c, d) || (d == cfp && Linked(a.bplp, cfp, c))
  {
    r := fplp;
    if cfp in a.bplp {
      var back := a.bplp[cfp];
      for k := 0 to |back|
        invariant forall c, d :: Linked(r, c, d) <==> Linked(fplp, c, d) || (d == cfp && c in back[..k])
      {
        var other := back[k];
        ghost var before := r;
        r := r[other := [cfp] + if other in r then r[other] else []];
        PlinkAdded(before, r, other, cfp);
        PrefixMembers(back, k);
      }
      assert back[..|back|] == back;
    }
  }

  // ---- FindFollowSets on the numbered configurations ----

  function Positions(l: seq<Cfg>, pos: map<Cfg, nat>): (p: seq<nat>)
    requires forall c :: c in l ==> c in pos
    ensures |p| == |l| && forall k :: 0 <= k < |l| ==> p[k] == pos[l[k]]
  {
    if l == [] then [] else [pos[l[0]]] + Positions(l[1..], pos)
  }

  // The numbered links are the forward links.
  ghost predicate NumberedLinks(order: seq<Cfg>, pos: map<Cfg, nat>, fplp: map<Cfg, seq<Cfg>>, links: seq<seq<nat>>)
    requires Numbered(order, pos)
  {
    && |links| == |order| && LinksInRange(links)
    && (forall k, j :: 0 <= k < |links| && 0 <= j < |links[k]| ==> Linked(fplp, order[k], order[links[k][j]]))
    && (forall c, d :: c in pos && Linked(fplp, c, d) ==> d in pos && pos[d] in links[pos[c]])
  }

  method NumberLinks(order: seq<Cfg>, pos: map<Cfg, nat>, fplp: map<Cfg, seq<Cfg>>) returns (links: seq<seq<nat>>)
    requires Numbered(order, pos)
    requires forall c, d :: c in pos && Linked(fplp, c, d) ==> d in pos
    ensures NumberedLinks(order, pos, fplp, links)
  {
    links := [];
    for k := 0 to |order|
      invariant |links| == k
      invariant forall i :: 0 <= i < k ==> LinkRow(order, pos, fplp, order[i], links[i])
    {
      var c := order[k];
      var row := [];
      if c in fplp {
        assert forall d :: d in fplp[c] ==> Linked(fplp, c, d);
        row := Positions(fplp[c], pos);
      }
      links := links + [row];
    }
    forall c, d | c in pos && Linked(fplp, c, d)
      ensures pos[d] in links[pos[c]]
    {
      assert LinkRow(order, pos, fplp, c, links[pos[c]]);
    }
  }

  ghost predicate LinkRow(order: seq<Cfg>, pos: map<Cfg, nat>, fplp: map<Cfg, seq<Cfg>>, c: Cfg, row: seq<nat>) {
    && (forall j :: 0 <= j < |row| ==> row[j] < |order| && Linked(fplp, c, order[row[j]]))
    && (forall d :: Linked(fplp, c, d) ==> d in pos && pos[d] in row)
  }

  function InitialSet(states: seq<State>, c: Cfg): set<nat> {
    if c.state < |states| && c.item in states[c.state].c.fws then states[c.state].c.fws[c.item] else {}
  }

  ghost predicate LinkedConfigs(a: Auto, order: seq<Cfg>, pos: map<Cfg, nat>, fplp: map<Cfg, seq<Cfg>>) {
    && Numbered(order, pos)
    && (forall c :: c in pos <==> IsConfig(a.states, c))
    && (forall c, d :: IsConfig(a.states, c) ==> (Linked(fplp, c, d) <==> Flows(a, c, d)))
  }

  // A numbered solution, read back by configuration, and the other way round.
  lemma SolutionBack(a: Auto, order: seq<Cfg>, pos: map<Cfg, nat>, fplp: map<Cfg, seq<Cfg>>, links: seq<seq<nat>>,
                     init: seq<set<nat>>, fws: seq<set<nat>>, f: Follow)
    requires LinkedConfigs(a, order, pos, fplp) && NumberedLinks(order, pos, fplp, links)
    requires |init| == |order| && forall k :: 0 <= k < |order| ==> init[k] == InitialSet(a.states, order[k])
    requires Solution(fws, init, links)
    requires forall c :: c in pos ==> c in f && f[c] == fws[pos[c]]
    ensures FollowSolution(a, f)
  {
    forall c, d | IsConfig(a.states, c) && IsConfig(a.states, d) && Flows(a, c, d)
      ensures f[c] <= f[d]
    {
      assert Linked(fplp, c, d);
      assert Passed(fws, links, pos[c]);
    }
    forall c | IsConfig(a.states, c)
      ensures InitialSet(a.states, c) <= f[c]
    {
      assert init[pos[c]] <= fws[pos[c]];
    }
  }

  lemma SolutionForth(a: Auto, order: seq<Cfg>, pos: map<Cfg, nat>, fplp: map<Cfg, seq<Cfg>>, links: seq<seq<nat>>,
                      init: seq<set<nat>>, s: Follow, fws: seq<set<nat>>)
    requires LinkedConfigs(a, order, pos, fplp) && NumberedLinks(order, pos, fplp, links)
    requires |init| == |order| && forall k :: 0 <= k < |order| ==> init[k] == InitialSet(a.states, order[k])
    requires FollowSolution(a, s)
    requires |fws| == |order| && forall k :: 0 <= k < |order| ==> fws[k] == s[order[k]]
    ensures Solution(fws, init, links)
  {
    forall c | 0 <= c < |links|
      ensures Passed(fws, links, c)
    {
      forall k | 0 <= k < |links[c]|
        ensures fws[c] <= fws[links[c][k]]
      {
        assert Linked(fplp, order[c], order[links[c][k]]);
      }
    }
  }

  method Follows(a: Auto, nterminal: nat) returns (f: Follow)
    requires forall d, c :: Linked(a.bplp, d, c) ==> IsConfig(a.states, d) && IsConfig(a.states, c)
    requires forall c, d :: ClosureLink(a.states, c, d) ==> IsConfig(a.states, d)
    requires forall c, t :: IsConfig(a.states, c) && t in InitialSet(a.states, c) ==> t < nterminal
    ensures FollowsOf(a, f)
  {
    var order, pos := Enumerate(a.states);
    var fplp := FindLinks(a, order);
    var links := NumberLinks(order, pos, fplp);
    var init := seq(|order|, k requires 0 <= k < |order| => InitialSet(a.states, order[k]));
    var fws := FindFollowSets(init, links, nterminal);
    f := map c | c in pos :: fws[pos[c]];
    SolutionBack(a, order, pos, fplp, links, init, fws, f);
    forall s | FollowSolution(a, s)
      ensures FollowBelow(a, f, s)
    {
      var family := seq(|order|, k requires 0 <= k < |order| => s[order[k]]);
      SolutionForth(a, order, pos, fplp, links, init, s, family);
      assert Below(fws, family);
    }
  }
}
