// FindFollowSets of lemon.c: follow sets flow along the propagation links until
// nothing changes. Configurations are numbered in the order of the loops.

module FollowSets {
  import opened Sets

  ghost predicate Below(f: seq<set<nat>>, f': seq<set<nat>>) {
    |f| == |f'| && forall c :: 0 <= c < |f| ==> f[c] <= f'[c]
  }

  ghost predicate LinksInRange(links: seq<seq<nat>>) {
    forall c, k :: 0 <= c < |links| && 0 <= k < |links[c]| ==> links[c][k] < |links|
  }

  // c hands its set on to all its link targets.
  ghost predicate Passed(f: seq<set<nat>>, links: seq<seq<nat>>, c: nat)
    requires |f| == |links| && LinksInRange(links) && c < |links|
  {
    forall k :: 0 <= k < |links[c]| ==> f[c] <= f[links[c][k]]
  }

  ghost predicate Closed(f: seq<set<nat>>, links: seq<seq<nat>>)
    requires |f| == |links| && LinksInRange(links)
  {
    forall c :: 0 <= c < |links| ==> Passed(f, links, c)
  }

  // A closed family above the initial sets.
  ghost predicate Solution(f: seq<set<nat>>, init: seq<set<nat>>, links: seq<seq<nat>>)
    requires |init| == |links| && LinksInRange(links)
  {
    Below(init, f) && Closed(f, links)
  }

  ghost predicate Least(f: seq<set<nat>>, init: seq<set<nat>>, links: seq<seq<nat>>)
    requires |init| == |links| && LinksInRange(links)
  {
    forall s :: Solution(s, init, links) ==> Below(f, s)
  }

  // Handing c's set to one target stays below every solution.
  lemma StepBelow(f: seq<set<nat>>, s: seq<set<nat>>, init: seq<set<nat>>, links: seq<seq<nat>>, c: nat, k: nat)
    requires |init| == |links| == |f| && LinksInRange(links) && c < |links| && k < |links[c]|
    requires Solution(s, init, links) && Below(f, s)
    ensures Below(f[links[c][k] := f[links[c][k]] + f[c]], s)
  {
    assert Passed(s, links, c);
  }

  // Growing the set of d leaves every finished source other than d finished.
  lemma GrowKeepsPassed(f: seq<set<nat>>, links: seq<seq<nat>>, c: nat, d: nat, extra: set<nat>)
    requires |f| == |links| && LinksInRange(links) && c < |links| && d < |links| && Passed(f, links, c)
    requires c != d || extra <= f[d]
    ensures Passed(f[d := f[d] + extra], links, c)
  {
    assert extra <= f[d] ==> f[d] + extra == f[d];
  }

  ghost predicate Working(f: seq<set<nat>>, complete: seq<bool>, init: seq<set<nat>>, links: seq<seq<nat>>)
    requires |init| == |links| && LinksInRange(links)
  {
    && |f| == |complete| == |links| && Below(init, f) && Least(f, init, links)
    && forall c :: 0 <= c < |links| && complete[c] ==> Passed(f, links, c)
  }

  lemma WorkingStep(f: seq<set<nat>>, complete: seq<bool>, complete': seq<bool>, init: seq<set<nat>>,
                    links: seq<seq<nat>>, c: nat, k: nat)
    requires |init| == |links| && LinksInRange(links) && Working(f, complete, init, links)
    requires c < |links| && k < |links[c]|
    requires complete' == if f[c] <= f[links[c][k]] then complete else complete[links[c][k] := false]
    ensures Working(f[links[c][k] := f[links[c][k]] + f[c]], complete', init, links)
  {
    var d := links[c][k];
    var f' := f[d := f[d] + f[c]];
    forall x | 0 <= x < |links| && complete'[x]
      ensures Passed(f', links, x)
    {
      GrowKeepsPassed(f, links, x, d, f[c]);
    }
    forall s | Solution(s, init, links)
      ensures Below(f', s)
    {
      StepBelow(f, s, init, links, c, k);
    }
  }

  ghost predicate InWidth(f: seq<set<nat>>, size: nat) {
    forall x, e :: 0 <= x < |f| && e in f[x] ==> e < size
  }

  // The state the loops share.
  ghost predicate Ready(table: SetTable, status: array<bool>, init: seq<set<nat>>, links: seq<seq<nat>>)
    reads table, table.rows, status
  {
    && |init| == |links| && LinksInRange(links)
    && table.Valid() && status !in table.rows
    && Working(table.Family(), status[..], init, links) && InWidth(table.Family(), table.size)
  }

  // One link of configuration c.
  method PropagateLink(table: SetTable, status: array<bool>, ghost init: seq<set<nat>>, links: seq<seq<nat>>, c: nat,
                       k: nat)
    returns (change: bool)
    requires Ready(table, status, init, links) && c < |links| && k < |links[c]| && !status[c]
    modifies table.rows, status
    ensures Ready(table, status, init, links) && !status[c]
    ensures table.Row(c) == old(table.Row(c)) <= table.Row(links[c][k])
    ensures forall x :: 0 <= x < |links| ==> old(table.Row(x)) <= table.Row(x)
    ensures if change then Absent(table.Family(), table.size) < old(Absent(table.Family(), table.size))
            else table.Family() == old(table.Family()) && status[..] == old(status[..])
  {
    var d := links[c][k];
    ghost var f, s := table.Family(), status[..];
    WorkingStep(f, s, if f[c] <= f[d] then s else s[d := false], init, links, c, k);
    AbsentShrinks(f, f[d := f[d] + f[c]], d, f[c], table.size);
    change := table.SetUnion(d, c);
    assert status[..] == s;
    if change {
      status[d] := false;
      assert status[..] == s[d := false];
      assert table.Family() == f[d := f[d] + f[c]];
    }
  }

  // The inner loop over the links of configuration c.
  method Propagate(table: SetTable, status: array<bool>, ghost init: seq<set<nat>>, links: seq<seq<nat>>, c: nat)
    returns (progress: bool)
    requires Ready(table, status, init, links) && c < |links| && !status[c]
    modifies table.rows, status
    ensures Ready(table, status, init, links)
    ensures if progress then Absent(table.Family(), table.size) < old(Absent(table.Family(), table.size))
            else table.Family() == old(table.Family()) && status[..] == old(status[..])[c := true]
  {
    progress := false;
    for k := 0 to |links[c]|
      invariant Ready(table, status, init, links) && !status[c]
      invariant forall x :: 0 <= x < k ==> table.Row(c) <= table.Row(links[c][x])
      invariant if progress then Absent(table.Family(), table.size) < old(Absent(table.Family(), table.size))
                else table.Family() == old(table.Family()) && status[..] == old(status[..])
    {
      var change := PropagateLink(table, status, init, links, c, k);
      progress := progress || change;
    }
    ghost var f, s := table.Family(), status[..];
    status[c] := true;
    assert status[..] == s[c := true] && table.Family() == f;
    assert Passed(f, links, c);
  }

  method FindFollowSets(init: seq<set<nat>>, links: seq<seq<nat>>, width: nat) returns (fws: seq<set<nat>>)
    requires |init| == |links| && LinksInRange(links)
    requires forall c, e :: 0 <= c < |init| && e in init[c] ==> e < width
    ensures |fws| == |init|
    ensures Solution(fws, init, links) && Least(fws, init, links)
  {
    var table := new SetTable(init, width);
    var status := new bool[|links|](_ => false);
    var progress := true;
    while progress
      invariant Ready(table, status, init, links) && fresh(table.rows)
      invariant !progress ==> forall x :: 0 <= x < |links| ==> status[x]
      decreases Absent(table.Family(), table.size), progress
    {
      progress := false;
      ghost var before := table.Family();
      for c := 0 to |links|
        invariant Ready(table, status, init, links) && fresh(table.rows)
        invariant if progress then Absent(table.Family(), table.size) < Absent(before, table.size)
                  else table.Family() == before
        invariant !progress ==> forall x :: 0 <= x < c ==> status[x]
      {
        if !status[c] {
          var changed := Propagate(table, status, init, links, c);
          progress := progress || changed;
        }
      }
    }
    fws := table.Family();
  }
}
