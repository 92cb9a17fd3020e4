// Lemon's sets of terminals: every set is a flag array of global_size cells, and
// SetAdd / SetUnion update it in place and report whether anything was new.

module Sets {

  function Members(flags: seq<bool>): (s: set<nat>)
    ensures forall e: nat :: e in s <==> e < |flags| && flags[e]
  {
    set e: nat | e < |flags| && flags[e]
  }

  lemma {:induction false} SubsetCount<T>(a: set<T>, b: set<T>)
    requires a <= b
    ensures |a| <= |b|
    ensures |a| == |b| ==> a == b
  {
    if a != {} {
      var x :| x in a;
      SubsetCount(a - {x}, b - {x});
      assert a == a - {x} + {x} && b == b - {x} + {x};
    }
  }

  // The first n numbers.
  ghost function UpTo(n: nat): (s: set<nat>)
    ensures |s| == n && forall x: nat :: x in s <==> x < n
  {
    if n == 0 then {} else UpTo(n - 1) + {n - 1}
  }

  // What a family could still gain, the measure of the fixpoint loops.
  ghost function Absent(family: seq<set<nat>>, size: nat): set<(nat, nat)> {
    set k: nat, e: nat | k < |family| && e < size && e !in family[k] :: (k, e)
  }

  // Growing a family inside its cells uses up absent members.
  lemma AbsentShrinks(f: seq<set<nat>>, f': seq<set<nat>>, k: nat, extra: set<nat>, size: nat)
    requires k < |f| && f' == f[k := f[k] + extra]
    requires forall e :: e in extra ==> e < size
    ensures if extra <= f[k] then f' == f else Absent(f', size) < Absent(f, size)
  {
    if extra <= f[k] {
      assert f[k] + extra == f[k];
    } else {
      var e :| e in extra && e !in f[k];
      assert (k, e) in Absent(f, size) && (k, e) !in Absent(f', size);
    }
  }

  // The family of flag arrays that one pass of the generator works on.
  class SetTable {
    const size: nat
    var rows: seq<array<bool>>

    ghost predicate Valid()
      reads this, rows
    {
      && (forall i :: 0 <= i < |rows| ==> rows[i].Length == size)
      && (forall i, j :: 0 <= i < j < |rows| ==> rows[i] != rows[j])
    }

    function Row(i: nat): set<nat>
      requires i < |rows|
      reads this, rows
    {
      Members(rows[i][..])
    }

    // The whole family as a value.
    function Family(): (f: seq<set<nat>>)
      reads this, rows
      ensures |f| == |rows| && forall i :: 0 <= i < |rows| ==> f[i] == Row(i)
    {
      seq(|rows|, i requires 0 <= i < |rows| reads this, rows => Row(i))
    }

    // SetSize(n) makes every set n + 1 cells wide.
    constructor (sets: seq<set<nat>>, n: nat)
      requires forall c, e :: 0 <= c < |sets| && e in sets[c] ==> e < n + 1
      ensures Valid() && fresh(this) && fresh(rows) && size == n + 1
      ensures Family() == sets
    {
      size := n + 1;
      rows := [];
      new;
      for i := 0 to |sets|
        invariant |rows| == i && Valid() && fresh(rows)
        invariant forall k :: 0 <= k < i ==> Row(k) == sets[k]
      {
        var s := new bool[size](e => e in sets[i]);
        assert s[..] == seq(size, e => e in sets[i]);
        assert Members(s[..]) == sets[i];
        rows := rows + [s];
        assert forall k :: 0 <= k < i ==> Row(k) == sets[k];
      }
    }

    method SetAdd(i: nat, e: nat) returns (added: bool)
      requires Valid() && i < |rows| && e < size
      modifies rows[i]
      ensures Valid()
      ensures Family() == old(Family())[i := old(Row(i)) + {e}]
      ensures added == (e !in old(Row(i)))
    {
      var s := rows[i];
      added := !s[e];
      s[e] := true;
      assert forall k :: 0 <= k < |rows| && k != i ==> rows[k][..] == old(rows[k][..]);
      assert Row(i) == old(Row(i)) + {e};
    }

    // Adds set j to set i.
    method SetUnion(i: nat, j: nat) returns (progress: bool)
      requires Valid() && i < |rows| && j < |rows|
      modifies rows[i]
      ensures Valid()
      ensures Family() == old(Family())[i := old(Row(i)) + old(Row(j))]
      ensures progress == !(old(Row(j)) <= old(Row(i)))
    {
      var s1, s2 := rows[i], rows[j];
      progress := false;
      for e := 0 to size
        invariant forall x :: 0 <= x < size ==>
          s1[x] == (old(s1[x]) || (x < e && old(s2[x])))
        invariant s1 != s2 ==> s2[..] == old(s2[..])
        invariant progress <==> exists x: nat :: x < e && old(s2[x]) && !old(s1[x])
      {
        if s2[e] && !s1[e] {
          progress := true;
          s1[e] := true;
        }
      }
      assert forall k :: 0 <= k < |rows| && k != i ==> rows[k][..] == old(rows[k][..]);
      assert Row(i) == old(Row(i)) + old(Row(j));
    }
  }
}
