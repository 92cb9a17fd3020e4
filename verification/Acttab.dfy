// The "acttab" module of lemon.c: transaction sets (lookahead, action) are packed
// into one shared table so that every set can be read back at its own offset.

module ActionTable {
  import opened Sets

  datatype Slot = Slot(lookahead: int, action: int)

  // A transaction set that has been inserted, with the offset it was given.
  datatype Row = Row(ofst: int, entries: seq<Slot>)

  predicate Distinct(s: seq<Slot>) {
    forall i, j :: 0 <= i < j < |s| ==> s[i].lookahead != s[j].lookahead
  }

  predicate Transaction(s: seq<Slot>) {
    Distinct(s) && forall i :: 0 <= i < |s| ==> s[i].lookahead >= 0
  }

  // Slot k of the table answers lookups at the given offset.
  predicate Answers(table: seq<Slot>, ofst: int, k: int) {
    0 <= k < |table| && table[k].lookahead >= 0 && table[k].lookahead == k - ofst
  }

  ghost predicate Unanswered(table: seq<Slot>, ofst: int) {
    forall k :: !Answers(table, ofst, k)
  }

  // Reading the table at the row's offset finds exactly the row's entries.
  ghost predicate Embedded(table: seq<Slot>, row: Row) {
    && (forall i :: 0 <= i < |row.entries| ==>
         var k := row.entries[i].lookahead + row.ofst;
         0 <= k < |table| && table[k] == row.entries[i])
    && (forall k :: Answers(table, row.ofst, k) ==> table[k] in row.entries)
  }

  // ---- the two ways a transaction set fits at an offset ----

  // Every slot the set needs is unused.
  predicate Free(table: seq<Slot>, s: seq<Slot>, ofst: int) {
    forall i :: 0 <= i < |s| ==>
      var k := s[i].lookahead + ofst;
      0 <= k < |table| && table[k].lookahead < 0
  }

  // The set is already there, slot by slot.
  predicate Present(table: seq<Slot>, s: seq<Slot>, ofst: int) {
    forall i :: 0 <= i < |s| ==>
      var k := s[i].lookahead + ofst;
      0 <= k < |table| && table[k] == s[i]
  }

  // The final loop of acttab_insert.
  function Written(table: seq<Slot>, s: seq<Slot>, ofst: int): (t: seq<Slot>)
    requires forall i :: 0 <= i < |s| ==> 0 <= s[i].lookahead + ofst < |table|
    ensures |t| == |table|
  {
    if s == [] then table
    else
      var t := Written(table, s[..|s| - 1], ofst);
      t[s[|s| - 1].lookahead + ofst := s[|s| - 1]]
  }

  lemma {:induction false} WrittenSlots(table: seq<Slot>, s: seq<Slot>, ofst: int)
    requires Distinct(s) && forall i :: 0 <= i < |s| ==> 0 <= s[i].lookahead + ofst < |table|
    ensures var t := Written(table, s, ofst);
            && (forall i :: 0 <= i < |s| ==> t[s[i].lookahead + ofst] == s[i])
            && (forall k :: 0 <= k < |table| ==> t[k] == table[k] || (t[k] in s && t[k].lookahead == k - ofst))
  {
    if s != [] {
      var s' := s[..|s| - 1];
      WrittenSlots(table, s', ofst);
      assert forall x :: x in s' ==> x in s;
    }
  }

  // Writing a set into free slots where nothing answers its offset.
  lemma FreshRow(table: seq<Slot>, s: seq<Slot>, ofst: int)
    requires Transaction(s) && Free(table, s, ofst)
    requires Unanswered(table, ofst)
    ensures Embedded(Written(table, s, ofst), Row(ofst, s))
  {
    WrittenSlots(table, s, ofst);
    var t := Written(table, s, ofst);
    forall k | Answers(t, ofst, k)
      ensures t[k] in s
    {
      assert t[k] == table[k] ==> Answers(table, ofst, k);
    }
  }

  // An earlier, non-empty row survives: its offset differs, and its slots were in use.
  lemma OldRowKept(table: seq<Slot>, s: seq<Slot>, ofst: int, row: Row)
    requires Transaction(s) && Free(table, s, ofst)
    requires Unanswered(table, ofst)
    requires Embedded(table, row) && Transaction(row.entries) && row.entries != []
    ensures row.ofst != ofst && Embedded(Written(table, s, ofst), row)
  {
    WrittenSlots(table, s, ofst);
    var t := Written(table, s, ofst);
    assert Answers(table, row.ofst, row.entries[0].lookahead + row.ofst);
    forall i | 0 <= i < |row.entries|
      ensures t[row.entries[i].lookahead + row.ofst] == row.entries[i]
    {
      var k := row.entries[i].lookahead + row.ofst;
      assert table[k] == row.entries[i];
    }
    forall k | Answers(t, row.ofst, k)
      ensures t[k] in row.entries
    {
      assert t[k] == table[k] ==> Answers(table, row.ofst, k);
    }
  }

  ghost function Hits(table: seq<Slot>, ofst: int, n: nat): set<int>
    requires n <= |table|
  {
    set k | 0 <= k < n && Answers(table, ofst, k)
  }

  lemma {:induction false} NeededCount(s: seq<Slot>, ofst: int)
    requires Distinct(s)
    ensures |set i | 0 <= i < |s| :: s[i].lookahead + ofst| == |s|
  {
    var need := set i | 0 <= i < |s| :: s[i].lookahead + ofst;
    if s == [] {
      assert need == {};
    } else {
      var s', last := s[..|s| - 1], s[|s| - 1].lookahead + ofst;
      NeededCount(s', ofst);
      var need' := set i | 0 <= i < |s'| :: s'[i].lookahead + ofst;
      assert forall i :: 0 <= i < |s'| ==> s'[i] == s[i];
      assert need == need' + {last};
      assert last !in need';
    }
  }

  // When the set is present and as many slots answer the offset as the set has
  // entries, no other slot answers.
  lemma CountedRow(table: seq<Slot>, s: seq<Slot>, ofst: int)
    requires Transaction(s) && Present(table, s, ofst)
    requires |Hits(table, ofst, |table|)| == |s|
    ensures Embedded(table, Row(ofst, s))
  {
    var need := set i | 0 <= i < |s| :: s[i].lookahead + ofst;
    NeededCount(s, ofst);
    assert need <= Hits(table, ofst, |table|);
    SubsetCount(need, Hits(table, ofst, |table|));
    forall k | Answers(table, ofst, k)
      ensures table[k] in s
    {
      assert k in need;
    }
  }

  lemma {:induction false} WrittenPresent(table: seq<Slot>, s: seq<Slot>, ofst: int)
    requires Present(table, s, ofst)
    ensures Written(table, s, ofst) == table
  {
    if s != [] {
      WrittenPresent(table, s[..|s| - 1], ofst);
    }
  }

  // Rows share an offset only if they are the same set.
  lemma SameOffsetSameSet(table: seq<Slot>, a: Row, b: Row)
    requires Embedded(table, a) && Embedded(table, b) && a.ofst == b.ofst
    requires Transaction(a.entries) && Transaction(b.entries)
    ensures forall e :: e in a.entries <==> e in b.entries
  {
    forall e | e in a.entries
      ensures e in b.entries
    {
      assert Answers(table, b.ofst, e.lookahead + a.ofst);
    }
    forall e | e in b.entries
      ensures e in a.entries
    {
      assert Answers(table, a.ofst, e.lookahead + b.ofst);
    }
  }

  lemma GrownKeeps(table: seq<Slot>, more: nat, row: Row)
    requires Embedded(table, row)
    ensures Embedded(table + seq(more, _ => Slot(-1, -1)), row)
  {
    var t := table + seq(more, _ => Slot(-1, -1));
    forall k | Answers(t, row.ofst, k)
      ensures t[k] in row.entries
    {
      assert Answers(table, row.ofst, k);
    }
  }

  // ---- the table under construction ----

  class Acttab {
    var nAction: nat
    var aAction: seq<Slot>      // nActionAlloc slots
    var aLookahead: seq<Slot>   // the transaction set being built
    var mnLookahead: int
    var mnAction: int
    var mxLookahead: int
    ghost var rows: seq<Row>    // every set inserted so far

    ghost predicate Valid()
      reads this
    {
      && nAction <= |aAction|
      && (forall k :: nAction <= k < |aAction| ==> aAction[k].lookahead < 0)
      && (forall r ::
        0 <= r < |rows| ==> rows[r].entries != [] && Transaction(rows[r].entries) && Embedded(aAction, rows[r]))
      && Transaction(aLookahead)
      && (aLookahead != [] ==>
           && (exists i :: 0 <= i < |aLookahead| && aLookahead[i] == Slot(mnLookahead, mnAction))
           && forall i :: 0 <= i < |aLookahead| ==> mnLookahead <= aLookahead[i].lookahead <= mxLookahead)
    }

    constructor ()
      ensures Valid() && rows == [] && aLookahead == []
    {
      nAction, aAction, aLookahead := 0, [], [];
      mnLookahead, mnAction, mxLookahead := 0, 0, 0;
      rows := [];
    }

    // acttab_action
    method Action(lookahead: nat, action: int)
      requires Valid() && forall i :: 0 <= i < |aLookahead| ==> aLookahead[i].lookahead != lookahead
      modifies this
      ensures Valid() && aLookahead == old(aLookahead) + [Slot(lookahead, action)]
      ensures rows == old(rows) && aAction == old(aAction) && nAction == old(nAction)
    {
      ghost var witness_ := |aLookahead|;
      if aLookahead == [] {
        mxLookahead, mnLookahead, mnAction := lookahead, lookahead, action;
      } else {
        ghost var i :| 0 <= i < |aLookahead| && aLookahead[i] == Slot(mnLookahead, mnAction);
        if mxLookahead < lookahead {
          mxLookahead := lookahead;
        }
        if mnLookahead > lookahead {
          mnLookahead, mnAction := lookahead, action;
        } else {
          witness_ := i;
        }
      }
      aLookahead := aLookahead + [Slot(lookahead, action)];
      assert aLookahead[witness_] == Slot(mnLookahead, mnAction);
    }

    // The offset is good: free there, or the very set is there.
    ghost predicate Placeable(ofst: int)
      reads this
    {
      || (Free(aAction, aLookahead, ofst) && Unanswered(aAction, ofst))
      || (Present(aAction, aLookahead, ofst) && Embedded(aAction, Row(ofst, aLookahead)))
    }

    // The first branch of the scan: all needed slots empty, nothing else at this offset.
    method FitsEmpty(i: int) returns (fits: bool)
      requires Valid() && aLookahead != [] && 0 <= i < nAction + mnLookahead && nAction + mxLookahead < |aAction|
      ensures fits ==> Placeable(i - mnLookahead)
    {
      var j := 0;
      while j < |aLookahead|
        invariant 0 <= j <= |aLookahead| && Free(aAction, aLookahead[..j], i - mnLookahead)
      {
        var k := aLookahead[j].lookahead - mnLookahead + i;
        if k < 0 || aAction[k].lookahead >= 0 {
          return false;
        }
        j := j + 1;
      }
      assert aLookahead[..j] == aLookahead;
      for j := 0 to nAction
        invariant forall x :: 0 <= x < j ==> aAction[x].lookahead != x + mnLookahead - i
      {
        if aAction[j].lookahead == j + mnLookahead - i {
          return false;
        }
      }
      return true;
    }

    // The second branch: the same set was inserted before.
    method FitsSame(i: int) returns (fits: bool)
      requires Valid() && aLookahead != [] && 0 <= i < |aAction|
      ensures fits ==> Placeable(i - mnLookahead)
    {
      var ofst := i - mnLookahead;
      if aAction[i].action != mnAction {
        return false;
      }
      var j := 0;
      while j < |aLookahead|
        invariant 0 <= j <= |aLookahead|
        invariant forall x :: 0 <= x < j ==> 0 <= aLookahead[x].lookahead + ofst < nAction
        invariant forall x :: 0 <= x < j ==> aAction[aLookahead[x].lookahead + ofst] == aLookahead[x]
      {
        var k := aLookahead[j].lookahead - mnLookahead + i;
        if k < 0 || k >= nAction || aLookahead[j] != aAction[k] {
          return false;
        }
        j := j + 1;
      }
      var n := CountHits(ofst);
      fits := n == |aLookahead|;
      if fits {
        assert Present(aAction, aLookahead, ofst);
        CountedRow(aAction, aLookahead, ofst);
      }
    }

    method CountHits(ofst: int) returns (n: nat)
      requires Valid()
      ensures n == |Hits(aAction, ofst, |aAction|)|
    {
      n := 0;
      for j := 0 to nAction
        invariant n == |Hits(aAction, ofst, j)|
      {
        assert Hits(aAction, ofst, j + 1) == Hits(aAction, ofst, j) + if Answers(aAction, ofst, j) then {j} else {};
        if aAction[j].lookahead >= 0 && aAction[j].lookahead == j - ofst {
          n := n + 1;
        }
      }
      assert Hits(aAction, ofst, nAction) == Hits(aAction, ofst, |aAction|);
    }

    // The realloc of acttab_insert.
    method Grow(more: nat)
      requires Valid()
      modifies this`aAction
      ensures Valid() && |aAction| == old(|aAction|) + more
    {
      forall r | 0 <= r < |rows|
        ensures Embedded(aAction + seq(more, _ => Slot(-1, -1)), rows[r])
      {
        GrownKeeps(aAction, more, rows[r]);
      }
      aAction := aAction + seq(more, _ => Slot(-1, -1));
    }

    // acttab_insert: returns the offset of the pending set, which becomes a row; all
    // earlier rows keep their meaning.
    method Insert() returns (ofst: int)
      requires Valid() && aLookahead != []
      modifies this
      ensures Valid() && aLookahead == []
      ensures rows == old(rows) + [Row(ofst, old(aLookahead))]
    {
      var n := mxLookahead + 1;
      if nAction + n >= |aAction| {
        Grow(nAction + n + 20);
      }
      ofst := FindPlace();
      PlacedRow(ofst);
      WriteAll(ofst);
    }

    // One step of the scan.
    method Fits(i: int) returns (fits: bool)
      requires Valid() && aLookahead != [] && 0 <= i < nAction + mnLookahead && nAction + mxLookahead < |aAction|
      ensures fits ==> Placeable(i - mnLookahead)
    {
      if aAction[i].lookahead < 0 {
        fits := FitsEmpty(i);
      } else if aAction[i].lookahead == mnLookahead {
        fits := FitsSame(i);
      } else {
        fits := false;
      }
    }

    // The scan for an offset; in the worst case the set is appended.
    method FindPlace() returns (ofst: int)
      requires Valid() && aLookahead != [] && nAction + mxLookahead < |aAction|
      ensures Placeable(ofst)
    {
      var i := 0;
      while i < nAction + mnLookahead
        invariant 0 <= i <= nAction + mnLookahead
      {
        var fits := Fits(i);
        if fits {
          return i - mnLookahead;
        }
        i := i + 1;
      }
      AppendPlace();
      return i - mnLookahead;
    }

    // The end of the table always has room.
    lemma AppendPlace()
      requires Valid() && aLookahead != [] && nAction + mxLookahead < |aAction|
      ensures Placeable(nAction)
    {
      assert Free(aAction, aLookahead, nAction);
    }

    lemma PlacedRow(ofst: int)
      requires Valid() && aLookahead != [] && Placeable(ofst)
      ensures forall i :: 0 <= i < |aLookahead| ==> 0 <= aLookahead[i].lookahead + ofst < |aAction|
      ensures var t := Written(aAction, aLookahead, ofst);
              && Embedded(t, Row(ofst, aLookahead))
              && forall r :: 0 <= r < |rows| ==> Embedded(t, rows[r])
    {
      if Present(aAction, aLookahead, ofst) && Embedded(aAction, Row(ofst, aLookahead)) {
        WrittenPresent(aAction, aLookahead, ofst);
      } else {
        FreshRow(aAction, aLookahead, ofst);
        forall r | 0 <= r < |rows|
          ensures Embedded(Written(aAction, aLookahead, ofst), rows[r])
        {
          OldRowKept(aAction, aLookahead, ofst, rows[r]);
        }
      }
    }

    // The final loop: write the pending set and advance nAction past it.
    method WriteAll(ofst: int)
      requires Valid() && aLookahead != []
      requires forall i :: 0 <= i < |aLookahead| ==> 0 <= aLookahead[i].lookahead + ofst < |aAction|
      requires Embedded(Written(aAction, aLookahead, ofst), Row(ofst, aLookahead))
      requires forall r :: 0 <= r < |rows| ==> Embedded(Written(aAction, aLookahead, ofst), rows[r])
      modifies this
      ensures Valid() && aLookahead == []
      ensures rows == old(rows) + [Row(ofst, old(aLookahead))]
    {
      ghost var table := aAction;
      for j := 0 to |aLookahead|
        invariant aLookahead == old(aLookahead) && rows == old(rows)
        invariant |aAction| == |table| && aAction == Written(table, aLookahead[..j], ofst)
        invariant nAction <= |aAction| && forall k :: nAction <= k < |aAction| ==> aAction[k].lookahead < 0
      {
        var k := aLookahead[j].lookahead + ofst;
        assert aLookahead[..j + 1][..j] == aLookahead[..j];
        aAction := aAction[k := aLookahead[j]];
        if k >= nAction {
          nAction := k + 1;
        }
      }
      assert aLookahead[..|aLookahead|] == aLookahead;
      rows := rows + [Row(ofst, aLookahead)];
      aLookahead := [];
    }
  }
}
