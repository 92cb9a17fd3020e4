// msort of lemon.c: a bottom-up merge sort of a linked list with LISTSIZE bins.
// cmp is the comparison callback, compared with 0 as in strcmp.

module MergeSort {
  const LISTSIZE: nat := 30

  datatype List<T> = Nil | Cons(head: T, tail: List<T>)

  function Append<T>(a: List<T>, b: List<T>): List<T> {
    match a
    case Nil => b
    case Cons(x, rest) => Cons(x, Append(rest, b))
  }

  function Length<T>(a: List<T>): nat {
    match a
    case Nil => 0
    case Cons(_, rest) => 1 + Length(rest)
  }

  function Elements<T>(a: List<T>): seq<T> {
    match a
    case Nil => []
    case Cons(x, rest) => [x] + Elements(rest)
  }

  ghost predicate Ordering<T(!new)>(cmp: (T, T) -> int) {
    && (forall a, b :: cmp(a, b) < 0 <==> cmp(b, a) > 0)
    && (forall a, b, c :: Chain(cmp, a, b, c) ==> cmp(a, c) <= 0)
  }

  predicate Chain<T>(cmp: (T, T) -> int, a: T, b: T, c: T) {
    cmp(a, b) <= 0 && cmp(b, c) <= 0
  }

  // Every element is at most the next one.
  ghost predicate Sorted<T>(s: List<T>, cmp: (T, T) -> int) {
    s.Cons? && s.tail.Cons? ==> cmp(s.head, s.tail.head) <= 0 && Sorted(s.tail, cmp)
  }

  // The elements of s that compare equal to x, in their order in s.
  function Class<T>(x: T, s: List<T>, cmp: (T, T) -> int): List<T> {
    match s
    case Nil => Nil
    case Cons(y, rest) => if cmp(x, y) == 0 then Cons(y, Class(x, rest, cmp)) else Class(x, rest, cmp)
  }

  // r is sorted, has as many elements as s, and every class of equal elements in the
  // same order.
  ghost predicate StableSortOf<T(!new)>(r: List<T>, s: List<T>, cmp: (T, T) -> int) {
    && Sorted(r, cmp) && Length(r) == Length(s)
    && forall x :: Class(x, r, cmp) == Class(x, s, cmp)
  }

  // ---- what a stable sort is: a permutation, and the only one ----

  lemma {:induction false} ClassCount<T>(x: T, s: List<T>, cmp: (T, T) -> int)
    requires cmp(x, x) == 0
    ensures multiset(Elements(Class(x, s, cmp)))[x] == multiset(Elements(s))[x]
  {
    if s.Cons? {
      ClassCount(x, s.tail, cmp);
    }
  }

  lemma StableSortPermutes<T(!new)>(r: List<T>, s: List<T>, cmp: (T, T) -> int)
    requires Ordering(cmp) && StableSortOf(r, s, cmp)
    ensures multiset(Elements(r)) == multiset(Elements(s))
  {
    forall x
      ensures multiset(Elements(r))[x] == multiset(Elements(s))[x]
    {
      ClassCount(x, r, cmp);
      ClassCount(x, s, cmp);
    }
  }

  // Nothing in a sorted list is below its head.
  lemma {:induction false} HeadIsLeast<T(!new)>(x: T, s: List<T>, cmp: (T, T) -> int)
    requires Ordering(cmp) && Sorted(s, cmp) && s.Cons? && cmp(x, s.head) < 0
    ensures Class(x, s, cmp) == Nil
  {
    if s.tail.Cons? {
      assert cmp(s.tail.head, x) <= 0 ==> Chain(cmp, s.head, s.tail.head, x);
      HeadIsLeast(x, s.tail, cmp);
    }
  }

  lemma {:induction false} StableSortUnique<T(!new)>(r: List<T>, r': List<T>, cmp: (T, T) -> int)
    requires Ordering(cmp) && Sorted(r, cmp) && Sorted(r', cmp)
    requires forall x :: Class(x, r, cmp) == Class(x, r', cmp)
    ensures r == r'
  {
    if r.Nil? || r'.Nil? {
      if r.Cons? || r'.Cons? {
        var x := if r.Cons? then r.head else r'.head;
        var same, c, c' := cmp(x, x), Class(x, r, cmp), Class(x, r', cmp);
      }
    } else {
      var x, y := r.head, r'.head;
      assert cmp(x, x) == 0 && cmp(y, y) == 0;
      assert Class(x, r, cmp) == Class(x, r', cmp) && Class(y, r, cmp) == Class(y, r', cmp);
      if cmp(x, y) < 0 {
        HeadIsLeast(x, r', cmp);
      }
      if cmp(y, x) < 0 {
        HeadIsLeast(y, r, cmp);
      }
      assert Class(x, r', cmp).head == y;
      forall z
        ensures Class(z, r.tail, cmp) == Class(z, r'.tail, cmp)
      {
        assert Class(z, r, cmp) == Class(z, r', cmp);
      }
      StableSortUnique(r.tail, r'.tail, cmp);
    }
  }

  // ---- merge ----

  // What merge returns: on a tie the element of b comes first.
  function Merged<T>(a: List<T>, b: List<T>, cmp: (T, T) -> int): List<T>
  {
    if a.Nil? then b
    else if b.Nil? then a
    else if cmp(a.head, b.head) < 0 then Cons(a.head, Merged(a.tail, b, cmp))
    else Cons(b.head, Merged(a, b.tail, cmp))
  }

  lemma {:induction false} MergedSorted<T(!new)>(a: List<T>, b: List<T>, cmp: (T, T) -> int)
    requires Ordering(cmp) && Sorted(a, cmp) && Sorted(b, cmp)
    ensures Sorted(Merged(a, b, cmp), cmp)
    ensures Length(Merged(a, b, cmp)) == Length(a) + Length(b)
  {
    if a.Cons? && b.Cons? {
      if cmp(a.head, b.head) < 0 {
        MergedSorted(a.tail, b, cmp);
      } else {
        MergedSorted(a, b.tail, cmp);
      }
    }
  }

  lemma {:induction false} AppendNil<T>(a: List<T>)
    ensures Append(a, Nil) == a
  {
    if a.Cons? {
      AppendNil(a.tail);
    }
  }

  lemma {:induction false} AppendAssoc<T>(a: List<T>, b: List<T>, c: List<T>)
    ensures Append(Append(a, b), c) == Append(a, Append(b, c))
  {
    if a.Cons? {
      AppendAssoc(a.tail, b, c);
    }
  }

  // In every class the elements of b stay before those of a.
  lemma {:induction false} MergedClass<T(!new)>(x: T, a: List<T>, b: List<T>, cmp: (T, T) -> int)
    requires Ordering(cmp) && Sorted(a, cmp) && Sorted(b, cmp)
    ensures Class(x, Merged(a, b, cmp), cmp) == Append(Class(x, b, cmp), Class(x, a, cmp))
  {
    if a.Nil? || b.Nil? {
      AppendNil(Class(x, b, cmp));
    } else if cmp(a.head, b.head) < 0 {
      MergedClass(x, a.tail, b, cmp);
      if cmp(x, a.head) == 0 {
        assert cmp(b.head, x) <= 0 ==> Chain(cmp, b.head, x, a.head);
        HeadIsLeast(x, b, cmp);
      }
    } else {
      MergedClass(x, a, b.tail, cmp);
    }
  }

  // The list with the nodes of rev, last node first, before rest.
  function Onto<T>(rev: List<T>, rest: List<T>): List<T> {
    match rev
    case Nil => rest
    case Cons(x, more) => Onto(more, Cons(x, rest))
  }

  // The merge loop; done holds the nodes already linked, the last one (ptr) first.
  method Merge<T>(a: List<T>, b: List<T>, cmp: (T, T) -> int) returns (head: List<T>)
    ensures head == Merged(a, b, cmp)
  {
    var p, q, done := a, b, Nil;
    while p.Cons? && q.Cons?
      invariant Onto(done, Merged(p, q, cmp)) == Merged(a, b, cmp)
      decreases Length(p) + Length(q)
    {
      if cmp(p.head, q.head) < 0 {
        done, p := Cons(p.head, done), p.tail;
      } else {
        done, q := Cons(q.head, done), q.tail;
      }
    }
    head := Onto(done, if p.Cons? then p else q);
  }

  // ---- the bins ----

  ghost function Pow2(n: nat): (p: nat)
    ensures p > 0
  {
    if n == 0 then 1 else 2 * Pow2(n - 1)
  }

  // Bin i holds exactly 2^i sorted elements or none.
  ghost predicate GoodBins<T>(bins: seq<List<T>>, cmp: (T, T) -> int) {
    forall i :: 0 <= i < |bins| ==> (bins[i].Nil? || Length(bins[i]) == Pow2(i)) && Sorted(bins[i], cmp)
  }

  // Higher bins hold earlier elements.
  ghost function BinsClass<T>(x: T, bins: seq<List<T>>, lo: nat, cmp: (T, T) -> int): List<T>
    requires lo <= |bins|
    decreases |bins| - lo
  {
    if lo == |bins| then Nil else Append(BinsClass(x, bins, lo + 1, cmp), Class(x, bins[lo], cmp))
  }

  ghost function Count<T>(bins: seq<List<T>>, lo: nat): nat
    requires lo <= |bins|
    decreases |bins| - lo
  {
    if lo == |bins| then 0 else Count(bins, lo + 1) + Length(bins[lo])
  }

  lemma {:induction false} CountBound<T>(bins: seq<List<T>>, lo: nat, cmp: (T, T) -> int)
    requires lo <= |bins| && GoodBins(bins, cmp)
    ensures Count(bins, lo) + Pow2(lo) <= Pow2(|bins|)
    decreases |bins| - lo
  {
    if lo < |bins| {
      CountBound(bins, lo + 1, cmp);
    }
  }

  // Replacing a bin below lo changes nothing from lo on.
  lemma {:induction false} UpdateBelow<T>(x: T, bins: seq<List<T>>, i: nat, l: List<T>, lo: nat, cmp: (T, T) -> int)
    requires i < lo <= |bins|
    ensures BinsClass(x, bins[i := l], lo, cmp) == BinsClass(x, bins, lo, cmp)
    ensures Count(bins[i := l], lo) == Count(bins, lo)
    decreases |bins| - lo
  {
    if lo < |bins| {
      UpdateBelow(x, bins, i, l, lo + 1, cmp);
    }
  }

  lemma {:induction false} EmptyBelow<T>(x: T, bins: seq<List<T>>, lo: nat, cmp: (T, T) -> int)
    requires lo <= |bins| && forall k :: 0 <= k < lo ==> bins[k].Nil?
    ensures BinsClass(x, bins, 0, cmp) == BinsClass(x, bins, lo, cmp) && Count(bins, 0) == Count(bins, lo)
  {
    if lo > 0 {
      EmptyBelow(x, bins, lo - 1, cmp);
      AppendNil(BinsClass(x, bins, lo, cmp));
    }
  }

  // ---- the loops of msort as functions of the bins ----

  // The carry loop: insert the run ep at bin i. The last bin is overwritten.
  function Carry<T>(bins: seq<List<T>>, ep: List<T>, i: nat, cmp: (T, T) -> int): (r: seq<List<T>>)
    requires i < |bins|
    ensures |r| == |bins|
    decreases |bins| - i
  {
    if i < |bins| - 1 && bins[i].Cons? then Carry(bins[i := Nil], Merged(ep, bins[i], cmp), i + 1, cmp)
    else bins[i := ep]
  }

  // The outer loop on the rest of the list.
  function Filled<T>(bins: seq<List<T>>, list: List<T>, cmp: (T, T) -> int): (r: seq<List<T>>)
    requires |bins| > 0
    ensures |r| == |bins|
    decreases list
  {
    match list
    case Nil => bins
    case Cons(x, rest) => Filled(Carry(bins, Cons(x, Nil), 0, cmp), rest, cmp)
  }

  // The final loop over bins[i..].
  function Folded<T>(ep: List<T>, bins: seq<List<T>>, i: nat, cmp: (T, T) -> int): List<T>
    requires i <= |bins|
    decreases |bins| - i
  {
    if i == |bins| then ep
    else Folded(if bins[i].Cons? then Merged(ep, bins[i], cmp) else ep, bins, i + 1, cmp)
  }

  // The whole algorithm with size bins.
  function Msorted<T>(list: List<T>, size: nat, cmp: (T, T) -> int): List<T>
    requires size > 0
  {
    Folded(Nil, Filled(seq(size, _ => Nil), list, cmp), 0, cmp)
  }

  // The state of the carry loop.
  ghost predicate Carrying<T>(bins: seq<List<T>>, ep: List<T>, i: nat, cmp: (T, T) -> int) {
    && i < |bins| && GoodBins(bins, cmp)
    && Length(ep) == Pow2(i) && Sorted(ep, cmp)
    && forall k :: 0 <= k < i ==> bins[k].Nil?
  }

  lemma CarryStep<T(!new)>(bins: seq<List<T>>, ep: List<T>, i: nat, cmp: (T, T) -> int)
    requires Ordering(cmp) && Carrying(bins, ep, i, cmp) && i < |bins| - 1 && bins[i].Cons?
    ensures Carrying(bins[i := Nil], Merged(ep, bins[i], cmp), i + 1, cmp)
  {
    MergedSorted(ep, bins[i], cmp);
  }

  lemma {:induction false} CarryGood<T(!new)>(bins: seq<List<T>>, ep: List<T>, i: nat, cmp: (T, T) -> int)
    requires Ordering(cmp) && Carrying(bins, ep, i, cmp)
    ensures GoodBins(Carry(bins, ep, i, cmp), cmp)
    decreases |bins| - i
  {
    if i < |bins| - 1 && bins[i].Cons? {
      CarryStep(bins, ep, i, cmp);
      CarryGood(bins[i := Nil], Merged(ep, bins[i], cmp), i + 1, cmp);
    }
  }

  // As long as the bins have room the carry only regroups.
  lemma {:induction false} CarryKeeps<T(!new)>(x: T, bins: seq<List<T>>, ep: List<T>, i: nat, cmp: (T, T) -> int)
    requires Ordering(cmp) && Carrying(bins, ep, i, cmp)
    requires Count(bins, i) + Length(ep) < Pow2(|bins|)
    ensures var r := Carry(bins, ep, i, cmp);
            && BinsClass(x, r, 0, cmp) == Append(BinsClass(x, bins, i, cmp), Class(x, ep, cmp))
            && Count(r, 0) == Count(bins, i) + Length(ep)
    decreases |bins| - i
  {
    if i < |bins| - 1 && bins[i].Cons? {
      var bins', ep' := bins[i := Nil], Merged(ep, bins[i], cmp);
      CarryStep(bins, ep, i, cmp);
      UpdateBelow(x, bins, i, Nil, i + 1, cmp);
      CarryKeeps(x, bins', ep', i + 1, cmp);
      MergedClass(x, ep, bins[i], cmp);
      AppendAssoc(BinsClass(x, bins, i + 1, cmp), Class(x, bins[i], cmp), Class(x, ep, cmp));
    } else {
      assert bins[i].Nil?;
      UpdateBelow(x, bins, i, ep, i + 1, cmp);
      EmptyBelow(x, bins[i := ep], i, cmp);
      AppendNil(BinsClass(x, bins, i + 1, cmp));
    }
  }

  lemma {:induction false} FilledGood<T(!new)>(bins: seq<List<T>>, list: List<T>, cmp: (T, T) -> int)
    requires Ordering(cmp) && |bins| > 0 && GoodBins(bins, cmp)
    ensures GoodBins(Filled(bins, list, cmp), cmp)
    decreases list
  {
    if list.Cons? {
      CarryGood(bins, Cons(list.head, Nil), 0, cmp);
      FilledGood(Carry(bins, Cons(list.head, Nil), 0, cmp), list.tail, cmp);
    }
  }

  lemma {:induction false} FilledKeeps<T(!new)>(x: T, bins: seq<List<T>>, list: List<T>, cmp: (T, T) -> int)
    requires Ordering(cmp) && |bins| > 0 && GoodBins(bins, cmp)
    requires Count(bins, 0) + Length(list) < Pow2(|bins|)
    ensures var r := Filled(bins, list, cmp);
            && BinsClass(x, r, 0, cmp) == Append(BinsClass(x, bins, 0, cmp), Class(x, list, cmp))
            && Count(r, 0) == Count(bins, 0) + Length(list)
    decreases list
  {
    AppendNil(BinsClass(x, bins, 0, cmp));
    if list.Cons? {
      var one := Cons(list.head, Nil);
      CarryGood(bins, one, 0, cmp);
      CarryKeeps(x, bins, one, 0, cmp);
      FilledKeeps(x, Carry(bins, one, 0, cmp), list.tail, cmp);
      AppendAssoc(BinsClass(x, bins, 0, cmp), Class(x, one, cmp), Class(x, list.tail, cmp));
    }
  }

  lemma {:induction false} FoldedSorts<T(!new)>(x: T, ep: List<T>, bins: seq<List<T>>, i: nat, cmp: (T, T) -> int)
    requires Ordering(cmp) && GoodBins(bins, cmp) && i <= |bins| && Sorted(ep, cmp)
    ensures var r := Folded(ep, bins, i, cmp);
            && Sorted(r, cmp) && Length(r) == Count(bins, i) + Length(ep)
            && Class(x, r, cmp) == Append(BinsClass(x, bins, i, cmp), Class(x, ep, cmp))
    decreases |bins| - i
  {
    if i < |bins| {
      var ep' := Merged(ep, bins[i], cmp);
      MergedSorted(ep, bins[i], cmp);
      MergedClass(x, ep, bins[i], cmp);
      AppendAssoc(BinsClass(x, bins, i + 1, cmp), Class(x, bins[i], cmp), Class(x, ep, cmp));
      assert bins[i].Nil? ==> ep' == ep;
      FoldedSorts(x, ep', bins, i + 1, cmp);
    }
  }

  lemma MsortedClass<T(!new)>(x: T, list: List<T>, size: nat, cmp: (T, T) -> int)
    requires Ordering(cmp) && size > 0
    ensures var r := Msorted(list, size, cmp);
            && Sorted(r, cmp) && Length(r) < Pow2(size)
            && (Length(list) < Pow2(size) ==> Length(r) == Length(list) && Class(x, r, cmp) == Class(x, list, cmp))
  {
    var empty := seq(size, _ => Nil);
    var bins := Filled(empty, list, cmp);
    EmptyBelow(x, empty, size, cmp);
    FilledGood(empty, list, cmp);
    CountBound(bins, 0, cmp);
    FoldedSorts(x, Nil, bins, 0, cmp);
    AppendNil(BinsClass(x, bins, 0, cmp));
    if Length(list) < Pow2(size) {
      FilledKeeps(x, empty, list, cmp);
    }
  }

  // The algorithm is a stable sort exactly for the lists shorter than 2^size; longer
  // ones lose elements when the last bin is overwritten.
  lemma MsortedCorrect<T(!new)>(list: List<T>, size: nat, cmp: (T, T) -> int)
    requires Ordering(cmp) && size > 0
    ensures StableSortOf(Msorted(list, size, cmp), list, cmp) <==> Length(list) < Pow2(size)
  {
    var r := Msorted(list, size, cmp);
    if Length(list) < Pow2(size) {
      forall x
        ensures Class(x, r, cmp) == Class(x, list, cmp)
      {
        MsortedClass(x, list, size, cmp);
      }
      if list.Cons? {
        MsortedClass(list.head, list, size, cmp);
      } else {
        EmptyFolded<T>(size, 0, cmp);
      }
    } else {
      assert list.Cons?;
      MsortedClass(list.head, list, size, cmp);
    }
  }

  lemma {:induction false} EmptyFolded<T>(size: nat, i: nat, cmp: (T, T) -> int)
    requires i <= size
    ensures Folded(Nil, seq(size, _ => Nil), i, cmp) == Nil
    decreases size - i
  {
    if i < size {
      EmptyFolded(size, i + 1, cmp);
    }
  }

  lemma ListLimit()
    ensures Pow2(LISTSIZE) == 0x4000_0000
  {
    assert Pow2(10) == 1024;
    assert Pow2(20) == 1024 * 1024;
  }

  // The promise of msort, and its exact limit.
  lemma MsortLimit<T(!new)>(list: List<T>, cmp: (T, T) -> int)
    requires Ordering(cmp)
    ensures StableSortOf(Msorted(list, LISTSIZE, cmp), list, cmp) <==> Length(list) < 0x4000_0000
  {
    ListLimit();
    MsortedCorrect(list, LISTSIZE, cmp);
  }

  // ---- msort itself ----

  // A stable sort, exactly for the lists shorter than 2^30.
  method Msort<T(!new)>(list: List<T>, cmp: (T, T) -> int) returns (ep: List<T>)
    ensures ep == Msorted(list, LISTSIZE, cmp)
    ensures Ordering(cmp) ==> (StableSortOf(ep, list, cmp) <==> Length(list) < 0x4000_0000)
  {
    hide Ordering, StableSortOf, Msorted;
    var size := LISTSIZE;
    ep := MsortBins(list, cmp, size);
    if Ordering(cmp) {
      MsortLimit(list, cmp);
    }
  }

  method MsortBins<T>(list: List<T>, cmp: (T, T) -> int, size: nat) returns (ep: List<T>)
    requires size > 0
    ensures ep == Msorted(list, size, cmp)
  {
    var set_ := new List<T>[size](_ => Nil);
    ghost var empty := seq(size, _ => Nil);
    assert set_[..] == empty;
    var rest := list;
    while rest.Cons?
      invariant Filled(set_[..], rest, cmp) == Filled(empty, list, cmp)
      decreases rest
    {
      ep := Cons(rest.head, Nil);
      ghost var start := Carry(set_[..], ep, 0, cmp);
      rest := rest.tail;
      var i := 0;
      while i < size - 1 && set_[i].Cons?
        invariant i < size
        invariant Carry(set_[..], ep, i, cmp) == start
      {
        ghost var before := set_[..];
        ep := Merge(ep, set_[i], cmp);
        set_[i] := Nil;
        assert set_[..] == before[i := Nil];
        i := i + 1;
      }
      ghost var before := set_[..];
      set_[i] := ep;
      assert set_[..] == before[i := ep] == start;
    }
    ghost var bins := set_[..];
    ep := Nil;
    for i := 0 to size
      invariant set_[..] == bins
      invariant Folded(ep, bins, i, cmp) == Folded(Nil, bins, 0, cmp)
    {
      if set_[i].Cons? {
        ep := Merge(ep, set_[i], cmp);
      }
    }
  }
}
