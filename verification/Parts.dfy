// A sequence given in parts.

module Parts {
  import opened Texts

  function Concat<T>(parts: seq<seq<T>>): seq<T> {
    if parts == [] then [] else parts[0] + Concat(parts[1..])
  }

  lemma {:induction false} ConcatAppend<T>(a: seq<seq<T>>, b: seq<seq<T>>)
    ensures Concat(a + b) == Concat(a) + Concat(b)
  {
    if a == [] {
      assert a + b == b;
    } else {
      assert (a + b)[1..] == a[1..] + b;
      ConcatAppend(a[1..], b);
    }
  }

  lemma ConcatOne<T>(x: seq<T>)
    ensures Concat([x]) == x
  {
    assert [x][1..] == [];
  }

  lemma {:induction false} ConcatEmpty<T>(parts: seq<seq<T>>)
    requires forall j :: 0 <= j < |parts| ==> parts[j] == []
    ensures Concat(parts) == []
  {
    if parts != [] {
      ConcatEmpty(parts[1..]);
    }
  }

  lemma ConcatNext<T>(parts: seq<seq<T>>, k: nat)
    requires k < |parts|
    ensures Concat(parts[..k + 1]) == Concat(parts[..k]) + parts[k]
  {
    assert parts[..k + 1] == parts[..k] + [parts[k]];
    ConcatAppend(parts[..k], [parts[k]]);
    ConcatOne(parts[k]);
  }

  lemma ThreeParts<T>(parts: seq<T>, k: nat)
    requires k < |parts|
    ensures parts == parts[..k] + ([parts[k]] + parts[k + 1..])
  {
  }

  lemma ConcatAt<T>(parts: seq<seq<T>>, k: nat)
    requires k < |parts|
    ensures Concat(parts) == Concat(parts[..k]) + parts[k] + Concat(parts[k + 1..])
  {
    hide Concat;
    ThreeParts(parts, k);
    ConcatAppend(parts[..k], [parts[k]] + parts[k + 1..]);
    ConcatAppend([parts[k]], parts[k + 1..]);
    ConcatOne(parts[k]);
    Associate(Concat(parts[..k]), parts[k], Concat(parts[k + 1..]));
  }
}
