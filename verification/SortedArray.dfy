// array.c: elements in order of insertion, with a sorted index over their keys for
// binary search. It behaves as a map with case-insensitive keys while elements are
// swapped in place.

module SortedArray {
  import opened Wrappers
  import opened Texts

  // ---- buffer_caseless_compare ----

  function Lower(c: char): char {
    if 'A' <= c <= 'Z' then (c as int + 32) as char else c
  }

  function LowerAll(s: string): (r: string)
    ensures |r| == |s| && forall i :: 0 <= i < |s| ==> r[i] == Lower(s[i])
  {
    if s == "" then "" else [Lower(s[0])] + LowerAll(s[1..])
  }

  // The sign is what counts: lowercase first, shorter first.
  function Compare(a: string, b: string): int {
    if a == "" || b == "" then |a| - |b|
    else if Lower(a[0]) == Lower(b[0]) then Compare(a[1..], b[1..])
    else Lower(a[0]) as int - Lower(b[0]) as int
  }

  predicate SameSign(x: int, y: int) {
    (x == 0 <==> y == 0) && (x < 0 <==> y < 0)
  }

  lemma {:induction false} CompareSkip(a: string, b: string, i: nat)
    requires i <= |a| && i <= |b| && forall k :: 0 <= k < i ==> Lower(a[k]) == Lower(b[k])
    ensures Compare(a, b) == Compare(a[i..], b[i..])
  {
    if i > 0 {
      CompareSkip(a[1..], b[1..], i - 1);
      assert a[1..][i - 1..] == a[i..] && b[1..][i - 1..] == b[i..];
    } else {
      assert a[0..] == a && b[0..] == b;
    }
  }

  method CaselessCompare(a: string, b: string) returns (r: int)
    ensures SameSign(r, Compare(a, b))
  {
    var len := if |a| < |b| then |a| else |b|;
    for i := 0 to len
      invariant forall k :: 0 <= k < i ==> Lower(a[k]) == Lower(b[k])
    {
      var ca, cb := a[i], b[i];
      if ca != cb && Lower(ca) != Lower(cb) {
        CompareSkip(a, b, i);
        return Lower(ca) as int - Lower(cb) as int;
      }
    }
    CompareSkip(a, b, len);
    r := if |a| == |b| then 0 else if |a| < |b| then -1 else 1;
  }

  // A total order on keys up to case.
  lemma {:induction false} CompareZero(a: string, b: string)
    ensures Compare(a, b) == 0 <==> LowerAll(a) == LowerAll(b)
  {
    if a != "" && b != "" {
      CompareZero(a[1..], b[1..]);
      assert LowerAll(a)[1..] == LowerAll(a[1..]) && LowerAll(b)[1..] == LowerAll(b[1..]);
      if Lower(a[0]) != Lower(b[0]) {
        assert LowerAll(a)[0] != LowerAll(b)[0];
      }
    } else {
      assert |LowerAll(a)| == |a| && |LowerAll(b)| == |b|;
    }
  }

  // The two cases of an ASCII letter are 32 apart.
  predicate SameUpToCase(a: string, b: string) {
    && |a| == |b|
    && forall i :: 0 <= i < |a| ==>
         || a[i] == b[i]
         || (65 <= a[i] as int <= 90 && b[i] as int == a[i] as int + 32)
         || (97 <= a[i] as int <= 122 && b[i] as int == a[i] as int - 32)
  }

  // Keys compare equal if and only if they differ in the case of ASCII letters at most.
  lemma {:induction false} CompareMeans(a: string, b: string)
    ensures Compare(a, b) == 0 <==> SameUpToCase(a, b)
  {
    if a != "" && b != "" {
      CompareMeans(a[1..], b[1..]);
      assert SameUpToCase(a, b) ==> SameUpToCase(a[1..], b[1..]);
      if Lower(a[0]) == Lower(b[0]) && SameUpToCase(a[1..], b[1..]) {
        forall i | 1 <= i < |a|
          ensures a[i] == a[1..][i - 1] && b[i] == b[1..][i - 1]
        {
        }
      }
    }
  }

  lemma {:induction false} CompareFlip(a: string, b: string)
    ensures Compare(b, a) == -Compare(a, b)
  {
    if a != "" && b != "" {
      CompareFlip(a[1..], b[1..]);
    }
  }

  lemma {:induction false} CompareTrans(a: string, b: string, c: string)
    ensures Compare(a, b) < 0 && Compare(b, c) <= 0 ==> Compare(a, c) < 0
    ensures Compare(a, b) <= 0 && Compare(b, c) < 0 ==> Compare(a, c) < 0
  {
    if a != "" && b != "" && c != "" {
      CompareTrans(a[1..], b[1..], c[1..]);
    }
  }

  // Keys that differ in case only compare alike.
  lemma {:induction false} CompareCase(a: string, a': string, b: string)
    requires LowerAll(a) == LowerAll(a')
    ensures Compare(a, b) == Compare(a', b) && Compare(b, a) == Compare(b, a')
  {
    assert |a| == |LowerAll(a)| == |a'|;
    if a != "" && b != "" {
      assert LowerAll(a)[0] == Lower(a[0]) && LowerAll(a')[0] == Lower(a'[0]);
      assert LowerAll(a)[1..] == LowerAll(a[1..]) && LowerAll(a')[1..] == LowerAll(a'[1..]);
      CompareCase(a[1..], a'[1..], b[1..]);
    }
  }

  ghost predicate Less(a: string, b: string) {
    Compare(a, b) < 0
  }

  // ---- the index, on the keys alone ----

  // s lists the indices of all keys, by increasing key.
  ghost predicate Indexed(keys: seq<string>, s: seq<int>) {
    && |s| == |keys|
    && (forall k :: 0 <= k < |s| ==> 0 <= s[k] < |keys|)
    && (forall i :: 0 <= i < |keys| ==> i in s)
    && (forall k, l :: 0 <= k < l < |s| && 0 <= s[k] < |keys| && 0 <= s[l] < |keys| ==> Less(keys[s[k]], keys[s[l]]))
  }

  // The entries of the index are distinct, and so are the keys.
  lemma IndexedDistinct(keys: seq<string>, s: seq<int>)
    requires Indexed(keys, s)
    ensures forall k, l :: 0 <= k < l < |s| ==> s[k] != s[l]
    ensures forall i, j :: 0 <= i < j < |keys| ==> Compare(keys[i], keys[j]) != 0
  {
    forall k, l | 0 <= k < l < |s|
      ensures s[k] != s[l]
    {
      assert Less(keys[s[k]], keys[s[l]]);
      CompareFlip(keys[s[k]], keys[s[l]]);
    }
    forall i, j | 0 <= i < j < |keys|
      ensures Compare(keys[i], keys[j]) != 0
    {
      assert i in s && j in s;
      var k :| 0 <= k < |s| && s[k] == i;
      var l :| 0 <= l < |s| && s[l] == j;
      CompareFlip(keys[i], keys[j]);
      if k < l {
        assert Less(keys[s[k]], keys[s[l]]);
      } else {
        assert Less(keys[s[l]], keys[s[k]]);
      }
    }
  }

  // Where a key that is not there belongs.
  ghost predicate Place(keys: seq<string>, s: seq<int>, key: string, pos: nat)
    requires Indexed(keys, s)
  {
    && pos <= |s|
    && (forall k :: 0 <= k < pos ==> Less(keys[s[k]], key))
    && (forall k :: pos <= k < |s| ==> Less(key, keys[s[k]]))
  }

  lemma InsertIndexed(keys: seq<string>, s: seq<int>, key: string, pos: nat)
    requires Indexed(keys, s) && Place(keys, s, key, pos)
    ensures Indexed(keys + [key], s[..pos] + [|keys|] + s[pos..])
  {
    var keys', s' := keys + [key], s[..pos] + [|keys|] + s[pos..];
    forall i | 0 <= i < |keys'|
      ensures i in s'
    {
      if i == |keys| {
        assert s'[pos] == i;
      } else {
        assert i in s;
        var k :| 0 <= k < |s| && s[k] == i;
        assert s'[if k < pos then k else k + 1] == i;
      }
    }
    forall k, l | 0 <= k < l < |s'|
      ensures 0 <= s'[k] < |keys'| && 0 <= s'[l] < |keys'| && Less(keys'[s'[k]], keys'[s'[l]])
    {
      var k', l' := if k < pos then k else k - 1, if l < pos then l else l - 1;
      if k != pos && l != pos {
        assert Less(keys[s[k']], keys[s[l']]);
      }
    }
    assert s'[0] in s';
  }

  // Index k without position pos.
  function Without<T>(s: seq<T>, pos: nat): seq<T>
    requires pos < |s|
  {
    s[..pos] + s[pos + 1..]
  }

  // The keys once the last one has taken the place of key ndx.
  function Swapped<T>(keys: seq<T>, ndx: nat): seq<T>
    requires ndx < |keys|
  {
    keys[ndx := keys[|keys| - 1]][..|keys| - 1]
  }

  // Entry k of the index after an extraction comes from entry Before(k, pos).
  function Before(k: nat, pos: nat): nat {
    if k < pos then k else k + 1
  }

  lemma ExtractEntry(keys: seq<string>, s: seq<int>, ndx: nat, pos: nat, lastPos: nat, k: nat)
    requires Indexed(keys, s) && ndx < |keys| && pos < |s| && s[pos] == ndx && lastPos < |s| && s[lastPos] == |keys| - 1
    requires k < |s| - 1
    ensures var s' := Without(s[lastPos := ndx], pos);
            0 <= s'[k] < |keys| - 1 && Swapped(keys, ndx)[s'[k]] == keys[s[Before(k, pos)]]
  {
    IndexedDistinct(keys, s);
    hide Less;
    var k' := Before(k, pos);
    assert Without(s[lastPos := ndx], pos)[k] == s[lastPos := ndx][k'];
    assert s[k'] != s[pos];
    if k' != lastPos {
      assert s[k'] != s[lastPos];
    }
  }

  lemma ExtractOnto(keys: seq<string>, s: seq<int>, ndx: nat, pos: nat, lastPos: nat, i: nat)
    requires Indexed(keys, s) && ndx < |keys| && pos < |s| && s[pos] == ndx && lastPos < |s| && s[lastPos] == |keys| - 1
    requires i < |keys| - 1
    ensures i in Without(s[lastPos := ndx], pos)
  {
    IndexedDistinct(keys, s);
    hide Less;
    var x := if i == ndx then |keys| - 1 else i;
    assert x in s;
    var k :| 0 <= k < |s| && s[k] == x;
    assert Without(s[lastPos := ndx], pos)[if k < pos then k else k - 1] == s[lastPos := ndx][k] == i;
  }

  lemma ExtractIndexed(keys: seq<string>, s: seq<int>, ndx: nat, pos: nat, lastPos: nat)
    requires Indexed(keys, s) && ndx < |keys| && pos < |s| && s[pos] == ndx && lastPos < |s| && s[lastPos] == |keys| - 1
    ensures Indexed(Swapped(keys, ndx), Without(s[lastPos := ndx], pos))
  {
    var s' := Without(s[lastPos := ndx], pos);
    hide Less;
    forall k | 0 <= k < |s'|
      ensures 0 <= s'[k] < |keys| - 1 && Swapped(keys, ndx)[s'[k]] == keys[s[Before(k, pos)]]
    {
      ExtractEntry(keys, s, ndx, pos, lastPos, k);
    }
    forall i | 0 <= i < |keys| - 1
      ensures i in s'
    {
      ExtractOnto(keys, s, ndx, pos, lastPos, i);
    }
  }

  // ---- the array ----

  type Ptr = nat

  // None is a buffer that was never filled; data_string_reset keeps isIndex.
  datatype Elem = Elem(typ: nat, key: Option<string>, isIndex: bool, value: Option<string>)

  function Text(s: Option<string>): string {
    if s.Some? then s.value else ""
  }

  const TYPE_STRING := 1
  const ARRAY_NOT_FOUND := -1

  type Elems = map<Ptr, Elem>

  // The keys of the first elements of data.
  function Keys(elems: Elems, data: seq<Option<Ptr>>): (keys: seq<string>)
    ensures |keys| == |data|
    ensures forall i :: 0 <= i < |data| ==> keys[i] == KeyOf(elems, data[i])
  {
    seq(|data|, i requires 0 <= i < |data| => KeyOf(elems, data[i]))
  }

  function KeyOf(elems: Elems, p: Option<Ptr>): string {
    if p.Some? && p.value in elems then Text(elems[p.value].key) else ""
  }

  // No element occurs twice, the first used slots are filled.
  ghost predicate Filled(elems: Elems, data: seq<Option<Ptr>>, used: nat) {
    && used <= |data|
    && (forall i :: 0 <= i < used ==> data[i].Some?)
    && (forall i :: 0 <= i < |data| && data[i].Some? ==> data[i].value in elems)
    && (forall i, j :: 0 <= i < j < |data| && data[i].Some? ==> data[i] != data[j])
  }

  // Key, up to case, is mapped to element p by the first used slots.
  ghost predicate MapsIn(elems: Elems, data: seq<Option<Ptr>>, used: nat, key: string, p: Ptr) {
    exists i :: 0 <= i < used && i < |data| && data[i] == Some(p) && Compare(KeyOf(elems, data[i]), key) == 0
  }

  ghost predicate Sound(elems: Elems, data: seq<Option<Ptr>>, sorted: seq<int>, used: nat) {
    Filled(elems, data, used) && |sorted| == |data| && Indexed(Keys(elems, data[..used]), sorted[..used])
  }

  lemma SameKey(a: string, b: string, key: string)
    requires Compare(a, key) == 0
    ensures Compare(b, key) == 0 <==> Compare(a, b) == 0
  {
    CompareZero(a, key);
    CompareZero(b, key);
    CompareZero(a, b);
  }

  // A key has at most one element: the array is a map.
  lemma MapsOnce(elems: Elems, data: seq<Option<Ptr>>, sorted: seq<int>, used: nat, key: string, p: Ptr, q: Ptr)
    requires Sound(elems, data, sorted, used) && MapsIn(elems, data, used, key, p) && MapsIn(elems, data, used, key, q)
    ensures p == q
  {
    var keys := Keys(elems, data[..used]);
    var i :| 0 <= i < used && data[i] == Some(p) && Compare(KeyOf(elems, data[i]), key) == 0;
    var j :| 0 <= j < used && data[j] == Some(q) && Compare(KeyOf(elems, data[j]), key) == 0;
    IndexedDistinct(keys, sorted[..used]);
    SameKey(keys[i], keys[j], key);
    CompareFlip(keys[i], keys[j]);
  }

  // ---- the steps ----

  // Elements outside the first slots may change or go.
  lemma KeysKept(elems: Elems, elems': Elems, data: seq<Option<Ptr>>, used: nat)
    requires used <= |data|
    requires forall i ::
      0 <= i < used && data[i].Some? ==>
        (data[i].value in elems <==> data[i].value in elems')
          && (data[i].value in elems ==> elems'[data[i].value].key == elems[data[i].value].key)
    ensures Keys(elems', data[..used]) == Keys(elems, data[..used])
    ensures forall k: string, p: Ptr :: MapsIn(elems', data, used, k, p) <==> MapsIn(elems, data, used, k, p)
  {
    forall i | 0 <= i < used
      ensures KeyOf(elems', data[i]) == KeyOf(elems, data[i])
    {
    }
  }

  function SortedWith(sorted: seq<int>, used: nat, pos: nat): seq<int>
    requires pos <= used < |sorted|
  {
    sorted[..pos] + [used] + sorted[pos..used] + sorted[used + 1..]
  }

  // A new element in slot used, and its place in the index.
  lemma Inserted(elems: Elems, data: seq<Option<Ptr>>, sorted: seq<int>, used: nat, p: Ptr, pos: nat)
    requires Sound(elems, data, sorted, used) && used < |data| && p in elems && Some(p) !in data
    requires Place(Keys(elems, data[..used]), sorted[..used], KeyOf(elems, Some(p)), pos)
    ensures pos <= used < |sorted| && Sound(elems, data[used := Some(p)], SortedWith(sorted, used, pos), used + 1)
  {
    var data', sorted' := data[used := Some(p)], SortedWith(sorted, used, pos);
    var keys, t := Keys(elems, data[..used]), sorted[..used];
    InsertIndexed(keys, t, KeyOf(elems, Some(p)), pos);
    hide Indexed, Place;
    assert data'[..used + 1] == data[..used] + [Some(p)];
    assert Keys(elems, data'[..used + 1]) == keys + [KeyOf(elems, Some(p))];
    assert sorted'[..used + 1] == t[..pos] + [|keys|] + t[pos..];
    InsertedFilled(elems, data, used, p);
  }

  lemma InsertedFilled(elems: Elems, data: seq<Option<Ptr>>, used: nat, p: Ptr)
    requires Filled(elems, data, used) && used < |data| && p in elems && Some(p) !in data
    ensures Filled(elems, data[used := Some(p)], used + 1)
  {
  }

  lemma MapsInserted(elems: Elems, data: seq<Option<Ptr>>, used: nat, p: Ptr)
    requires used < |data|
    ensures forall k: string, q: Ptr :: MapsIn(elems, data[used := Some(p)], used + 1, k, q) <==>
              MapsIn(elems, data, used, k, q) || (q == p && Compare(KeyOf(elems, Some(p)), k) == 0)
  {
    var data' := data[used := Some(p)];
    forall k: string, q: Ptr | MapsIn(elems, data, used, k, q) || (q == p && Compare(KeyOf(elems, Some(p)), k) == 0)
      ensures MapsIn(elems, data', used + 1, k, q)
    {
      if MapsIn(elems, data, used, k, q) {
        var i :| 0 <= i < used && data[i] == Some(q) && Compare(KeyOf(elems, data[i]), k) == 0;
        assert data'[i] == Some(q);
      } else {
        assert data'[used] == Some(q);
      }
    }
  }

  // The element in slot ndx goes, the last one takes its slot.
  lemma Extracted(elems: Elems, data: seq<Option<Ptr>>, sorted: seq<int>, used: nat, ndx: nat, pos: nat, lastPos: nat)
    requires Sound(elems, data, sorted, used) && ndx < used && pos < used && sorted[pos] == ndx && lastPos < used
      && sorted[lastPos] == used - 1
    ensures var data' := data[ndx := data[used - 1]][used - 1 := None];
            var t := sorted[lastPos := ndx];
            var sorted' := t[..pos] + t[pos + 1..used] + [ARRAY_NOT_FOUND] + t[used..];
            && Sound(elems, data', sorted', used - 1)
            && forall k: string, q: Ptr ::
              MapsIn(elems, data', used - 1, k, q) <==> MapsIn(elems, data, used, k, q) && Some(q) != data[ndx]
  {
    var data' := data[ndx := data[used - 1]][used - 1 := None];
    var t := sorted[lastPos := ndx];
    var sorted' := t[..pos] + t[pos + 1..used] + [ARRAY_NOT_FOUND] + t[used..];
    var keys, u := Keys(elems, data[..used]), sorted[..used];
    ExtractIndexed(keys, u, ndx, pos, lastPos);
    assert data'[..used - 1] == Swapped(data[..used], ndx);
    assert Keys(elems, data'[..used - 1]) == Swapped(keys, ndx);
    assert sorted'[..used - 1] == Without(u[lastPos := ndx], pos);
    SwappedFilled(elems, data, used, ndx);
    MapsExtracted(elems, data, used, ndx);
  }

  lemma SwappedFilled(elems: Elems, data: seq<Option<Ptr>>, used: nat, ndx: nat)
    requires Filled(elems, data, used) && ndx < used
    ensures Filled(elems, data[ndx := data[used - 1]][used - 1 := None], used - 1)
  {
  }

  lemma MapsExtracted(elems: Elems, data: seq<Option<Ptr>>, used: nat, ndx: nat)
    requires Filled(elems, data, used) && ndx < used
    ensures forall k: string, q: Ptr ::
      MapsIn(elems, data[ndx := data[used - 1]][used - 1 := None], used - 1, k, q) <==>
              MapsIn(elems, data, used, k, q) && Some(q) != data[ndx]
  {
    var data' := data[ndx := data[used - 1]][used - 1 := None];
    forall k: string, q: Ptr | MapsIn(elems, data', used - 1, k, q)
      ensures MapsIn(elems, data, used, k, q) && Some(q) != data[ndx]
    {
      var i :| 0 <= i < used - 1 && data'[i] == Some(q) && Compare(KeyOf(elems, data'[i]), k) == 0;
      assert data[if i == ndx then used - 1 else i] == Some(q);
    }
    forall k: string, q: Ptr | MapsIn(elems, data, used, k, q) && Some(q) != data[ndx]
      ensures MapsIn(elems, data', used - 1, k, q)
    {
      var i :| 0 <= i < used && data[i] == Some(q) && Compare(KeyOf(elems, data[i]), k) == 0;
      assert data'[if i == used - 1 then ndx else i] == Some(q);
    }
  }

  class Array {
    var elems: Elems                // the elements in memory
    var data: seq<Option<Ptr>>
    var sorted: seq<int>
    var used: nat
    var uniqueNdx: nat

    ghost predicate Valid()
      reads this
    {
      Sound(elems, data, sorted, used)
    }

    // The array maps key, up to case, to element p.
    ghost predicate Maps(key: string, p: Ptr)
      reads this
    {
      MapsIn(elems, data, used, key, p)
    }

    constructor ()
      ensures Valid() && used == 0 && elems == map[] && data == [] && uniqueNdx == 0
    {
      elems, data, sorted, used, uniqueNdx := map[], [], [], 0, 0;
    }

    // array_get_index: the binary search finds what a linear search would, or the place
    // where the key belongs.
    method GetIndex(key: string) returns (ndx: int, rndx: nat)
      requires Valid()
      ensures ndx == ARRAY_NOT_FOUND || 0 <= ndx < used
      ensures ndx >= 0 ==> rndx < used && sorted[rndx] == ndx && Compare(KeyOf(elems, data[ndx]), key) == 0
      ensures ndx == ARRAY_NOT_FOUND ==> forall i :: 0 <= i < used ==> Compare(KeyOf(elems, data[i]), key) != 0
      ensures ndx == ARRAY_NOT_FOUND ==> forall q: Ptr :: !Maps(key, q)
      ensures ndx == ARRAY_NOT_FOUND ==> Place(Keys(elems, data[..used]), sorted[..used], key, rndx)
    {
      ghost var keys, s := Keys(elems, data[..used]), sorted[..used];
      var lower, upper := 0, used;
      while lower != upper
        invariant 0 <= lower <= upper <= used
        invariant forall k :: 0 <= k < lower ==> Less(keys[s[k]], key)
        invariant forall k :: upper <= k < used ==> Less(key, keys[s[k]])
        decreases upper - lower
      {
        var probe := (lower + upper) / 2;
        assert s[probe] == sorted[probe];
        var other := KeyOf(elems, data[sorted[probe]]);
        assert keys[s[probe]] == other;
        var cmp := CaselessCompare(key, other);
        CompareFlip(key, other);
        if cmp == 0 {
          return sorted[probe], probe;
        } else if cmp < 0 {
          Above(keys, s, key, probe);
          upper := probe;
        } else {
          BelowProbe(keys, s, key, probe);
          lower := probe + 1;
        }
      }
      NotThere(keys, s, key, lower);
      return ARRAY_NOT_FOUND, lower;
    }

    lemma Above(keys: seq<string>, s: seq<int>, key: string, probe: nat)
      requires Indexed(keys, s) && probe < |s| && Less(key, keys[s[probe]])
      ensures forall k :: probe <= k < |s| ==> Less(key, keys[s[k]])
    {
      forall k | probe < k < |s|
        ensures Less(key, keys[s[k]])
      {
        assert Less(keys[s[probe]], keys[s[k]]);
        CompareTrans(key, keys[s[probe]], keys[s[k]]);
      }
    }

    lemma BelowProbe(keys: seq<string>, s: seq<int>, key: string, probe: nat)
      requires Indexed(keys, s) && probe < |s| && Less(keys[s[probe]], key)
      ensures forall k :: 0 <= k <= probe ==> Less(keys[s[k]], key)
    {
      forall k | 0 <= k < probe
        ensures Less(keys[s[k]], key)
      {
        assert Less(keys[s[k]], keys[s[probe]]);
        CompareTrans(keys[s[k]], keys[s[probe]], key);
      }
    }

    lemma NotThere(keys: seq<string>, s: seq<int>, key: string, pos: nat)
      requires Indexed(keys, s) && Place(keys, s, key, pos)
      ensures forall i :: 0 <= i < |keys| ==> Compare(keys[i], key) != 0
    {
      forall i | 0 <= i < |keys|
        ensures Compare(keys[i], key) != 0
      {
        assert i in s;
        var k :| 0 <= k < |s| && s[k] == i;
        CompareFlip(key, keys[i]);
        assert if k < pos then Less(keys[s[k]], key) else Less(key, keys[s[k]]);
      }
    }

    // p is the element whose key differs from the asked one at most in the case of letters.
    ghost predicate FoundUpToCase(key: string, p: Option<Ptr>)
      reads this
    {
      && (p.Some? ==> exists i :: 0 <= i < used && i < |data| && data[i] == p)
      && forall i :: 0 <= i < used && i < |data| ==>
           && data[i].Some? && data[i].value in elems
           && (p == data[i] <==> SameUpToCase(Text(elems[data[i].value].key), key))
    }

    lemma GetMeans(key: string)
      requires Valid()
      ensures forall p: Option<Ptr> :: (forall q: Ptr :: Maps(key, q) <==> p == Some(q)) ==> FoundUpToCase(key, p)
    {
      forall i | 0 <= i < used
        ensures data[i].Some? && data[i].value in elems
        ensures Maps(key, data[i].value) <==> SameUpToCase(Text(elems[data[i].value].key), key)
      {
        CompareMeans(Text(elems[data[i].value].key), key);
      }
    }

    // array_get_element
    method GetElement(key: string) returns (p: Option<Ptr>)
      requires Valid()
      ensures forall q: Ptr :: Maps(key, q) <==> p == Some(q)
      ensures FoundUpToCase(key, p)
    {
      GetMeans(key);
      var ndx, pos := GetIndex(key);
      if ndx != ARRAY_NOT_FOUND {
        p := data[ndx];
        assert Maps(key, p.value);
        forall q: Ptr | Maps(key, q)
          ensures p == Some(q)
        {
          MapsOnce(elems, data, sorted, used, key, p.value, q);
        }
      } else {
        p := None;
      }
    }

    // array_extract_element
    method ExtractElement(key: string) returns (p: Option<Ptr>)
      requires Valid()
      modifies this`data, this`sorted, this`used
      ensures Valid() && forall q: Ptr :: old(Maps(key, q)) <==> p == Some(q)
      ensures forall k: string, q: Ptr :: Maps(k, q) <==> old(Maps(k, q)) && p != Some(q)
      ensures p.Some? ==> p !in data
    {
      hide Indexed, Keys, Place, Compare, FoundUpToCase;
      p := GetElement(key);
      var ndx, pos := GetIndex(key);
      if ndx != ARRAY_NOT_FOUND {
        assert Maps(key, data[ndx].value);
        var last := used - 1;
        ghost var lastPos;
        ghost var data0, sorted0 := data, sorted;
        if ndx != last {
          var found, lastElemPos := GetIndex(KeyOf(elems, data[last]));
          LastFound(found);
          assert found == last;   // force_assert
          data := data[ndx := data[last]][last := None];
          sorted := sorted[lastElemPos := ndx];
          lastPos := lastElemPos;
        } else {
          data := data[ndx := None];
          lastPos := pos;
          assert sorted[lastPos := ndx] == sorted;
          assert data == data0[ndx := data0[last]][last := None];
        }
        sorted := sorted[..pos] + sorted[pos + 1..used] + [ARRAY_NOT_FOUND] + sorted[used..];
        used := used - 1;
        Extracted(elems, data0, sorted0, used + 1, ndx, pos, lastPos);
      }
    }

    // The last element is found where it is.
    lemma LastFound(found: int)
      requires Valid() && used > 0
      requires found == ARRAY_NOT_FOUND || 0 <= found < used
      requires found >= 0 ==> Compare(KeyOf(elems, data[found]), KeyOf(elems, data[used - 1])) == 0
      requires found == ARRAY_NOT_FOUND ==> forall i ::
        0 <= i < used ==> Compare(KeyOf(elems, data[i]), KeyOf(elems, data[used - 1])) != 0
      ensures found == used - 1
    {
      var keys := Keys(elems, data[..used]);
      CompareZero(keys[used - 1], keys[used - 1]);
      IndexedDistinct(keys, sorted[..used]);
      forall i | 0 <= i < used - 1
        ensures Compare(KeyOf(elems, data[i]), KeyOf(elems, data[used - 1])) != 0
      {
        assert Compare(keys[i], keys[used - 1]) != 0;
      }
    }

    // array_get_unused_element: an element behind the used ones leaves the array.
    method GetUnusedElement(t: nat) returns (p: Option<Ptr>)
      requires Valid()
      modifies this`data
      ensures Valid() && forall k: string, q: Ptr :: Maps(k, q) <==> old(Maps(k, q))
      ensures p.Some? ==> p.value in elems && elems[p.value].typ == t && p !in data
      ensures p.Some? ==> exists i: nat :: FirstOfType(elems, old(data), used, t, i) && old(data)[i] == p
      ensures p.None? ==> data == old(data) && forall i: nat :: used <= i < |data| ==> !OfType(elems, data, t, i)
      ensures data[..used] == old(data[..used]) && |data| == old(|data|)
    {
      for i := used to |data|
        invariant data == old(data)
        invariant forall j: nat :: used <= j < i ==> !OfType(elems, data, t, j)
      {
        if data[i].Some? && elems[data[i].value].typ == t {
          p := data[i];
          assert FirstOfType(elems, data, used, t, i);
          data := data[i := data[used]];
          data := data[used := None];
          assert data[..used] == old(data)[..used];
          assert forall j :: 0 <= j < used ==> data[j] == old(data)[j];
          return;
        }
      }
      p := None;
    }

    // The element can be put in: it is there, and not in the array already.
    ghost predicate Loose(p: Ptr)
      reads this
    {
      p in elems && Some(p) !in data
    }

    // Nothing but entry has come into the slots, used or not.
    ghost predicate Within(before: seq<Option<Ptr>>, entry: Ptr)
      reads this
    {
      forall q: Ptr :: Some(q) in data ==> Some(q) in before || q == entry
    }

    // Room for one more element behind the used ones; whatever lies there is freed.
    method MakeRoom(ghost entry: Ptr)
      requires Valid() && Loose(entry)
      modifies this`elems, this`data, this`sorted
      ensures Valid() && Loose(entry) && used < |data| && data[..used] == old(data[..used])
        && sorted[..used] == old(sorted[..used])
      ensures forall k: string, q: Ptr :: Maps(k, q) <==> old(Maps(k, q))
      ensures forall q: Ptr :: q in elems ==> q in old(elems) && elems[q] == old(elems[q])
      ensures forall i :: 0 <= i < used ==> data[i].Some? && data[i].value in elems
      ensures Keys(elems, data[..used]) == old(Keys(elems, data[..used]))
      ensures Within(old(data), entry)
    {
      ghost var d, s := data[..used], sorted[..used];
      if |data| == 0 {
        data, sorted := seq(16, _ => None), seq(16, _ => ARRAY_NOT_FOUND);
      } else if |data| == used {
        data, sorted := data + seq(16, _ => None), sorted + seq(16, _ => ARRAY_NOT_FOUND);
      }
      assert data[..used] == d && sorted[..used] == s;
      if data[used].Some? {
        ghost var elems0 := elems;
        elems := elems - {data[used].value};
        KeysKept(elems0, elems, data, used);
        data := data[used := None];
        assert data[..used] == d;
      }
    }

    // The generated key of an element without a key of its own.
    method NameEntry(entry: Ptr)
      requires Valid() && Loose(entry)
      modifies this`elems, this`uniqueNdx
      ensures Valid() && Loose(entry) && elems == old(elems)[entry := Named(old(elems[entry]), old(uniqueNdx))]
      ensures uniqueNdx == old(uniqueNdx) + if Numbered(old(elems[entry])) then 1 else 0
      ensures forall k: string, q: Ptr :: Maps(k, q) <==> old(Maps(k, q))
    {
      hide Indexed;
      ghost var elems0 := elems;
      if Numbered(elems[entry]) {
        elems := elems[entry := elems[entry].(key := Some(Decimal(uniqueNdx)), isIndex := true)];
        uniqueNdx := uniqueNdx + 1;
      }
      assert forall i :: 0 <= i < used ==> data[i] != Some(entry);
      KeysKept(elems0, elems, data, used);
    }

    // The element goes into the slot behind the used ones, and into the index at pos.
    method InsertAt(entry: Ptr, pos: nat)
      requires Valid() && Loose(entry) && Place(Keys(elems, data[..used]), sorted[..used], Text(elems[entry].key), pos)
      modifies this`elems, this`data, this`sorted, this`used
      ensures Valid() && entry in elems && elems[entry] == old(elems[entry]) && used == old(used) + 1
      ensures forall q: Ptr :: q in elems ==> q in old(elems) && elems[q] == old(elems[q])
      ensures used <= |data| && data[..used] == old(data[..used]) + [Some(entry)]
      ensures forall i :: 0 <= i < old(used) ==> data[i].Some? && data[i].value in elems
      ensures forall k: string, q: Ptr ::
        Maps(k, q) <==> old(Maps(k, q)) || (q == entry && Compare(Text(elems[entry].key), k) == 0)
      ensures Within(old(data), entry)
    {
      hide Indexed;
      MakeRoom(entry);
      Inserted(elems, data, sorted, used, entry, pos);
      MapsInserted(elems, data, used, entry);
      ghost var data0 := data;
      data := data[used := Some(entry)];
      assert data[..used + 1] == data0[..used] + [Some(entry)];
      sorted := SortedWith(sorted, used, pos);   // memmove
      used := used + 1;
    }

    // array_find_or_insert: the slot of the element that has the key already, or None
    // and the element is in. An empty or index key is replaced by the next number.
    method FindOrInsert(entry: Ptr) returns (slot: Option<nat>)
      requires Valid() && Loose(entry)
      modifies this
      ensures Valid() && entry in elems
      ensures elems[entry] == Named(old(elems[entry]), old(uniqueNdx))
        && uniqueNdx == old(uniqueNdx) + if Numbered(old(elems[entry])) then 1 else 0
      ensures forall q: Ptr :: q in elems && q != entry ==> q in old(elems) && elems[q] == old(elems[q])
      ensures old(used) <= used <= |data| && data[..old(used)] == old(data[..used])
      ensures forall i :: 0 <= i < old(used) ==> data[i].Some? && data[i].value in elems
      ensures slot.Some? ==>
        slot.value < used == old(used) && data == old(data)
          && Compare(KeyOf(elems, data[slot.value]), Text(elems[entry].key)) == 0
      ensures slot.Some? ==> Loose(entry) && forall k: string, q: Ptr :: Maps(k, q) <==> old(Maps(k, q))
      ensures slot.None? ==> forall q: Ptr :: !old(Maps(Text(Named(elems[entry], uniqueNdx).key), q))
      ensures slot.None? ==> used == old(used) + 1 && data[..used] == old(data[..used]) + [Some(entry)]
      ensures slot.None? ==> forall k: string, q: Ptr ::
        Maps(k, q) <==> old(Maps(k, q)) || (q == entry && Compare(Text(elems[entry].key), k) == 0)
      ensures Within(old(data), entry)
    {
      hide Indexed, MapsIn;
      NameEntry(entry);
      ghost var key := Text(elems[entry].key);
      var ndx, pos := GetIndex(Text(elems[entry].key));
      forall q: Ptr | ndx == ARRAY_NOT_FOUND
        ensures !old(Maps(key, q))
      {
        assert !Maps(key, q);
      }
      if ndx != ARRAY_NOT_FOUND {
        return Some(ndx);
      }
      InsertAt(entry, pos);
      assert data[..used][..used - 1] == data[..used - 1];
      return None;
    }

    // array_replace: afterwards the key of the element leads to it.
    method Replace(entry: Ptr)
      requires Valid() && Loose(entry)
      modifies this
      ensures Valid() && entry in elems && elems[entry] == Named(old(elems[entry]), old(uniqueNdx))
      ensures forall k: string, q: Ptr :: Maps(k, q) <==>
                if Compare(Text(elems[entry].key), k) == 0 then q == entry else old(Maps(k, q))
    {
      hide Indexed;
      var slot := FindOrInsert(entry);
      ghost var elems1, data1 := elems, data;
      if slot.Some? {
        Replaced(elems, data, sorted, used, slot.value, entry);
        elems := elems - {data[slot.value].value};
        data := data[slot.value := Some(entry)];
      } else {
        CompareZero(Text(elems[entry].key), Text(elems[entry].key));
        assert Maps(Text(elems[entry].key), entry);
        OnlyNew(elems, data, sorted, used, entry);
      }
    }

    // The new element is the only one for its key.
    lemma OnlyNew(elems: Elems, data: seq<Option<Ptr>>, sorted: seq<int>, used: nat, entry: Ptr)
      requires Sound(elems, data, sorted, used) && entry in elems
        && MapsIn(elems, data, used, Text(elems[entry].key), entry)
      ensures forall k: string, q: Ptr ::
        Compare(Text(elems[entry].key), k) == 0 && MapsIn(elems, data, used, k, q) ==> q == entry
    {
      var key := Text(elems[entry].key);
      forall k: string, q: Ptr | Compare(key, k) == 0 && MapsIn(elems, data, used, k, q)
        ensures q == entry
      {
        var i :| 0 <= i < used && data[i] == Some(q) && Compare(KeyOf(elems, data[i]), k) == 0;
        SameKey(KeyOf(elems, data[i]), key, k);
        assert MapsIn(elems, data, used, key, q);
        MapsOnce(elems, data, sorted, used, key, entry, q);
      }
    }

    // All elements are strings, whose insert_dup appends to the value.
    ghost predicate Strings()
      reads this
    {
      forall i ::
        0 <= i < used && i < |data| && data[i].Some? && data[i].value in elems ==>
          elems[data[i].value].typ == TYPE_STRING
    }

    // array_insert_unique, on strings: a second value for a key is appended to the first.
    method InsertUnique(entry: Ptr)
      requires Valid() && Loose(entry) && Strings() && elems[entry].typ == TYPE_STRING
      modifies this
      ensures Valid() && Strings()
      ensures var e := Named(old(elems[entry]), old(uniqueNdx));
              if exists p: Ptr :: old(Maps(Text(e.key), p)) then
                && (forall k: string, q: Ptr :: Maps(k, q) <==> old(Maps(k, q)))
                && (forall p: Ptr ::
                  Maps(Text(e.key), p) ==> p in old(elems) && p in elems && elems[p] == Dup(old(elems[p]), e))
                && entry !in elems
              else
                && (forall k: string, q: Ptr ::
                  Maps(k, q) <==> old(Maps(k, q)) || (q == entry && Compare(Text(e.key), k) == 0))
                && entry in elems && elems[entry] == e
      ensures Within(old(data), entry) && forall q: Ptr :: q in elems ==> q in old(elems)
    {
      hide Indexed, MapsIn;
      ghost var e := Named(elems[entry], uniqueNdx);
      var slot := FindOrInsert(entry);
      if slot.Some? {
        SlotMaps(slot.value, Text(e.key));
        var dst := data[slot.value].value;
        ghost var elems1 := elems;
        assert forall i :: 0 <= i < used ==> data[i] != Some(entry);
        elems := elems[dst := Dup(elems[dst], elems[entry])] - {entry};
        KeysKept(elems1, elems, data, used);
        StillFilled(elems1, elems, data, used, entry);
        forall i | 0 <= i < used
          ensures data[i].Some? && data[i].value in elems && elems[data[i].value].typ == TYPE_STRING
        {
          assert data[i].value != entry && data[i] == old(data[i]);
          var q := data[i].value;
          assert q in elems1 && q in old(elems) && elems1[q] == old(elems)[q] && old(elems)[q].typ == TYPE_STRING;
        }
        forall p: Ptr | Maps(Text(e.key), p)
          ensures p == dst
        {
          MapsOnce(elems, data, sorted, used, Text(e.key), p, dst);
        }
      } else {
        forall i | 0 <= i < used
          ensures data[i] == if i < used - 1 then old(data)[i] else Some(entry)
        {
          assert data[..used][i] == data[i];
        }
      }
    }

    // A new element that is not in the array yet.
    method AddLoose(p: Ptr, e: Elem)
      requires Valid() && Strings() && p !in elems
      modifies this`elems
      ensures Valid() && Strings() && Loose(p) && elems == old(elems)[p := e]
      ensures forall k: string, q: Ptr :: Maps(k, q) <==> old(Maps(k, q))
    {
      hide Indexed, MapsIn;
      ghost var elems0 := elems;
      elems := elems[p := e];
      assert forall i :: 0 <= i < |data| && data[i].Some? ==> data[i].value in elems0;
      KeysKept(elems0, elems, data, used);
    }

    lemma SlotMaps(i: nat, key: string)
      requires Valid() && i < used && Compare(KeyOf(elems, data[i]), key) == 0
      ensures data[i].Some? && Maps(key, data[i].value)
    {
    }

    lemma StillFilled(elems: Elems, elems': Elems, data: seq<Option<Ptr>>, used: nat, p: Ptr)
      requires Filled(elems, data, used) && Some(p) !in data && forall q: Ptr :: q in elems && q != p ==> q in elems'
      ensures Filled(elems', data, used)
    {
      assert forall i :: 0 <= i < |data| ==> data[i] in data;
    }

    // array_reset: the elements stay behind, without key and value, but with the mark of
    // a generated key.
    method Reset()
      requires Valid()
      modifies this
      ensures Valid() && used == 0 && uniqueNdx == 0 && data == old(data) && forall k: string, q: Ptr :: !Maps(k, q)
      ensures forall q: Ptr :: q in elems <==> q in old(elems)
      ensures forall q: Ptr :: q in elems ==>
                elems[q] == if Some(q) in old(data[..used]) then old(elems[q]).(key := None, value := None)
                            else old(elems[q])
    {
      assert forall j :: 0 <= j < used ==> Some(data[j].value) in data[..used];
      for i := 0 to used
        invariant used == old(used) && data == old(data) && sorted == old(sorted)
        invariant forall q: Ptr :: q in elems <==> q in old(elems)
        invariant forall q: Ptr ::
          q in elems ==> elems[q] == if Some(q) in data[..i] then Cleared(old(elems[q])) else old(elems[q])
      {
        assert data[..i + 1] == data[..i] + [data[i]];
        assert data[i] !in data[..i];
        elems := elems[data[i].value := Cleared(elems[data[i].value])];
      }
      used, uniqueNdx := 0, 0;
    }

    // The value of the element that has the key already.
    method SetValue(p: Ptr, value: string)
      requires Valid() && Strings() && p in elems
      modifies this`elems
      ensures Valid() && Strings() && p in elems && elems[p].value == Some(value)
      ensures forall k: string, q: Ptr :: Maps(k, q) <==> old(Maps(k, q))
    {
      hide Indexed, MapsIn;
      ghost var elems0 := elems;
      elems := elems[p := elems[p].(value := Some(value))];
      KeysKept(elems0, elems, data, used);
    }

    lemma MappedIn(key: string, p: Ptr)
      requires Valid() && Maps(key, p)
      ensures p in elems
    {
    }

    // The key leads to an element with the value.
    ghost predicate Stored(key: string, value: string)
      reads this
    {
      exists p: Ptr :: Maps(key, p) && p in elems && elems[p].value == Some(value)
    }

    // array_set_key_value, for strings; spare is the memory of a new element. The pair is
    // stored under the key, except when the element it reuses once had a generated key:
    // then it ends up under the next number instead, unless that is the key.
    method SetKeyValue(key: string, value: string, spare: Ptr) returns (ghost indexed: bool)
      requires Valid() && Strings() && spare !in elems && forall i :: 0 <= i < |data| ==> data[i] != Some(spare)
      modifies this
      ensures Valid() && Strings()
      ensures indexed <==> (forall q: Ptr :: !old(Maps(key, q))) && ReusesIndexed(old(elems), old(data), old(used))
      ensures Stored(key, value) <==> !indexed || Compare(Decimal(old(uniqueNdx)), key) == 0
      ensures !Stored(key, value) ==> forall q: Ptr :: !Maps(key, q)
      ensures forall k: string, q: Ptr :: Compare(if indexed then Decimal(old(uniqueNdx)) else key, k) != 0 ==>
                (Maps(k, q) <==> old(Maps(k, q)))
    {
      hide Indexed, MapsIn, Filled, FoundUpToCase;
      indexed := false;
      var p := GetElement(key);
      if p.Some? {
        MappedIn(key, p.value);
        assert Maps(key, p.value);
        SetValue(p.value, value);
        assert Maps(key, p.value) && p.value in elems && elems[p.value].value == Some(value);
        return;
      }
      forall q: Ptr
        ensures !old(Maps(key, q))
      {
        assert Maps(key, q) <==> p == Some(q);
      }
      var ds := GetUnusedElement(TYPE_STRING);
      var entry := if ds.Some? then ds.value else spare;
      OneFirst(old(elems), old(data), old(used), ds);
      indexed := ReusesIndexed(old(elems), old(data), old(used));
      Store(entry, key, value, indexed);
    }

    lemma UsedSlot(key: string, p: Ptr)
      requires Valid() && Maps(key, p)
      ensures Some(p) in data[..used]
    {
      MapsUsed(elems, data, used, key, p);
    }

    lemma Behind(p: Ptr)
      requires Valid() && used == 0 && Some(p) in data[..]
      ensures Filled(elems, data, used)
    {
    }

    // Key and value are put into the element, and it into the array.
    method Store(entry: Ptr, key: string, value: string, ghost indexed: bool)
      requires Valid() && Strings() && Some(entry) !in data && (forall q: Ptr :: !Maps(key, q))
      requires if entry in elems then elems[entry].typ == TYPE_STRING && elems[entry].isIndex == indexed else !indexed
      modifies this
      ensures Valid() && Strings()
      ensures Stored(key, value) <==> !indexed || Compare(Decimal(old(uniqueNdx)), key) == 0
      ensures !Stored(key, value) ==> forall q: Ptr :: !Maps(key, q)
      ensures forall k: string, q: Ptr :: Compare(if indexed then Decimal(old(uniqueNdx)) else key, k) != 0 ==>
                (Maps(k, q) <==> old(Maps(k, q)))
    {
      hide Indexed, MapsIn;
      ghost var elems0 := elems;
      var e := if entry in elems then elems[entry] else Elem(TYPE_STRING, None, false, None);
      elems := elems[entry := e.(key := Some(key), value := Some(value))];
      assert forall i :: 0 <= i < |data| ==> data[i] != Some(entry);
      KeysKept(elems0, elems, data, used);
      ghost var name := Text(Named(elems[entry], uniqueNdx).key);
      assert name == if indexed then Decimal(uniqueNdx) else key;
      assert forall k: string, q: Ptr :: Maps(k, q) <==> old(Maps(k, q));
      CompareZero(key, key);
      if Compare(name, key) == 0 {
        forall q: Ptr
          ensures !Maps(name, q)
        {
          assert !old(Maps(key, q));
          MapsAlike(elems, data, used, name, key, q);
        }
      }
      InsertUnique(entry);
      forall k: string, q: Ptr | Compare(name, k) != 0
        ensures Maps(k, q) <==> old(Maps(k, q))
      {
      }
      if Compare(name, key) == 0 {
        assert Maps(key, entry) && entry in elems && elems[entry].value == Some(value);
      } else {
        assert forall q: Ptr :: !Maps(key, q);
      }
    }
  }

  // Keys that compare alike lead to the same element.
  lemma MapsAlike(elems: Elems, data: seq<Option<Ptr>>, used: nat, a: string, b: string, p: Ptr)
    requires Compare(a, b) == 0
    ensures MapsIn(elems, data, used, a, p) <==> MapsIn(elems, data, used, b, p)
  {
    CompareZero(a, b);
    forall i | 0 <= i < used && i < |data|
      ensures Compare(KeyOf(elems, data[i]), a) == 0 <==> Compare(KeyOf(elems, data[i]), b) == 0
    {
      CompareZero(KeyOf(elems, data[i]), a);
      CompareZero(KeyOf(elems, data[i]), b);
    }
  }

  lemma EmptySound(elems: Elems)
    ensures Sound(elems, [], [], 0)
  {
  }

  lemma MapsUsed(elems: Elems, data: seq<Option<Ptr>>, used: nat, key: string, p: Ptr)
    requires used <= |data| && MapsIn(elems, data, used, key, p)
    ensures Some(p) in data[..used]
  {
    var i :| 0 <= i < used && data[i] == Some(p) && Compare(KeyOf(elems, data[i]), key) == 0;
    assert data[..used][i] == Some(p);
  }

  // The only element behind the used ones is the first one.
  lemma OnlyReused(elems: Elems, data: seq<Option<Ptr>>, used: nat, p: Ptr)
    requires Filled(elems, data, used) && used == 0 && Some(p) in data && (forall q: Ptr :: Some(q) in data ==> q == p)
    requires p in elems && elems[p].typ == TYPE_STRING && elems[p].isIndex
    ensures ReusesIndexed(elems, data, used)
  {
    var i: nat :| i < |data| && data[i] == Some(p);
    forall j: nat | j < i
      ensures !OfType(elems, data, TYPE_STRING, j)
    {
      assert data[j] in data;
    }
    assert FirstOfType(elems, data, used, TYPE_STRING, i);
  }

  // An element that had no key is put into a new array, which is reset.
  method ResetNumbered(value: string) returns (a: Array)
    ensures fresh(a) && a.Valid() && a.Strings() && a.used == 0 && a.uniqueNdx == 0
      && (forall k: string, q: Ptr :: !a.Maps(k, q))
    ensures ReusesIndexed(a.elems, a.data, a.used) && 1 !in a.elems && Some(1) !in a.data
  {
    a := new Array();
    a.elems := map[0 := Elem(TYPE_STRING, None, false, Some(value))];
    EmptySound(a.elems);
    hide MapsIn, Sound, Indexed, Compare, ReusesIndexed;
    CompareZero("0", "0");
    ghost var e := Elem(TYPE_STRING, Some("0"), true, Some(value));
    assert Named(a.elems[0], 0) == e by { assert Decimal(0) == "0"; }
    ghost var before := a.data;
    NothingMapped(a.elems);
    a.InsertUnique(0);
    assert a.elems[0] == e && a.Maps("0", 0);
    a.UsedSlot("0", 0);
    a.Reset();
    a.Behind(0);
    OnlyReused(a.elems, a.data, a.used, 0);
  }

  // The failure: the pair is stored in that element, and the key is lost.
  method KeyIsLost(key: string, value: string) returns (a: Array, ghost indexed: bool)
    requires Compare("0", key) != 0
    ensures fresh(a) && a.Valid() && indexed && !a.Stored(key, value)
  {
    a := ResetNumbered(value);
    hide MapsIn, ReusesIndexed, Sound, Compare;
    indexed := a.SetKeyValue(key, value, 1);
    assert Decimal(0) == "0";
  }

  // A header that comes twice, in any spelling of its name: looked up, it has both values.
  method RepeatedKey(key: string, again: string, value: string, more: string) returns (a: Array, p: Option<Ptr>)
    requires SameUpToCase(key, again)
    ensures fresh(a) && a.Valid() && p.Some? && p.value in a.elems
    ensures a.elems[p.value] == Elem(TYPE_STRING, Some(key), false, Some(value + ", " + more))
  {
    a := new Array();
    ghost var first, second := Elem(TYPE_STRING, Some(key), false, Some(value)),
      Elem(TYPE_STRING, Some(again), false, Some(more));
    a.elems := map[0 := Elem(TYPE_STRING, Some(key), false, Some(value))];
    EmptySound(a.elems);
    CompareMeans(key, again);
    CompareZero(key, key);
    hide MapsIn, Sound, Indexed, Compare, Array.FoundUpToCase, SameUpToCase;
    NothingMapped(a.elems);
    a.InsertUnique(0);
    assert a.Maps(again, 0) && a.elems[0] == first;
    a.AddLoose(1, Elem(TYPE_STRING, Some(again), false, Some(more)));
    assert a.Maps(again, 0) && a.elems[0] == first && Named(second, a.uniqueNdx) == second;
    a.InsertUnique(1);
    p := a.GetElement(again);
    assert a.Maps(again, 0) && p == Some(0);
  }

  lemma NothingMapped(elems: Elems)
    ensures forall k: string, p: Ptr :: !MapsIn(elems, [], 0, k, p)
  {
  }

  predicate OfType(elems: Elems, data: seq<Option<Ptr>>, t: nat, i: nat) {
    i < |data| && data[i].Some? && data[i].value in elems && elems[data[i].value].typ == t
  }

  ghost predicate FirstOfType(elems: Elems, data: seq<Option<Ptr>>, used: nat, t: nat, i: nat) {
    used <= i && OfType(elems, data, t, i) && forall j: nat :: used <= j < i ==> !OfType(elems, data, t, j)
  }

  // The first string element behind the used ones has the index flag.
  ghost predicate ReusesIndexed(elems: Elems, data: seq<Option<Ptr>>, used: nat) {
    exists i: nat :: FirstOfType(elems, data, used, TYPE_STRING, i) && elems[data[i].value].isIndex
  }

  lemma OneFirst(elems: Elems, data: seq<Option<Ptr>>, used: nat, p: Option<Ptr>)
    requires match p
             case None => forall i: nat :: used <= i < |data| ==> !OfType(elems, data, TYPE_STRING, i)
             case Some(_) => exists i: nat :: FirstOfType(elems, data, used, TYPE_STRING, i) && data[i] == p
    ensures ReusesIndexed(elems, data, used) <==> p.Some? && p.value in elems && elems[p.value].isIndex
  {
  }

  // data_string's insert_dup
  function Dup(dst: Elem, src: Elem): Elem {
    dst.(value := if dst.value.Some? then Some(dst.value.value + ", " + Text(src.value)) else src.value)
  }

  // data_string_reset
  function Cleared(e: Elem): Elem {
    e.(key := None, value := None)
  }

  // The key is generated.
  predicate Numbered(e: Elem) {
    e.key.None? || e.isIndex
  }

  function Named(e: Elem, ndx: nat): Elem {
    if Numbered(e) then e.(key := Some(Decimal(ndx)), isIndex := true) else e
  }

  // Another element with the same key takes the slot; the old one is freed.
  lemma Replaced(elems: Elems, data: seq<Option<Ptr>>, sorted: seq<int>, used: nat, i: nat, p: Ptr)
    requires Sound(elems, data, sorted, used) && i < used && p in elems && Some(p) !in data
    requires Compare(KeyOf(elems, data[i]), Text(elems[p].key)) == 0
    ensures data[i].Some? && data[i].value != p
    ensures var elems', data' := elems - {data[i].value}, data[i := Some(p)];
            && Sound(elems', data', sorted, used)
            && forall k: string, q: Ptr :: MapsIn(elems', data', used, k, q) <==>
                 if Compare(Text(elems[p].key), k) == 0 then q == p else MapsIn(elems, data, used, k, q)
  {
    assert data[i] in data;
    var elems', data' := elems - {data[i].value}, data[i := Some(p)];
    var keys, keys' := Keys(elems, data[..used]), Keys(elems', data'[..used]);
    forall j | 0 <= j < used
      ensures j != i ==> keys'[j] == keys[j]
      ensures LowerAll(keys'[j]) == LowerAll(keys[j])
    {
      assert j != i ==> data[j] != data[i] && data'[j] == data[j];
      CompareZero(KeyOf(elems, data[i]), Text(elems[p].key));
    }
    SameOrder(keys, keys', sorted[..used]);
    assert Sound(elems', data', sorted, used);
    MapsReplaced(elems, data, sorted, used, i, p);
  }

  lemma SameOrder(keys: seq<string>, keys': seq<string>, s: seq<int>)
    requires Indexed(keys, s) && |keys'| == |keys| && forall j ::
      0 <= j < |keys| ==> LowerAll(keys'[j]) == LowerAll(keys[j])
    ensures Indexed(keys', s)
  {
    forall k, l | 0 <= k < l < |s|
      ensures Less(keys'[s[k]], keys'[s[l]])
    {
      assert Less(keys[s[k]], keys[s[l]]);
      CompareCase(keys[s[k]], keys'[s[k]], keys[s[l]]);
      CompareCase(keys[s[l]], keys'[s[l]], keys'[s[k]]);
    }
  }

  lemma MapsReplaced(elems: Elems, data: seq<Option<Ptr>>, sorted: seq<int>, used: nat, i: nat, p: Ptr)
    requires Sound(elems, data, sorted, used) && i < used && p in elems && Some(p) !in data && data[i].Some?
    requires Compare(KeyOf(elems, data[i]), Text(elems[p].key)) == 0
    ensures forall k: string, q: Ptr :: MapsIn(elems - {data[i].value}, data[i := Some(p)], used, k, q) <==>
              if Compare(Text(elems[p].key), k) == 0 then q == p else MapsIn(elems, data, used, k, q)
  {
    var elems', data' := elems - {data[i].value}, data[i := Some(p)];
    var key, keys := Text(elems[p].key), Keys(elems, data[..used]);
    hide Less;
    IndexedDistinct(keys, sorted[..used]);
    forall k: string, q: Ptr
      ensures MapsIn(elems', data', used, k, q) <==>
        if Compare(key, k) == 0 then q == p else MapsIn(elems, data, used, k, q)
    {
      if MapsIn(elems', data', used, k, q) {
        var j :| 0 <= j < used && data'[j] == Some(q) && Compare(KeyOf(elems', data'[j]), k) == 0;
        if j != i {
          OtherKey(keys, i, j, key, k);
          assert data[j] == Some(q) && data[j] != data[i];
        }
      }
      if Compare(key, k) == 0 && q == p {
        assert data'[i] == Some(p);
      }
      if Compare(key, k) != 0 && MapsIn(elems, data, used, k, q) {
        var j :| 0 <= j < used && data[j] == Some(q) && Compare(KeyOf(elems, data[j]), k) == 0;
        CompareZero(keys[i], key);
        CompareCase(keys[i], key, k);
        assert j != i && data'[j] == Some(q) && data[j] != data[i];
      }
    }
  }

  // A key equal to that of slot i is not that of slot j.
  lemma OtherKey(keys: seq<string>, i: nat, j: nat, key: string, k: string)
    requires i < |keys| && j < |keys| && i != j && Compare(keys[i], key) == 0 && Compare(keys[j], k) == 0
    requires forall x, y :: 0 <= x < y < |keys| ==> Compare(keys[x], keys[y]) != 0
    ensures Compare(key, k) != 0
  {
    CompareZero(keys[i], key);
    CompareZero(keys[j], k);
    CompareZero(key, k);
    CompareZero(keys[i], keys[j]);
    CompareZero(keys[j], keys[i]);
  }
}