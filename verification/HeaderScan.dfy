// The header scan of connection_handle_read_state in connections.c: the end of the
// request header is looked for across the chunks of the read queue, and the header is
// copied out of it. What is found depends on the bytes only, not on their chunks.

module HeaderScan {
  import opened Wrappers
  import opened Parts
  import opened ChunkQueue

  const HEADER_END: Bytes := "\r\n\r\n"

  predicate EndAt(s: Bytes, p: nat) {
    p + 4 <= |s| && s[p..p + 4] == HEADER_END
  }

  // An empty line: carriage return and line feed behind those of the line before it.
  lemma EmptyLine(s: Bytes, p: nat)
    ensures EndAt(s, p) <==>
            p + 4 <= |s| && s[p] as int == 13 && s[p + 1] as int == 10 && s[p + 2] as int == 13 && s[p + 3] as int == 10
  {
    if p + 4 <= |s| {
      var t := s[p..p + 4];
      assert t == [t[0], t[1], t[2], t[3]];
    }
  }

  // The header reaches to the first empty line, which belongs to it.
  ghost predicate HeaderIs(s: Bytes, n: nat) {
    n >= 4 && EndAt(s, n - 4) && forall p :: 0 <= p < n - 4 ==> !EndAt(s, p)
  }

  ghost predicate NoHeader(s: Bytes) {
    forall p :: 0 <= p ==> !EndAt(s, p)
  }

  ghost predicate NoneBefore(s: Bytes, n: nat) {
    forall p :: 0 <= p < n ==> !EndAt(s, p)
  }

  // ---- positions in the chunks and in the whole ----

  function Pos(data: seq<Bytes>, k: nat, i: nat): nat
    requires k <= |data|
  {
    |Concat(data[..k])| + i
  }

  lemma PosNext(data: seq<Bytes>, k: nat)
    requires k < |data|
    ensures Pos(data, k + 1, 0) == Pos(data, k, |data[k]|)
  {
    assert data[..k + 1] == data[..k] + [data[k]];
    ConcatAppend(data[..k], [data[k]]);
    ConcatOne(data[k]);
  }

  lemma CharAt(data: seq<Bytes>, k: nat, i: nat)
    requires k < |data| && i < |data[k]|
    ensures Pos(data, k, i) < |Concat(data)| && Concat(data)[Pos(data, k, i)] == data[k][i]
  {
    ConcatAt(data, k);
  }

  lemma PosEnd(data: seq<Bytes>)
    ensures Pos(data, |data|, 0) == |Concat(data)|
  {
    assert data[..|data|] == data;
  }

  // ---- the scan ----

  // p characters of the header end have been seen from position n on.
  ghost predicate Seen(s: Bytes, n: nat, p: nat) {
    p < 4 && n + p <= |s| && s[n..n + p] == HEADER_END[..p]
  }

  lemma SeenMore(s: Bytes, n: nat, p: nat)
    requires Seen(s, n, p) && n + p < |s|
    ensures s[n + p] == HEADER_END[p] ==> if p < 3 then Seen(s, n, p + 1) else EndAt(s, n)
    ensures s[n + p] != HEADER_END[p] ==> !EndAt(s, n)
  {
    assert s[n..n + p + 1] == s[n..n + p] + [s[n + p]];
    assert HEADER_END[..p + 1] == HEADER_END[..p] + [HEADER_END[p]];
    if EndAt(s, n) {
      assert s[n..n + 4][p] == s[n + p];
    }
  }

  // The inner loops: does the header end start at byte i of chunk k?
  method MatchFrom(q: Queue, start: Ptr, ghost k: nat, i: nat) returns (found: bool, p: Ptr, offset: nat, ghost m: nat)
    requires q.Sound() && k < |q.ids| == |q.data| && start == q.ids[k] && i < |q.data[k]| && q.data[k][i] == '\r'
    ensures found == EndAt(q.Contents(), Pos(q.data, k, i))
    ensures found ==>
      m < |q.ids| && p == q.ids[m] && offset <= |q.data[m]| && Pos(q.data, m, offset) == Pos(q.data, k, i) + 4
  {
    hide SoundLists, Concat, EndAt, Seen;
    ghost var s, n := q.Contents(), Pos(q.data, k, i);
    CharAt(q.data, k, i);
    SeenFirst(s, n);
    var cc: Option<Ptr>, j: nat, seen: nat := Some(start), i + 1, 1;
    m := k;
    while cc.Some?
      invariant m <= |q.ids| && cc == At(q.ids, m) && (cc.Some? ==> j <= |q.data[m]|) && (cc.None? ==> j == 0)
      invariant Pos(q.data, m, j) == n + seen && seen < 4 && Seen(s, n, seen)
      decreases |q.ids| - m
    {
      q.CellAt(m);
      var c := q.heap.cells[cc.value];
      while j < c.Remaining()
        invariant j <= |q.data[m]| && Pos(q.data, m, j) == n + seen && seen < 4 && Seen(s, n, seen)
      {
        CharAt(q.data, m, j);
        SeenMore(s, n, seen);
        if c.Data()[j] == HEADER_END[seen] {
          seen := seen + 1;
          if seen == 4 {
            return true, cc.value, j + 1, m;
          }
        } else {
          return false, 0, 0, m;
        }
        j := j + 1;
      }
      PosNext(q.data, m);
      cc, j, m := c.next, 0, m + 1;
    }
    PosEnd(q.data);
    SeenAll(s, n, seen);
    return false, 0, 0, m;
  }

  lemma SeenFirst(s: Bytes, n: nat)
    requires n < |s| && s[n] == '\r'
    ensures Seen(s, n, 1)
  {
    assert s[n..n + 1] == ['\r'];
  }

  lemma SeenAll(s: Bytes, n: nat, p: nat)
    requires Seen(s, n, p) && n + p == |s|
    ensures !EndAt(s, n)
  {
  }

  // The loops over all chunks and their bytes.
  method FindEnd(q: Queue) returns (found: bool, p: Ptr, offset: nat, ghost m: nat)
    requires q.Sound() && |q.ids| == |q.data|
    ensures !found ==> NoHeader(q.Contents())
    ensures found ==>
      m < |q.ids| && p == q.ids[m] && offset <= |q.data[m]| && HeaderIs(q.Contents(), Pos(q.data, m, offset))
  {
    hide SoundLists, Concat;
    ghost var s: Bytes, k: nat := q.Contents(), 0;
    FirstAt(q);
    ConcatEmpty<char>([]);
    assert q.data[..0] == [];
    var c := q.first;
    while c.Some?
      invariant k <= |q.ids| && c == At(q.ids, k) && NoneBefore(s, Pos(q.data, k, 0))
      decreases |q.ids| - k
    {
      q.CellAt(k);
      var cell := q.heap.cells[c.value];
      for i := 0 to cell.Remaining()
        invariant NoneBefore(s, Pos(q.data, k, i))
      {
        CharAt(q.data, k, i);
        if cell.Data()[i] == '\r' {
          found, p, offset, m := MatchFrom(q, c.value, k, i);
          if found {
            return;
          }
        } else {
          NotEnd(s, Pos(q.data, k, i));
        }
      }
      PosNext(q.data, k);
      c, k := cell.next, k + 1;
    }
    PosEnd(q.data);
    return false, 0, 0, 0;
  }

  lemma FirstAt(q: Queue)
    requires q.Sound()
    ensures q.first == At(q.ids, 0)
  {
  }

  lemma NotEnd(s: Bytes, p: nat)
    requires p < |s| && s[p] != '\r'
    ensures !EndAt(s, p)
  {
    if p + 4 <= |s| {
      assert s[p..p + 4][0] == s[p];
    }
  }

  // ---- the copy ----

  // The chunks before k are used up.
  ghost predicate UsedUp(data: seq<Bytes>, data': seq<Bytes>, k: nat) {
    && |data'| == |data| && k <= |data|
    && (forall j :: 0 <= j < k ==> data'[j] == []) && (forall j :: k <= j < |data| ==> data'[j] == data[j])
  }

  lemma CopiedPart(data: seq<Bytes>, data': seq<Bytes>, m: nat, offset: nat)
    requires UsedUp(data, data', m) && m < |data| && offset <= |data[m]|
    ensures Concat(data) == (Concat(data[..m]) + data[m][..offset]) + Concat(data'[m := data[m][offset..]])
  {
    var last := data'[m := data[m][offset..]];
    ConcatAt(data, m);
    ConcatAt(last, m);
    ConcatEmpty(last[..m]);
    assert last[m + 1..] == data[m + 1..];
    assert data[m] == data[m][..offset] + data[m][offset..];
    hide Concat;
    Regroup(Concat(data[..m]), data[m][..offset], data[m][offset..], Concat(data[m + 1..]));
  }

  lemma Regroup(a: Bytes, b: Bytes, c: Bytes, d: Bytes)
    ensures a + (b + c) + d == (a + b) + (([]  + c) + d)
  {
  }

  // The state of the copying loop: at chunk k, or done with chunk m.
  ghost predicate Copied(data: seq<Bytes>, data': seq<Bytes>, m: nat, offset: nat, k: nat, done: bool, request: Bytes) {
    && |data'| == |data| && k <= m < |data| && offset <= |data[m]|
    && if done then UsedUp(data, data'[m := data[m]], m) && data'[m] == data[m][offset..]
      && request == Concat(data[..m]) + data[m][..offset]
       else UsedUp(data, data', k) && request == Concat(data[..k])
  }

  lemma CopyStep(data: seq<Bytes>, data': seq<Bytes>, m: nat, offset: nat, k: nat, request: Bytes, len: nat)
    requires Copied(data, data', m, offset, k, false, request) && len == (if k == m then offset else |data[k]|)
    ensures len <= |data'[k]| && data'[k] == data[k]
    ensures var data'', request' := data'[k := data'[k][len..]], request + data'[k][..len];
            if k == m then Copied(data, data'', m, offset, k, true, request')
            else Copied(data, data'', m, offset, k + 1, false, request')
  {
    hide Concat;
    var data'' := data'[k := data'[k][len..]];
    if k == m {
      assert data''[m := data[m]] == data';
    } else {
      ConcatNext(data, k);
    }
  }

  // Everything up to byte offset of chunk m is appended to the request and taken off.
  method CopyHeader(q: Queue, p: Ptr, offset: nat, ghost m: nat) returns (request: Bytes)
    requires q.Valid() && m < |q.ids| == |q.data| && p == q.ids[m] && offset <= |q.data[m]|
    modifies q, q.heap
    ensures q.Valid() && request + q.Contents() == old(q.Contents()) && |request| == Pos(old(q.data), m, offset)
    ensures q.bytesIn == old(q.bytesIn) && q.bytesOut == old(q.bytesOut) + |request|
  {
    hide SoundLists, Concat, Copied;
    ghost var data: seq<Bytes>, k: nat := q.data, 0;
    FirstAt(q);
    request := [];
    var c := q.first;
    var done := false;
    CopyStart(data, m, offset);
    while c.Some? && !done
      invariant q.Sound() && q.ids == old(q.ids) && |q.data| == |data| && k <= m && c == At(q.ids, k)
      invariant Copied(data, q.data, m, offset, k, done, request)
      invariant q.bytesIn == old(q.bytesIn) && q.bytesOut == old(q.bytesOut) + |request|
      decreases !done, m - k
    {
      q.CellAt(k);
      var cell := q.heap.cells[c.value];
      SamePlace(q, k, m);
      CopiedCell(data, q.data, m, offset, k, request);
      var len := if c.value == p then offset else cell.Remaining();
      CopyStep(data, q.data, m, offset, k, request, len);
      request := request + cell.Data()[..len];
      q.AdvanceAt(c.value, k, len);
      q.bytesOut := q.bytesOut + len;
      if c.value == p {
        done := true;
      } else {
        c, k := cell.next, k + 1;
      }
    }
    CopyEnd(data, q.data, m, offset, k, request);
  }

  lemma CopyStart(data: seq<Bytes>, m: nat, offset: nat)
    requires m < |data| && offset <= |data[m]|
    ensures Copied(data, data, m, offset, 0, false, [])
  {
    assert data[..0] == [];
  }

  lemma CopiedCell(data: seq<Bytes>, data': seq<Bytes>, m: nat, offset: nat, k: nat, request: Bytes)
    requires Copied(data, data', m, offset, k, false, request)
    ensures k < |data'| && data'[k] == data[k]
  {
  }

  lemma CopyEnd(data: seq<Bytes>, data': seq<Bytes>, m: nat, offset: nat, k: nat, request: Bytes)
    requires Copied(data, data', m, offset, k, true, request)
    ensures request + Concat(data') == Concat(data) && |request| == Pos(data, m, offset)
  {
    CopiedPart(data, data'[m := data[m]], m, offset);
    assert data'[m := data[m]][m := data[m][offset..]] == data';
  }

  // The active chunks are distinct.
  lemma SamePlace(q: Queue, k: nat, m: nat)
    requires q.Sound() && k <= m < |q.ids|
    ensures q.ids[k] == q.ids[m] <==> k == m
  {
  }

  // The header handling of connection_handle_read_state: the request gets the bytes up
  // to and including the first empty line, and the queue keeps exactly the rest.
  method ReadHeader(q: Queue) returns (found: bool, request: Bytes)
    requires q.Valid()
    modifies q, q.heap
    ensures q.Valid() && q.bytesIn == old(q.bytesIn) && request + q.Contents() == old(q.Contents())
    ensures if found then HeaderIs(old(q.Contents()), |request|) else NoHeader(old(q.Contents())) && request == []
    ensures q.bytesOut == old(q.bytesOut) + |request|
  {
    hide SoundLists, Concat;
    SameLength(q);
    var p, offset;
    ghost var m;
    found, p, offset, m := FindEnd(q);
    request := [];
    if found {
      request := CopyHeader(q, p, offset, m);
    }
    q.RemoveFinished();
  }

  lemma SameLength(q: Queue)
    requires q.Sound()
    ensures |q.ids| == |q.data|
  {
  }

  // Both outcomes depend on the bytes alone.
  lemma HeaderDecided(s: Bytes, n: nat, n': nat)
    requires HeaderIs(s, n)
    ensures !NoHeader(s) && (HeaderIs(s, n') ==> n' == n)
  {
    if HeaderIs(s, n') {
      assert EndAt(s, n - 4) && EndAt(s, n' - 4);
    }
  }
}
