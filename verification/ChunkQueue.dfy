// The chunk queue of chunk.c: a linked list of memory and file chunks with a stack of
// unused chunks, byte accounting, and stealing between queues. The chunks live in an
// arena; a pointer is their number.

module ChunkQueue {
  import opened Wrappers
  import opened Buffers
  import opened Parts

  type Bytes = seq<char>
  type Ptr = nat

  // ---- chunks ----

  const BUFFER_MAX_REUSE_SIZE := 4096

  // mem is the string in the memory buffer and memSize what is allocated for it. name
  // stands for the contents of the file, which never change under a chunk's range.
  datatype Chunk = Chunk(file: bool, mem: Bytes, memSize: nat, name: Bytes, start: nat, length: nat,
                         isTemp: bool, fdOpen: bool, offset: nat, next: Option<Ptr>)
  {
    predicate Ok() {
      && offset <= Size() && (if memSize == 0 then mem == [] else |mem| < memSize)
      && (file ==> start + length <= |name|)
      && (file && isTemp && fdOpen ==> start == 0 && length == |name|)
    }

    function Size(): nat {
      if file then length else |mem|
    }

    // What is still to be sent.
    function Data(): Bytes
      requires Ok()
    {
      if file then name[start + offset..start + length] else mem[offset..]
    }

    // chunk_remaining_length
    function Remaining(): nat
      requires Ok()
    {
      Size() - offset
    }

    // buffer_string_space of the memory
    function Space(): nat
      requires Ok()
    {
      if memSize == 0 then 0 else memSize - 1 - |mem|
    }

    predicate IsReset() {
      Ok() && !file && mem == [] && offset == 0 && !isTemp && !fdOpen
    }

    // chunk_reset; a large buffer is given back.
    function Reset(): Chunk {
      Chunk(false, [], if memSize > BUFFER_MAX_REUSE_SIZE then 0 else memSize, [], 0, 0, false, false, 0, None)
    }
  }

  // chunk_init
  const NEW_CHUNK := Chunk(false, [], 0, [], 0, 0, false, false, 0, None)

  type Cells = map<Ptr, Chunk>

  // ---- linked lists in the arena ----

  ghost predicate Distinct(ids: seq<Ptr>) {
    forall i, j :: 0 <= i < j < |ids| ==> ids[i] != ids[j]
  }

  function At(ids: seq<Ptr>, i: nat): Option<Ptr> {
    if i < |ids| then Some(ids[i]) else None
  }

  // The chunks ids are linked in order, from first on.
  ghost predicate Linked(cells: Cells, first: Option<Ptr>, ids: seq<Ptr>) {
    && Distinct(ids) && first == At(ids, 0)
    && forall i :: 0 <= i < |ids| ==> ids[i] in cells && cells[ids[i]].next == At(ids, i + 1)
  }

  ghost predicate Holds(cells: Cells, ids: seq<Ptr>, data: seq<Bytes>) {
    |ids| == |data| && forall i ::
      0 <= i < |ids| ==> ids[i] in cells && cells[ids[i]].Ok() && cells[ids[i]].Data() == data[i]
  }

  ghost predicate AllReset(cells: Cells, ids: seq<Ptr>) {
    forall p :: p in ids ==> p in cells && cells[p].IsReset()
  }

  ghost predicate Apart(a: seq<Ptr>, b: seq<Ptr>) {
    forall p :: p in a ==> p !in b
  }

  // The chunks ids are untouched.
  ghost predicate Same(cells: Cells, cells': Cells, ids: seq<Ptr>) {
    forall p :: p in ids && p in cells ==> p in cells' && cells'[p] == cells[p]
  }

  lemma SameKeeps(cells: Cells, cells': Cells, first: Option<Ptr>, ids: seq<Ptr>, data: seq<Bytes>)
    requires Same(cells, cells', ids)
    ensures Linked(cells, first, ids) ==> Linked(cells', first, ids)
    ensures Holds(cells, ids, data) ==> Holds(cells', ids, data)
    ensures AllReset(cells, ids) ==> AllReset(cells', ids)
  {
    assert forall i :: 0 <= i < |ids| ==> ids[i] in ids;
  }

  // The chunks ids differ at most in their links.
  ghost predicate SameButNext(cells: Cells, cells': Cells, ids: seq<Ptr>) {
    forall p :: p in ids && p in cells ==> p in cells' && cells'[p] == cells[p].(next := cells'[p].next)
  }

  lemma NextKeepsData(c: Chunk, next: Option<Ptr>)
    requires c.Ok()
    ensures c.(next := next).Ok() && c.(next := next).Data() == c.Data()
  {
  }

  lemma SameButNextHolds(cells: Cells, cells': Cells, ids: seq<Ptr>, data: seq<Bytes>)
    requires SameButNext(cells, cells', ids) && Holds(cells, ids, data)
    ensures Holds(cells', ids, data)
  {
    forall i | 0 <= i < |ids|
      ensures ids[i] in cells' && cells'[ids[i]].Ok() && cells'[ids[i]].Data() == data[i]
    {
      assert ids[i] in ids;
      NextKeepsData(cells[ids[i]], cells'[ids[i]].next);
    }
  }

  lemma LinkedTail(cells: Cells, first: Option<Ptr>, ids: seq<Ptr>)
    requires Linked(cells, first, ids) && ids != []
    ensures ids[0] in cells && Linked(cells, cells[ids[0]].next, ids[1..]) && ids[0] !in ids[1..]
  {
    var tail := ids[1..];
    forall i | 0 <= i < |tail|
      ensures tail[i] in cells && cells[tail[i]].next == At(tail, i + 1)
    {
      assert tail[i] == ids[i + 1];
    }
  }

  lemma LinkedCons(cells: Cells, p: Ptr, ids: seq<Ptr>)
    requires p in cells && Linked(cells, cells[p].next, ids) && p !in ids
    ensures Linked(cells, Some(p), [p] + ids)
  {
    var all := [p] + ids;
    forall i | 0 <= i < |all|
      ensures all[i] in cells && cells[all[i]].next == At(all, i + 1)
    {
      if i > 0 {
        assert all[i] == ids[i - 1];
      }
    }
  }

  // Linking p behind the last chunk.
  lemma LinkedSnoc(cells: Cells, cells': Cells, first: Option<Ptr>, ids: seq<Ptr>, p: Ptr)
    requires Linked(cells, first, ids) && p in cells' && cells'[p].next == None && p !in ids
    requires ids != [] ==> cells[ids[|ids| - 1]].(next := Some(p)) == MapAt(cells', ids[|ids| - 1])
    requires Same(cells, cells', if ids == [] then [] else ids[..|ids| - 1])
    ensures Linked(cells', if ids == [] then Some(p) else first, ids + [p])
  {
    var all := ids + [p];
    forall i | 0 <= i < |all|
      ensures all[i] in cells' && cells'[all[i]].next == At(all, i + 1)
    {
      if i < |ids| - 1 {
        assert all[i] == ids[..|ids| - 1][i];
      }
    }
  }

  function MapAt(cells: Cells, p: Ptr): Chunk {
    if p in cells then cells[p] else NEW_CHUNK
  }

  lemma HoldsTail(cells: Cells, ids: seq<Ptr>, data: seq<Bytes>)
    requires Holds(cells, ids, data) && ids != []
    ensures Holds(cells, ids[1..], data[1..])
    ensures Concat(data) == data[0] + Concat(data[1..])
  {
  }

  lemma HoldsConcat(cells: Cells, ids: seq<Ptr>, data: seq<Bytes>, ids': seq<Ptr>, data': seq<Bytes>)
    requires Holds(cells, ids, data) && Holds(cells, ids', data')
    ensures Holds(cells, ids + ids', data + data')
  {
  }

  // ---- one queue ----

  // The pointers of a queue, with the chunks behind them.
  datatype Lists = Lists(first: Option<Ptr>, last: Option<Ptr>, unused: Option<Ptr>,
                         ids: seq<Ptr>, spare: seq<Ptr>, data: seq<Bytes>)

  function LastOf(ids: seq<Ptr>): Option<Ptr> {
    if ids == [] then None else Some(ids[|ids| - 1])
  }

  // first and last are the ends of the active list, whose chunks hold data.
  ghost predicate Active(cells: Cells, l: Lists) {
    Linked(cells, l.first, l.ids) && l.last == LastOf(l.ids) && Holds(cells, l.ids, l.data)
  }

  // The stack of unused chunks: at most five, all reset.
  ghost predicate Stacked(cells: Cells, l: Lists) {
    Linked(cells, l.unused, l.spare) && |l.spare| <= 5 && AllReset(cells, l.spare)
  }

  ghost predicate SoundLists(cells: Cells, l: Lists) {
    Active(cells, l) && Stacked(cells, l) && Apart(l.ids, l.spare)
  }

  ghost predicate Owns(l: Lists, p: Ptr) {
    p in l.ids || p in l.spare
  }

  // Nothing but the cells in the set has changed.
  ghost predicate OnlyAt(cells: Cells, cells': Cells, changed: set<Ptr>) {
    forall p :: p !in changed ==> (p in cells <==> p in cells') && (p in cells ==> cells'[p] == cells[p])
  }

  lemma OnlyAtKeeps(cells: Cells, cells': Cells, changed: set<Ptr>, l: Lists)
    requires OnlyAt(cells, cells', changed)
    ensures (forall p :: p in changed ==> p !in l.ids) && Active(cells, l) ==> Active(cells', l)
    ensures (forall p :: p in changed ==> p !in l.spare) && Stacked(cells, l) ==> Stacked(cells', l)
  {
    if forall p :: p in changed ==> p !in l.ids {
      SameKeeps(cells, cells', l.first, l.ids, l.data);
    }
    if forall p :: p in changed ==> p !in l.spare {
      SameKeeps(cells, cells', l.unused, l.spare, []);
    }
  }

  // ---- the steps on pointers ----

  // p goes on the stack of unused chunks.
  lemma PushedUnused(cells: Cells, cells': Cells, l: Lists, p: Ptr, c: Chunk)
    requires SoundLists(cells, l) && !Owns(l, p) && |l.spare| <= 4
    requires c.IsReset() && c.next == l.unused && cells' == cells[p := c]
    ensures SoundLists(cells', l.(unused := Some(p), spare := [p] + l.spare))
  {
    OnlyAtKeeps(cells, cells', {p}, l);
    LinkedCons(cells', p, l.spare);
  }

  // The first unused chunk comes off the stack.
  lemma PoppedUnused(cells: Cells, cells': Cells, l: Lists, p: Ptr)
    requires SoundLists(cells, l) && l.unused == Some(p)
    requires p in cells && cells' == cells[p := cells[p].(next := None)]
    ensures l.spare != [] && p == l.spare[0] && cells'[p].IsReset()
    ensures var l' := l.(unused := cells[p].next, spare := l.spare[1..]);
            SoundLists(cells', l') && !Owns(l', p)
  {
    assert p == l.spare[0] && p in l.spare;
    LinkedTail(cells, l.unused, l.spare);
    var l' := l.(unused := cells[p].next, spare := l.spare[1..]);
    assert forall q :: q in l'.spare ==> q in l.spare;
    assert Stacked(cells, l');
    OnlyAtKeeps(cells, cells', {p}, l');
  }

  // c->next = NULL; cq->last->next = c
  function Attached(cells: Cells, last: Option<Ptr>, p: Ptr): Cells
    requires p in cells
  {
    var c1 := cells[p := cells[p].(next := None)];
    if last.Some? && last.value in c1 then c1[last.value := c1[last.value].(next := Some(p))] else c1
  }

  lemma AttachedLinks(cells: Cells, first: Option<Ptr>, ids: seq<Ptr>, p: Ptr)
    requires Linked(cells, first, ids) && p in cells && p !in ids
    ensures Linked(Attached(cells, LastOf(ids), p), if first.None? then Some(p) else first, ids + [p])
  {
    var cells' := Attached(cells, LastOf(ids), p);
    if ids != [] {
      assert ids[|ids| - 1] in ids;
    }
    forall q | q in (if ids == [] then [] else ids[..|ids| - 1])
      ensures q in ids && q != ids[|ids| - 1] && q != p
    {
      var i :| 0 <= i < |ids| - 1 && ids[..|ids| - 1][i] == q;
      assert ids[i] == q;
    }
    LinkedSnoc(cells, cells', first, ids, p);
  }

  lemma HoldsOne(cells: Cells, p: Ptr, next: Option<Ptr>)
    requires p in cells && cells[p].Ok()
    ensures Holds(cells[p := cells[p].(next := next)], [p], [cells[p].Data()])
  {
    NextKeepsData(cells[p], next);
  }

  // p becomes the last active chunk.
  lemma Appended(cells: Cells, cells': Cells, l: Lists, p: Ptr)
    requires SoundLists(cells, l) && !Owns(l, p) && p in cells && cells[p].Ok()
    requires cells' == Attached(cells, l.last, p)
    ensures SoundLists(cells', l.(first := if l.first.None? then Some(p) else l.first, last := Some(p),
                                  ids := l.ids + [p], data := l.data + [cells[p].Data()]))
  {
    hide Linked, Holds, AllReset, Chunk.Ok, Chunk.Data;
    var ids := l.ids;
    if ids != [] {
      assert ids[|ids| - 1] in ids;
    }
    AttachedLinks(cells, l.first, ids, p);
    OnlyAtKeeps(cells, cells', {p} + (if l.last.Some? then {l.last.value} else {}), l);
    SameButNextHolds(cells, cells', ids, l.data);
    HoldsOne(cells, p, None);
    SameButNextHolds(cells[p := cells[p].(next := None)], cells', [p], [cells[p].Data()]);
    HoldsConcat(cells', ids, l.data, [p], [cells[p].Data()]);
  }

  // p becomes the first active chunk.
  lemma Prepended(cells: Cells, cells': Cells, l: Lists, p: Ptr)
    requires SoundLists(cells, l) && !Owns(l, p) && p in cells && cells[p].Ok()
    requires cells' == cells[p := cells[p].(next := l.first)]
    ensures SoundLists(cells', l.(first := Some(p), last := if l.last.None? then Some(p) else l.last,
                                  ids := [p] + l.ids, data := [cells[p].Data()] + l.data))
  {
    hide Holds, AllReset, Chunk.Ok, Chunk.Data;
    OnlyAtKeeps(cells, cells', {p}, l);
    LinkedCons(cells', p, l.ids);
    HoldsOne(cells, p, l.first);
    HoldsConcat(cells', [p], [cells[p].Data()], l.ids, l.data);
    hide Linked;
  }

  // The first active chunk is taken out.
  lemma FirstTaken(cells: Cells, l: Lists)
    requires SoundLists(cells, l) && l.ids != []
    ensures |l.data| == |l.ids| && l.first == Some(l.ids[0]) && l.ids[0] in cells && cells[l.ids[0]].Ok()
      && cells[l.ids[0]].Data() == l.data[0]
    ensures var p := l.ids[0];
            var l' := l.(first := cells[p].next, last := if l.last == Some(p) then None else l.last,
                         ids := l.ids[1..], data := l.data[1..]);
            SoundLists(cells, l') && !Owns(l', p) && Concat(l.data) == l.data[0] + Concat(l'.data)
  {
    var p := l.ids[0];
    assert p in l.ids;
    LinkedTail(cells, l.first, l.ids);
    HoldsTail(cells, l.ids, l.data);
    assert forall q :: q in l.ids[1..] ==> q in l.ids;
    assert l.last == Some(p) <==> |l.ids| == 1;
  }

  // The list of another queue is hung behind the last chunk.
  lemma Joined(cells: Cells, cells': Cells, l: Lists, m: Lists)
    requires SoundLists(cells, l) && SoundLists(cells, m) && m.ids != [] && Disjoint(l, m)
    requires cells' ==
      if l.last.Some? && l.last.value in cells then cells[l.last.value := cells[l.last.value].(next := m.first)]
      else cells
    ensures var l' := l.(first := if l.first.None? then m.first else l.first, last := m.last,
                         ids := l.ids + m.ids, data := l.data + m.data);
            var m' := m.(first := None, last := None, ids := [], data := []);
            SoundLists(cells', l') && SoundLists(cells', m') && Disjoint(l', m')
  {
    hide Linked, Holds, AllReset;
    JoinedEnds(l, m);
    assert forall p :: p in m.ids ==> p !in m.spare;
    JoinedLinks(cells, cells', l.first, l.ids, m.first, m.ids);
    if l.ids != [] {
      assert l.ids[|l.ids| - 1] in l.ids && Owns(l, l.ids[|l.ids| - 1]);
    }
    forall p | p in m.ids || p in m.spare
      ensures !Owns(l, p)
    {
      assert Owns(m, p);
    }
    var changed := if l.last.Some? then {l.last.value} else {};
    OnlyAtKeeps(cells, cells', changed, l);
    OnlyAtKeeps(cells, cells', changed, m);
    SameButNextHolds(cells, cells', l.ids, l.data);
    SameButNextHolds(cells, cells', m.ids, m.data);
    HoldsConcat(cells', l.ids, l.data, m.ids, m.data);
    EmptyList(cells');
  }

  lemma JoinedLinks(cells: Cells, cells': Cells, first: Option<Ptr>, ids: seq<Ptr>, first': Option<Ptr>, ids': seq<Ptr>)
    requires Linked(cells, first, ids) && Linked(cells, first', ids') && ids' != [] && Apart(ids, ids')
    requires cells' ==
      if ids != [] && ids[|ids| - 1] in cells then cells[ids[|ids| - 1] := cells[ids[|ids| - 1]].(next := first')]
      else cells
    ensures Linked(cells', if first.None? then first' else first, ids + ids')
  {
    var all := ids + ids';
    forall i | 0 <= i < |all|
      ensures all[i] in cells' && cells'[all[i]].next == At(all, i + 1)
    {
      if i < |ids| {
        assert i < |ids| - 1 ==> ids[i] != ids[|ids| - 1];
      } else {
        assert all[i] == ids'[i - |ids|] && all[i] in ids';
        assert ids != [] ==> ids[|ids| - 1] in ids;
      }
    }
    forall i, j | 0 <= i < j < |all|
      ensures all[i] != all[j]
    {
      if i < |ids| <= j {
        assert ids[i] in ids && ids'[j - |ids|] in ids';
      } else if |ids| <= i {
        assert ids'[i - |ids|] != ids'[j - |ids|];
      }
    }
  }

  lemma JoinedEnds(l: Lists, m: Lists)
    requires m.ids != [] && Apart(l.ids, l.spare) && Apart(m.ids, m.spare) && forall p :: Owns(l, p) ==> !Owns(m, p)
    ensures LastOf(l.ids + m.ids) == LastOf(m.ids) && Apart(l.ids + m.ids, l.spare)
    ensures Apart(l.ids, m.ids)
  {
    forall p | p in m.ids
      ensures p !in l.spare && p !in l.ids
    {
      assert Owns(m, p);
    }
  }

  lemma EmptyList(cells: Cells)
    ensures Linked(cells, None, []) && Holds(cells, [], [])
  {
  }

  // ---- changing a chunk in place ----

  lemma LinkedReplaced(cells: Cells, first: Option<Ptr>, ids: seq<Ptr>, k: nat, c: Chunk)
    requires Linked(cells, first, ids) && k < |ids| && ids[k] in cells && c.next == cells[ids[k]].next
    ensures Linked(cells[ids[k] := c], first, ids)
  {
  }

  lemma HoldsReplaced(cells: Cells, ids: seq<Ptr>, data: seq<Bytes>, k: nat, c: Chunk)
    requires Holds(cells, ids, data) && Distinct(ids) && k < |ids| && c.Ok()
    ensures Holds(cells[ids[k] := c], ids, data[k := c.Data()])
  {
    hide Chunk.Ok, Chunk.Data;
  }

  // Active chunk k now is c, with the same link.
  lemma Replaced(cells: Cells, l: Lists, k: nat, c: Chunk)
    requires SoundLists(cells, l) && k < |l.ids| && l.ids[k] in cells && c.Ok() && c.next == cells[l.ids[k]].next
    ensures k < |l.data| && SoundLists(cells[l.ids[k] := c], l.(data := l.data[k := c.Data()]))
    ensures Concat(l.data) == Concat(l.data[..k]) + l.data[k] + Concat(l.data[k + 1..])
    ensures Concat(l.data[k := c.Data()]) == Concat(l.data[..k]) + c.Data() + Concat(l.data[k + 1..])
  {
    LinkedReplaced(cells, l.first, l.ids, k, c);
    HoldsReplaced(cells, l.ids, l.data, k, c);
    SameKeeps(cells, cells[l.ids[k] := c], l.unused, l.spare, []);
    var data' := l.data[k := c.Data()];
    ConcatAt(l.data, k);
    ConcatAt(data', k);
    assert data'[..k] == l.data[..k] && data'[k + 1..] == l.data[k + 1..];
  }

  // ---- what an operation on one queue leaves alone ----

  // Chunks the queue did not own are untouched, and it got only new ones.
  ghost predicate Framed(cells: Cells, l: Lists, cells': Cells, l': Lists) {
    && (forall p :: p in cells && !Owns(l, p) ==> p in cells' && cells'[p] == cells[p])
    && (forall p :: Owns(l', p) ==> Owns(l, p) || p !in cells)
  }

  ghost predicate Disjoint(l: Lists, m: Lists) {
    forall p :: Owns(l, p) ==> !Owns(m, p)
  }

  lemma FramedTrans(c1: Cells, l1: Lists, c2: Cells, l2: Lists, c3: Cells, l3: Lists)
    requires Framed(c1, l1, c2, l2) && Framed(c2, l2, c3, l3)
    ensures Framed(c1, l1, c3, l3)
  {
  }

  lemma OwnedCells(cells: Cells, l: Lists)
    requires SoundLists(cells, l)
    ensures forall p :: Owns(l, p) ==> p in cells
  {
  }

  // Another queue does not notice.
  lemma FramedOther(cells: Cells, l: Lists, cells': Cells, l': Lists, m: Lists)
    requires Framed(cells, l, cells', l') && SoundLists(cells, m) && Disjoint(l, m)
    ensures SoundLists(cells', m) && Disjoint(l', m)
  {
    OwnedCells(cells, m);
    forall p | Owns(m, p)
      ensures p in cells' && cells'[p] == cells[p] && !Owns(l', p)
    {
      assert !Owns(l, p);
    }
    assert forall p :: p in m.ids ==> Owns(m, p);
    assert forall p :: p in m.spare ==> Owns(m, p);
    SameKeeps(cells, cells', m.first, m.ids, m.data);
    SameKeeps(cells, cells', m.unused, m.spare, []);
  }

  // The memory all chunks live in.
  class Store {
    var cells: Cells
    var top: nat

    ghost predicate Valid()
      reads this
    {
      forall p :: p in cells ==> p < top
    }

    constructor ()
      ensures Valid() && cells == map[]
    {
      cells, top := map[], 0;
    }
  }

  class Queue {
    const heap: Store
    var first: Option<Ptr>
    var last: Option<Ptr>
    var unused: Option<Ptr>
    var unusedChunks: nat
    var bytesIn: int
    var bytesOut: int
    ghost var ids: seq<Ptr>
    ghost var spare: seq<Ptr>
    ghost var data: seq<Bytes>

    ghost function L(): Lists
      reads this
    {
      Lists(first, last, unused, ids, spare, data)
    }

    // The lists are in order; between two steps of an operation the accounting may be out.
    ghost predicate Sound()
      reads this, heap
    {
      heap.Valid() && SoundLists(heap.cells, L()) && unusedChunks == |spare|
    }

    ghost predicate Valid()
      reads this, heap
    {
      Sound() && bytesIn - bytesOut == |Contents()|
    }

    ghost function Contents(): Bytes
      reads this
    {
      Concat(data)
    }

    // chunkqueue_init
    constructor (heap: Store)
      requires heap.Valid()
      ensures this.heap == heap && Valid() && Contents() == [] && bytesIn == bytesOut == 0
      ensures forall p :: !Owns(L(), p)
    {
      this.heap := heap;
      first, last, unused, unusedChunks, bytesIn, bytesOut := None, None, None, 0, 0, 0;
      ids, spare, data := [], [], [];
    }

    // chunkqueue_push_unused_chunk
    method PushUnused(p: Ptr)
      requires Sound() && p in heap.cells && !Owns(L(), p)
      modifies heap`cells, this`unused, this`unusedChunks, this`spare
      ensures Sound() && OnlyAt(old(heap.cells), heap.cells, {p})
      ensures spare == if old(|spare|) > 4 then old(spare) else [p] + old(spare)
      ensures p in heap.cells <==> old(|spare|) <= 4
    {
      hide Linked, Holds, AllReset;
      ghost var cells, l := heap.cells, L();
      if unusedChunks > 4 {
        heap.cells := heap.cells - {p};   // chunk_free
        OnlyAtKeeps(cells, heap.cells, {p}, l);
      } else {
        heap.cells := heap.cells[p := heap.cells[p].Reset().(next := unused)];
        PushedUnused(cells, heap.cells, l, p, heap.cells[p]);
        unused := Some(p);
        unusedChunks := unusedChunks + 1;
        spare := [p] + spare;
      }
    }

    // chunkqueue_get_unused_chunk
    method GetUnused() returns (p: Ptr)
      requires Sound()
      modifies heap, this`unused, this`unusedChunks, this`spare
      ensures Sound() && p in heap.cells && heap.cells[p].IsReset() && !Owns(L(), p)
      ensures OnlyAt(old(heap.cells), heap.cells, {p}) && (p in old(spare) || p !in old(heap.cells))
      ensures if old(spare) == [] then spare == [] && p !in old(heap.cells)
              else p == old(spare)[0] && spare == old(spare)[1..]
    {
      hide Linked, Holds, AllReset;
      ghost var cells, l := heap.cells, L();
      UnusedCell(cells, l);
      if unused.None? {
        OwnedCells(cells, l);
        p := heap.top;
        heap.cells, heap.top := heap.cells[p := NEW_CHUNK], heap.top + 1;
        assert !Owns(l, p);
        OnlyAtKeeps(cells, heap.cells, {p}, l);
      } else {
        p := unused.value;
        unused := heap.cells[p].next;
        heap.cells := heap.cells[p := heap.cells[p].(next := None)];
        PoppedUnused(cells, heap.cells, l, p);
        unusedChunks := unusedChunks - 1;
        spare := spare[1..];
      }
    }

    lemma UnusedCell(cells: Cells, l: Lists)
      requires SoundLists(cells, l)
      ensures l.unused.Some? <==> l.spare != []
      ensures l.unused.Some? ==> l.unused.value in cells && l.spare[0] == l.unused.value
    {
    }

    // chunkqueue_append_chunk
    method AppendChunk(p: Ptr)
      requires Sound() && p in heap.cells && heap.cells[p].Ok() && !Owns(L(), p)
      modifies heap`cells, this`first, this`last, this`bytesIn, this`ids, this`data
      ensures Sound() && ids == old(ids) + [p] && data == old(data) + [old(heap.cells[p].Data())]
      ensures bytesIn == old(bytesIn) + |old(heap.cells[p].Data())|
      ensures OnlyAt(old(heap.cells), heap.cells, {p} + set q | q in old(ids))
      ensures p in heap.cells && heap.cells[p] == old(heap.cells[p]).(next := None)
    {
      hide Linked, Holds, AllReset;
      ghost var cells, l := heap.cells, L();
      var length := heap.cells[p].Remaining();
      LastCell(cells, l);
      heap.cells := heap.cells[p := heap.cells[p].(next := None)];
      if last.Some? {
        heap.cells := heap.cells[last.value := heap.cells[last.value].(next := Some(p))];
      }
      Appended(cells, heap.cells, l, p);
      last := Some(p);
      if first.None? {
        first := Some(p);
      }
      bytesIn := bytesIn + length;
      ids, data := ids + [p], data + [cells[p].Data()];
    }

    lemma LastCell(cells: Cells, l: Lists)
      requires SoundLists(cells, l)
      ensures l.last.Some? ==> l.last.value in cells && l.last.value in l.ids
      ensures (l.first.None? <==> l.ids == []) && (l.first.None? <==> l.last.None?)
      ensures l.last == LastOf(l.ids)
    {
    }

    // chunkqueue_prepend_chunk
    method PrependChunk(p: Ptr)
      requires Sound() && p in heap.cells && heap.cells[p].Ok() && !Owns(L(), p)
      modifies heap`cells, this`first, this`last, this`bytesIn, this`ids, this`data
      ensures Sound() && ids == [p] + old(ids) && data == [old(heap.cells[p].Data())] + old(data)
      ensures bytesIn == old(bytesIn) + |old(heap.cells[p].Data())|
      ensures OnlyAt(old(heap.cells), heap.cells, {p})
    {
      hide Linked, Holds, AllReset;
      ghost var cells, l := heap.cells, L();
      var length := heap.cells[p].Remaining();
      heap.cells := heap.cells[p := heap.cells[p].(next := first)];
      Prepended(cells, heap.cells, l, p);
      first := Some(p);
      if last.None? {
        last := Some(p);
      }
      bytesIn := bytesIn + length;
      ids, data := [p] + ids, [cells[p].Data()] + data;
    }

    // Unlinking the first chunk, as the loops over finished chunks do.
    method TakeFirst() returns (p: Ptr)
      requires Sound() && first.Some?
      modifies this`first, this`last, this`ids, this`data
      ensures Sound() && old(ids) != [] && p == old(ids[0]) && ids == old(ids)[1..] && data == old(data)[1..]
      ensures old(data) != [] && old(Contents()) == old(data[0]) + Contents()
      ensures p in heap.cells && heap.cells[p].Ok() && heap.cells[p].Data() == old(data[0]) && !Owns(L(), p)
    {
      hide Linked, Holds, AllReset;
      LastCell(heap.cells, L());
      FirstTaken(heap.cells, L());
      p := first.value;
      first := heap.cells[p].next;
      if Some(p) == last {
        last := None;
      }
      ids, data := ids[1..], data[1..];
    }

    // The frame of an operation that took a chunk from the stack or made one, and used it.
    lemma UsedChunk(c1: Cells, l1: Lists, c2: Cells, l2: Lists, c3: Cells, l3: Lists, p: Ptr)
      requires OnlyAt(c1, c2, {p}) && (p in l1.spare || p !in c1) && (forall q :: q in l2.spare ==> q in l1.spare)
        && l2.ids == l1.ids
      requires OnlyAt(c2, c3, {p} + set q | q in l2.ids) && l3.spare == l2.spare
      requires forall q :: q in l3.ids ==> q == p || q in l2.ids
      ensures Framed(c1, l1, c3, l3)
    {
    }

    // A chunk with the given contents goes to the end of the queue.
    method AppendNew(c: Chunk) returns (p: Ptr)
      requires Sound() && c.Ok() && c.next == None
      modifies this, heap
      ensures Sound() && p !in old(ids) && ids == old(ids) + [p] && data == old(data) + [c.Data()]
      ensures bytesIn == old(bytesIn) + |c.Data()| && bytesOut == old(bytesOut)
      ensures p in heap.cells && heap.cells[p] == c
      ensures Framed(old(heap.cells), old(L()), heap.cells, L())
    {
      hide Linked, Holds, AllReset, Chunk.Ok, Chunk.Data;
      ghost var c1, l1 := heap.cells, L();
      p := GetUnused();
      ghost var c2, l2 := heap.cells, L();
      heap.cells := heap.cells[p := c];
      OnlyAtKeeps(c2, heap.cells, {p}, l2);
      AppendChunk(p);
      UsedChunk(c1, l1, c2, l2, heap.cells, L(), p);
      assert OnlyAt(c2, heap.cells, {p} + set q | q in l2.ids);
    }

    // chunkqueue_append_mem
    method AppendMem(mem: Bytes)
      requires Valid()
      modifies this, heap
      ensures Valid() && Contents() == old(Contents()) + mem
      ensures bytesIn == old(bytesIn) + |mem| && bytesOut == old(bytesOut)
      ensures Framed(old(heap.cells), old(L()), heap.cells, L())
    {
      if |mem| > 0 {
        var c := Chunk(false, mem, AlignSize(|mem| + 1), [], 0, 0, false, false, 0, None);
        var _ := AppendNew(c);
        ConcatAppend(old(data), [mem]);
        ConcatOne(mem);
        assert c.Data() == mem;
      }
    }

    // chunkqueue_append_file; an empty range appends nothing.
    method AppendFile(name: Bytes, start: nat, length: nat)
      requires Valid() && start + length <= |name|
      modifies this, heap
      ensures Valid() && Contents() == old(Contents()) + name[start..start + length]
      ensures bytesIn == old(bytesIn) + length && bytesOut == old(bytesOut)
      ensures Framed(old(heap.cells), old(L()), heap.cells, L())
    {
      if length > 0 {
        var c := Chunk(true, [], 0, name, start, length, false, false, 0, None);
        var _ := AppendNew(c);
        ConcatAppend(old(data), [c.Data()]);
        ConcatOne(c.Data());
      }
    }

    // chunkqueue_append_buffer: the memory of the buffer goes into the queue.
    method AppendBuffer(mem: Bytes, size: nat)
      requires Valid() && |mem| < size
      modifies this, heap
      ensures Valid() && Contents() == old(Contents()) + mem
      ensures bytesIn == old(bytesIn) + |mem| && bytesOut == old(bytesOut)
      ensures Framed(old(heap.cells), old(L()), heap.cells, L())
    {
      if |mem| > 0 {
        var c := Chunk(false, mem, size, [], 0, 0, false, false, 0, None);
        var _ := AppendNew(c);
        ConcatAppend(old(data), [mem]);
        ConcatOne(mem);
        assert c.Data() == mem;
      }
    }

    // chunkqueue_prepend_buffer
    method PrependBuffer(mem: Bytes, size: nat)
      requires Valid() && |mem| < size
      modifies this, heap
      ensures Valid() && Contents() == mem + old(Contents())
      ensures bytesIn == old(bytesIn) + |mem| && bytesOut == old(bytesOut)
      ensures Framed(old(heap.cells), old(L()), heap.cells, L())
    {
      hide Linked, Holds, AllReset;
      if |mem| > 0 {
        ghost var c1, l1 := heap.cells, L();
        var c := Chunk(false, mem, size, [], 0, 0, false, false, 0, None);
        var p := GetUnused();
        ghost var c2, l2 := heap.cells, L();
        heap.cells := heap.cells[p := c];
        OnlyAtKeeps(c2, heap.cells, {p}, l2);
        PrependChunk(p);
        assert OnlyAt(c2, heap.cells, {p} + set q | q in l2.ids);
        UsedChunk(c1, l1, c2, l2, heap.cells, L(), p);
        assert c.Data() == mem && ([mem] + l1.data)[1..] == l1.data;
      }
    }

    // chunkqueue_length: agrees with the accounting.
    method Length() returns (len: nat)
      requires Valid()
      ensures len == |Contents()| == bytesIn - bytesOut
    {
      len := 0;
      var c := first;
      ghost var k := 0;
      while c.Some?
        invariant k <= |ids| == |data| && c == At(ids, k) && len + |Concat(data[k..])| == |Concat(data)|
        decreases |ids| - k
      {
        assert ids[k] in ids && data[k..][1..] == data[k + 1..];
        len := len + heap.cells[c.value].Remaining();
        c := heap.cells[c.value].next;
        k := k + 1;
      }
    }

    // chunkqueue_reset
    method ResetQueue()
      requires Valid()
      modifies this, heap
      ensures Valid() && Contents() == [] && ids == [] && bytesIn == bytesOut == 0
      ensures Framed(old(heap.cells), old(L()), heap.cells, L())
    {
      hide Linked, Holds, AllReset;
      ghost var cells, l := heap.cells, L();
      while first.Some?
        invariant Sound() && Framed(cells, l, heap.cells, L())
        decreases |ids|
      {
        DropFirst(cells, l);
      }
      LastCell(heap.cells, L());
      NoChunks(heap.cells, L());
      bytesIn, bytesOut := 0, 0;
    }

    lemma NoChunks(cells: Cells, l: Lists)
      requires SoundLists(cells, l) && l.ids == []
      ensures l.data == [] && Concat(l.data) == []
    {
    }

    // The first chunk is finished: it goes to the unused ones.
    method DropFirst(ghost cells: Cells, ghost l: Lists)
      requires Sound() && first.Some? && Framed(cells, l, heap.cells, L())
      modifies heap`cells, this`first, this`last, this`ids, this`data, this`unused, this`unusedChunks, this`spare
      ensures Sound() && old(ids) != [] && ids == old(ids)[1..] && old(data) != [] && data == old(data)[1..]
      ensures old(Contents()) == old(data[0]) + Contents()
      ensures Framed(cells, l, heap.cells, L())
    {
      hide Linked, Holds, AllReset;
      ghost var c1, l1 := heap.cells, L();
      var p := TakeFirst();
      PushUnused(p);
      DroppedFrame(c1, l1, heap.cells, L(), p);
      FramedTrans(cells, l, c1, l1, heap.cells, L());
    }

    lemma DroppedFrame(c1: Cells, l1: Lists, c2: Cells, l2: Lists, p: Ptr)
      requires OnlyAt(c1, c2, {p}) && l1.ids != [] && p == l1.ids[0] && l2.ids == l1.ids[1..]
      requires l2.spare == l1.spare || l2.spare == [p] + l1.spare
      ensures Framed(c1, l1, c2, l2)
    {
      assert forall q :: q in l2.ids ==> q in l1.ids;
    }

    // More bytes of the first chunk have been taken: c->offset += n
    method AdvanceFirst(n: nat)
      requires Sound() && first.Some? && first.value in heap.cells && heap.cells[first.value].Ok()
      requires n <= heap.cells[first.value].Remaining()
      modifies heap`cells, this`data
      ensures Sound() && old(data) != [] && n <= |old(data[0])| && data == [old(data[0])[n..]] + old(data)[1..]
      ensures old(Contents()) == old(data[0])[..n] + Contents()
      ensures Framed(old(heap.cells), old(L()), heap.cells, L())
    {
      hide Linked, Holds, AllReset, Stacked;
      FirstCell(heap.cells, L());
      var c := heap.cells[first.value];
      var c' := c.(offset := c.offset + n);
      assert c'.Ok() && c'.Data() == c.Data()[n..];
      ReplaceFirst(c');
      assert old(data[0]) == old(data[0])[..n] + c'.Data();
    }

    method ReplaceFirst(c: Chunk)
      requires Sound() && first.Some? && first.value in heap.cells && c.Ok() && c.next == heap.cells[first.value].next
      modifies heap`cells, this`data
      ensures Sound() && old(data) != [] && data == [c.Data()] + old(data)[1..]
        && Contents() == c.Data() + Concat(old(data)[1..])
      ensures Framed(old(heap.cells), old(L()), heap.cells, L())
    {
      hide Linked, Holds, AllReset, Stacked, Chunk.Ok, Chunk.Data;
      FirstCell(heap.cells, L());
      Replaced(heap.cells, L(), 0, c);
      heap.cells := heap.cells[first.value := c];
      data := data[0 := c.Data()];
      assert data == [c.Data()] + old(data)[1..];
    }

    // The last chunk is replaced by one with the same link.
    method ReplaceLast(c: Chunk)
      requires Sound() && last.Some? && last.value in heap.cells && c.Ok() && c.next == heap.cells[last.value].next
      modifies heap`cells, this`data
      ensures Sound() && old(data) != [] && data == old(data)[..|old(data)| - 1] + [c.Data()]
      ensures old(Contents()) == Concat(old(data)[..|old(data)| - 1]) + old(data)[|old(data)| - 1]
      ensures Contents() == Concat(old(data)[..|old(data)| - 1]) + c.Data()
      ensures heap.cells == old(heap.cells)[last.value := c]
      ensures Framed(old(heap.cells), old(L()), heap.cells, L())
    {
      hide Linked, Holds, AllReset, Stacked, Chunk.Ok, Chunk.Data;
      LastData(heap.cells, L());
      Replaced(heap.cells, L(), |ids| - 1, c);
      heap.cells := heap.cells[last.value := c];
      data := data[|data| - 1 := c.Data()];
      assert data == old(data)[..|old(data)| - 1] + [c.Data()];
    }

    // Active chunk k, as a walk along the list meets it.
    lemma CellAt(k: nat)
      requires Sound() && k < |ids|
      ensures |data| == |ids| && ids[k] in heap.cells && heap.cells[ids[k]].Ok()
      ensures heap.cells[ids[k]].Data() == data[k] && heap.cells[ids[k]].next == At(ids, k + 1)
    {
    }

    // Bytes of chunk k have been taken: c->offset += n
    method AdvanceAt(p: Ptr, ghost k: nat, n: nat)
      requires Sound() && k < |ids| && ids[k] == p && k < |data| && n <= |data[k]|
      modifies heap`cells, this`data
      ensures Sound() && |data| == |old(data)| && data == old(data)[k := old(data[k])[n..]]
    {
      hide Linked, Holds, AllReset, Stacked;
      CellAt(k);
      var c := heap.cells[p];
      var c' := c.(offset := c.offset + n);
      assert c'.Ok() && c'.Data() == c.Data()[n..];
      Replaced(heap.cells, L(), k, c');
      heap.cells := heap.cells[p := c'];
      data := data[k := c'.Data()];
    }

    // The first chunk, as the loops look at it.
    lemma FirstCell(cells: Cells, l: Lists)
      requires SoundLists(cells, l) && l.first.Some?
      ensures l.ids != [] && l.data != [] && |l.ids| == |l.data| && l.first.value == l.ids[0]
      ensures l.first.value in cells && cells[l.first.value].Ok() && cells[l.first.value].Data() == l.data[0]
      ensures Concat(l.data) == l.data[0] + Concat(l.data[1..])
    {
    }

    // One turn of chunkqueue_mark_written: a finished chunk goes, an unfinished one
    // takes the rest.
    method MarkTurn(ghost cells: Cells, ghost l: Lists, written: nat) returns (written': nat, more: bool)
      requires Sound() && first.Some? && Framed(cells, l, heap.cells, L()) && written <= |Contents()|
      modifies heap`cells, this`first, this`last, this`ids, this`data, this`unused, this`unusedChunks, this`spare
      ensures Sound() && Framed(cells, l, heap.cells, L())
      ensures written' <= written && written' <= |Contents()| && Contents() == old(Contents())[written - written'..]
      ensures if more then |ids| < old(|ids|) else written' == 0 && |ids| == old(|ids|)
    {
      hide Linked, Holds, AllReset, Stacked;
      FirstCell(heap.cells, L());
      var length := heap.cells[first.value].Remaining();
      if written == 0 && length != 0 {
        written', more := 0, false;
      } else if written >= length {
        DropFirst(cells, l);
        written', more := written - length, true;
      } else {
        ghost var c1, l1 := heap.cells, L();
        AdvanceFirst(written);
        FramedTrans(cells, l, c1, l1, heap.cells, L());
        written', more := 0, false;
      }
    }

    // chunkqueue_mark_written
    method MarkWritten(len: nat)
      requires Valid() && len <= |Contents()|
      modifies this, heap
      ensures Valid() && Contents() == old(Contents())[len..]
      ensures bytesIn == old(bytesIn) && bytesOut == old(bytesOut) + len
      ensures Framed(old(heap.cells), old(L()), heap.cells, L())
    {
      hide SoundLists, Framed;
      ghost var cells, l, all := heap.cells, L(), Contents();
      SameFrame(cells, l);
      var written: nat, more := len, true;
      while first.Some? && more
        modifies heap`cells, this`first, this`last, this`ids, this`data, this`unused, this`unusedChunks, this`spare
        invariant Sound() && Framed(cells, l, heap.cells, L())
        invariant written <= len <= |all| && written <= |Contents()| && Contents() == all[len - written..]
        invariant !more ==> written == 0
        decreases |ids|, more
      {
        written, more := MarkTurn(cells, l, written);
      }
      LastCell(heap.cells, L());
      if first.None? {
        NoChunks(heap.cells, L());
      }
      bytesOut := bytesOut + len;
    }

    lemma SameFrame(cells: Cells, l: Lists)
      ensures Framed(cells, l, cells, l)
    {
    }

    // chunkqueue_remove_finished_chunks
    method RemoveFinished()
      requires Valid()
      modifies this, heap
      ensures Valid() && Contents() == old(Contents()) && bytesIn == old(bytesIn) && bytesOut == old(bytesOut)
      ensures data != [] ==> data[0] != []
      ensures Framed(old(heap.cells), old(L()), heap.cells, L())
    {
      hide Linked, Holds, AllReset, Stacked;
      ghost var cells, l := heap.cells, L();
      var more := true;
      while first.Some? && more
        modifies heap`cells, this`first, this`last, this`ids, this`data, this`unused, this`unusedChunks, this`spare
        invariant Sound() && Framed(cells, l, heap.cells, L()) && Contents() == old(Contents())
        invariant !more ==> data != [] && data[0] != []
        decreases |ids|, more
      {
        FirstCell(heap.cells, L());
        if heap.cells[first.value].Remaining() != 0 {
          more := false;
        } else {
          DropFirst(cells, l);
        }
      }
      LastCell(heap.cells, L());
      if first.None? {
        NoChunks(heap.cells, L());
      }
    }

    // The last chunk, when there is one.
    lemma LastData(cells: Cells, l: Lists)
      requires SoundLists(cells, l) && l.last.Some?
      ensures l.ids != [] && |l.ids| == |l.data| && l.last.value == l.ids[|l.ids| - 1]
      ensures l.last.value in cells && cells[l.last.value].Ok() && cells[l.last.value].Data() == l.data[|l.data| - 1]
    {
    }

    // The memory of the last chunk is made larger when it is unused or really small.
    method GrowLast(need: nat, alloc: nat)
      requires Valid() && last.Some? && last.value in heap.cells && heap.cells[last.value].Ok()
      modifies heap`cells, this`data
      ensures Valid() && Contents() == old(Contents())
      ensures last.value in heap.cells && heap.cells[last.value].Ok()
        && heap.cells[last.value].file == old(heap.cells[last.value].file)
      ensures Framed(old(heap.cells), old(L()), heap.cells, L())
    {
      hide Linked, Holds, AllReset, Stacked;
      LastData(heap.cells, L());
      var c := heap.cells[last.value];
      if !c.file {
        if c.mem == [] {
          c := c.(memSize := if alloc + 1 > c.memSize then AlignSize(alloc + 1) else c.memSize);
        } else if c.Space() < need && c.memSize <= 256 {
          var size := if |c.mem| + need < alloc then alloc else |c.mem| + need;
          var more := |c.mem| + 1 + (size - |c.mem|);
          c := c.(memSize := if more > c.memSize then AlignSize(more) else c.memSize);
        }
        assert c.Ok() && c.Data() == heap.cells[last.value].Data();
        ReplaceLast(c);
      }
    }

    // chunkqueue_get_memory: room for at least min_size bytes (or the default) at the end.
    method GetMemory(min_size: nat, alloc_size: nat) returns (have: nat)
      requires Valid()
      modifies this, heap
      ensures Valid() && Contents() == old(Contents()) && bytesIn == old(bytesIn) && bytesOut == old(bytesOut)
      ensures have >= if min_size == 0 then 1024 else min_size
      ensures last.Some? && last.value in heap.cells && !heap.cells[last.value].file
      ensures heap.cells[last.value].Ok() && heap.cells[last.value].Space() == have
      ensures Framed(old(heap.cells), old(L()), heap.cells, L())
    {
      hide SoundLists, Framed;
      SameFrame(heap.cells, L());
      var need := if min_size == 0 then 1024 else min_size;
      var alloc := if alloc_size == 0 then 4096 else alloc_size;
      alloc := if alloc < need then need else alloc;
      if last.Some? {
        LastData(heap.cells, L());
        GrowLast(need, alloc);
        var c := heap.cells[last.value];
        if !c.file && c.Space() >= need {
          return c.Space();
        }
      }
      ghost var c1, l1 := heap.cells, L();
      var c := NEW_CHUNK.(memSize := AlignSize(alloc + 1));
      var p := AppendNew(c);
      ConcatAppend(l1.data, [c.Data()]);
      ConcatOne(c.Data());
      FramedTrans(old(heap.cells), old(L()), c1, l1, heap.cells, L());
      LastCell(heap.cells, L());
      LastData(heap.cells, L());
      have := c.Space();
    }

    // chunkqueue_use_memory, after bytes have been stored in the room at the end.
    method UseMemory(bytes: Bytes)
      requires Valid() && last.Some? && last.value in heap.cells && heap.cells[last.value].Ok()
      requires !heap.cells[last.value].file && |bytes| <= heap.cells[last.value].Space()
      modifies this, heap
      ensures Valid() && Contents() == old(Contents()) + bytes
      ensures bytesIn == old(bytesIn) + |bytes| && bytesOut == old(bytesOut)
      ensures Framed(old(heap.cells), old(L()), heap.cells, L())
    {
      hide Linked, Holds, AllReset, Stacked;
      LastData(heap.cells, L());
      var c := heap.cells[last.value];
      if |bytes| > 0 {
        var c' := c.(mem := c.mem + bytes);
        assert c'.Ok() && c'.Data() == c.Data() + bytes;
        ReplaceLast(c');
        bytesIn := bytesIn + |bytes|;
      } else if c.mem == [] {
        var c' := c.(memSize := if c.memSize > BUFFER_MAX_REUSE_SIZE then 0 else c.memSize);
        ReplaceLast(c');
      }
    }

    // chunkqueue_append_chunkqueue: src hands over all its chunks.
    method AppendQueue(src: Queue)
      requires Pair(this, src)
      modifies this, src, heap
      ensures Pair(this, src) && Contents() == old(Contents()) + old(src.Contents()) && src.Contents() == []
      ensures bytesIn == old(bytesIn) + |old(src.Contents())| && bytesOut == old(bytesOut)
      ensures src.bytesIn == src.bytesOut == old(src.bytesIn)
    {
      hide SoundLists, Disjoint, Concat, LastOf;
      LastCell(heap.cells, L());
      LastCell(heap.cells, src.L());
      ConcatAppend(data, src.data);
      if src.first.None? {
        src.NoChunks(heap.cells, src.L());
        return;
      }
      ghost var cells, l, m := heap.cells, L(), src.L();
      if first.None? {
        first := src.first;
      } else {
        heap.cells := heap.cells[last.value := heap.cells[last.value].(next := src.first)];
      }
      assert heap.Valid();
      Joined(cells, heap.cells, l, m);
      last := src.last;
      bytesIn := bytesIn + (src.bytesIn - src.bytesOut);
      src.first, src.last := None, None;
      src.bytesOut := src.bytesIn;
      ids, data := ids + src.ids, data + src.data;
      src.ids, src.data := [], [];
      assert L() == l.(first := if l.first.None? then m.first else l.first, last := m.last,
                       ids := l.ids + m.ids, data := l.data + m.data);
      assert src.L() == m.(first := None, last := None, ids := [], data := []);
      assert SoundLists(heap.cells, L()) && SoundLists(heap.cells, src.L()) && Disjoint(L(), src.L());
      src.NoChunks(heap.cells, src.L());
      assert src.Valid();
    }

    // chunkqueue_append_mem_to_tempfile when all writes succeed, possibly in pieces:
    // call k of write() takes at most splits[k] bytes, later ones everything.
    method AppendMemToTempfile(mem: Bytes, splits: seq<nat>, uploadTempFileSize: nat)
      requires Valid()
      modifies this, heap
      ensures Valid() && Contents() == old(Contents()) + mem
      ensures bytesIn == old(bytesIn) + |mem| && bytesOut == old(bytesOut)
      ensures Framed(old(heap.cells), old(L()), heap.cells, L())
    {
      hide SoundLists, Framed;
      ghost var cells, l := heap.cells, L();
      SameFrame(cells, l);
      var done: nat, k: nat := 0, 0;
      while true
        invariant Valid() && Framed(cells, l, heap.cells, L())
        invariant done <= |mem| && Contents() == old(Contents()) + mem[..done]
        invariant bytesIn == old(bytesIn) + done && bytesOut == old(bytesOut)
        decreases |splits| - k
      {
        var left := |mem| - done;
        var written := if k < |splits| && splits[k] < left then splits[k] else left;
        ghost var c1, l1 := heap.cells, L();
        TempfileWrite(mem[done..done + written], uploadTempFileSize);
        FramedTrans(cells, l, c1, l1, heap.cells, L());
        assert mem[..done] + mem[done..done + written] == mem[..done + written];
        done := done + written;
        if written == left {
          assert mem[..done] == mem;
          return;
        }
        k := k + 1;
      }
    }

    // The last chunk takes the bytes if it is an open tempfile that is not too large and
    // not read yet; otherwise there will be a new one.
    method TempfileWrite(mem: Bytes, uploadTempFileSize: nat)
      requires Valid()
      modifies this, heap
      ensures Valid() && Contents() == old(Contents()) + mem
      ensures bytesIn == old(bytesIn) + |mem| && bytesOut == old(bytesOut)
      ensures Framed(old(heap.cells), old(L()), heap.cells, L())
    {
      hide SoundLists, Framed, Concat;
      ghost var cells, l := heap.cells, L();
      SameFrame(cells, l);
      var reuse := false;
      if last.Some? {
        LastData(heap.cells, L());
        var c := heap.cells[last.value];
        if c.file && c.isTemp && c.fdOpen && c.offset == 0 {
          if c.length >= uploadTempFileSize {
            ReplaceLast(c.(fdOpen := false));
          } else {
            reuse := true;
          }
        }
      }
      if !reuse {
        ghost var c1, l1 := heap.cells, L();
        NewTempfile();
        FramedTrans(cells, l, c1, l1, heap.cells, L());
      }
      ghost var c1, l1 := heap.cells, L();
      WriteLast(mem);
      FramedTrans(cells, l, c1, l1, heap.cells, L());
    }

    // chunkqueue_get_append_tempfile
    method NewTempfile()
      requires Valid()
      modifies this, heap
      ensures Valid() && Contents() == old(Contents()) && bytesIn == old(bytesIn) && bytesOut == old(bytesOut)
      ensures last.Some? && last.value in heap.cells
      ensures heap.cells[last.value] == Chunk(true, [], 0, [], 0, 0, true, true, 0, None)
      ensures Framed(old(heap.cells), old(L()), heap.cells, L())
    {
      hide SoundLists, Framed, Concat;
      var c := Chunk(true, [], 0, [], 0, 0, true, true, 0, None);
      ghost var before := data;
      var _ := AppendNew(c);
      ConcatAppend(before, [c.Data()]);
      ConcatOne(c.Data());
      assert c.Data() == [];
      LastCell(heap.cells, L());
    }

    // write() on the tempfile that is the last chunk.
    method WriteLast(mem: Bytes)
      requires Valid() && last.Some? && last.value in heap.cells && heap.cells[last.value].Ok()
      requires heap.cells[last.value].file && heap.cells[last.value].isTemp && heap.cells[last.value].fdOpen
        && heap.cells[last.value].offset == 0
      modifies heap`cells, this`data, this`bytesIn
      ensures Valid() && Contents() == old(Contents()) + mem && bytesIn == old(bytesIn) + |mem|
      ensures Framed(old(heap.cells), old(L()), heap.cells, L())
    {
      hide SoundLists, Framed;
      LastData(heap.cells, L());
      var c := heap.cells[last.value];
      var c' := c.(name := c.name + mem, length := c.length + |mem|);
      assert c'.Ok() && c'.Data() == c.Data() + mem;
      ReplaceLast(c');
      bytesIn := bytesIn + |mem|;
    }
  }

  // Two queues that share the store but no chunks.
  ghost predicate Pair(q: Queue, r: Queue)
    reads q, r, q.heap, r.heap
  {
    q != r && q.heap == r.heap && q.Valid() && r.Valid() && Disjoint(q.L(), r.L())
  }

  // ---- stealing ----

  function Min(a: nat, b: nat): nat {
    if a < b then a else b
  }

  lemma DisjointSwap(l: Lists, m: Lists)
    requires Disjoint(l, m)
    ensures Disjoint(m, l)
  {
    forall p | Owns(m, p)
      ensures !Owns(l, p)
    {
    }
  }

  // The chunk p has moved from src to the end of dest.
  lemma Moved(c1: Cells, c2: Cells, d1: Lists, d2: Lists, s1: Lists, s2: Lists, p: Ptr)
    requires Disjoint(d1, s1) && s1.ids != [] && p == s1.ids[0] && s2.ids == s1.ids[1..] && s2.spare == s1.spare
    requires SoundLists(c1, s2) && !Owns(s2, p) && OnlyAt(c1, c2, {p} + set q | q in d1.ids)
    requires d2.ids == d1.ids + [p] && d2.spare == d1.spare
    ensures SoundLists(c2, s2) && Disjoint(d2, s2)
  {
    hide SoundLists;
    forall q | Owns(s2, q)
      ensures Owns(s1, q) && q != p && !Owns(d1, q)
    {
      assert q in s2.ids ==> q in s1.ids;
    }
    KeepsAll(c1, c2, {p} + (set q | q in d1.ids), s2);
    forall q | Owns(d2, q)
      ensures !Owns(s2, q)
    {
      assert q == p || Owns(d1, q);
    }
  }

  lemma KeepsAll(cells: Cells, cells': Cells, changed: set<Ptr>, l: Lists)
    requires SoundLists(cells, l) && OnlyAt(cells, cells', changed) && forall p :: Owns(l, p) ==> p !in changed
    ensures SoundLists(cells', l)
  {
    hide Active, Stacked;
    assert forall p :: p in changed ==> !Owns(l, p);
    OnlyAtKeeps(cells, cells', changed, l);
  }

  // The first chunk of src goes to the end of dest as it is.
  method MoveFirst(dest: Queue, src: Queue)
    requires Pair(dest, src) && src.first.Some?
    modifies dest, src, dest.heap
    ensures old(src.data) != [] && Pair(dest, src)
    ensures dest.Contents() == old(dest.Contents()) + old(src.data[0])
      && old(src.Contents()) == old(src.data[0]) + src.Contents()
    ensures dest.bytesIn == old(dest.bytesIn) + |old(src.data[0])| && dest.bytesOut == old(dest.bytesOut)
    ensures src.bytesIn == old(src.bytesIn) && src.bytesOut == old(src.bytesOut) + |old(src.data[0])|
    ensures |src.ids| < old(|src.ids|)
  {
    hide SoundLists, Disjoint, Concat;
    ghost var c1, d1, s1 := dest.heap.cells, dest.L(), src.L();
    src.FirstCell(c1, s1);
    var use := src.heap.cells[src.first.value].Remaining();
    var p := src.TakeFirst();
    NotOwned(d1, s1, p);
    dest.AppendChunk(p);
    Moved(c1, dest.heap.cells, d1, dest.L(), s1, src.L(), p);
    src.bytesOut := src.bytesOut + use;
    ConcatAppend(d1.data, [s1.data[0]]);
    ConcatOne(s1.data[0]);
  }

  lemma NotOwned(d: Lists, s: Lists, p: Ptr)
    requires Disjoint(d, s) && s.ids != [] && p == s.ids[0]
    ensures !Owns(d, p)
  {
    assert Owns(s, p);
  }

  lemma PartOfSlice(s: Bytes, a: nat, b: nat, n: nat)
    requires a + n <= b <= |s|
    ensures s[a..a + n] == s[a..b][..n] && s[a..|s|] == s[a..]
  {
  }

  // The first use bytes of the first chunk of src, which are not all of it, go to dest.
  method SplitFirst(dest: Queue, src: Queue, use: nat)
    requires Pair(dest, src) && src.first.Some? && src.first.value in src.heap.cells
      && src.heap.cells[src.first.value].Ok()
    requires use < src.heap.cells[src.first.value].Remaining()
    modifies dest, src, dest.heap
    ensures Pair(dest, src) && use <= |old(src.Contents())|
    ensures dest.Contents() == old(dest.Contents()) + old(src.Contents())[..use]
      && src.Contents() == old(src.Contents())[use..]
    ensures dest.bytesIn == old(dest.bytesIn) + use && dest.bytesOut == old(dest.bytesOut)
    ensures src.bytesIn == old(src.bytesIn) && src.bytesOut == old(src.bytesOut) + use
  {
    hide SoundLists, Disjoint, Concat, Framed;
    ghost var c1, d1, s1 := dest.heap.cells, dest.L(), src.L();
    src.FirstCell(c1, s1);
    var c := src.heap.cells[src.first.value];
    if c.file {
      PartOfSlice(c.name, c.start + c.offset, c.start + c.length, use);
      dest.AppendFile(c.name, c.start + c.offset, use);
    } else {
      PartOfSlice(c.mem, c.offset, |c.mem|, use);
      dest.AppendMem(c.mem[c.offset..c.offset + use]);
    }
    OtherUntouched(dest, src, c1, d1, s1);
    AdvanceSource(dest, src, use);
    assert s1.data[0][..use] == Concat(s1.data)[..use];
  }

  // The source advances; the destination does not notice.
  method AdvanceSource(dest: Queue, src: Queue, use: nat)
    requires dest != src && dest.heap == src.heap && dest.Valid() && src.Valid() && Disjoint(dest.L(), src.L())
    requires src.first.Some? && src.first.value in src.heap.cells && src.heap.cells[src.first.value].Ok()
    requires use <= src.heap.cells[src.first.value].Remaining()
    modifies src, src.heap
    ensures Pair(dest, src) && dest.Contents() == old(dest.Contents()) && use <= |old(src.Contents())|
    ensures src.Contents() == old(src.Contents())[use..]
    ensures src.bytesIn == old(src.bytesIn) && src.bytesOut == old(src.bytesOut) + use
  {
    hide SoundLists, Disjoint, Concat, Framed;
    ghost var c2, d2, s2 := dest.heap.cells, dest.L(), src.L();
    DisjointSwap(d2, s2);
    src.AdvanceFirst(use);
    src.bytesOut := src.bytesOut + use;
    OtherUntouched(src, dest, c2, s2, d2);
    DisjointSwap(src.L(), d2);
  }

  lemma OtherUntouched(q: Queue, r: Queue, cells: Cells, l: Lists, m: Lists)
    requires q != r && q.heap == r.heap && q.Sound() && r.L() == m && Framed(cells, l, q.heap.cells, q.L())
    requires SoundLists(cells, m) && Disjoint(l, m)
    ensures SoundLists(q.heap.cells, r.L()) && Disjoint(q.L(), r.L())
    ensures m.first.Some? ==>
      m.first.value in cells && m.first.value in q.heap.cells && q.heap.cells[m.first.value] == cells[m.first.value]
  {
    FramedOther(cells, l, q.heap.cells, q.L(), m);
    if m.first.Some? {
      assert m.first.value == m.ids[0] && m.ids[0] in m.ids && Owns(m, m.ids[0]);
      assert !Owns(l, m.ids[0]);
    }
  }

  // The bytes moved so far are the first bytes of src.
  ghost predicate Stolen(dest: Queue, src: Queue, d: Bytes, s: Bytes, n: nat)
    reads dest, src
  {
    n <= |s| && dest.Contents() == d + s[..n] && src.Contents() == s[n..]
  }

  lemma StolenMore(d: Bytes, s: Bytes, n: nat, k: nat)
    requires n + k <= |s|
    ensures d + s[..n] + s[n..][..k] == d + s[..n + k] && s[n..][k..] == s[n + k..]
  {
    assert s[..n + k] == s[..n] + s[n..][..k];
  }

  // One turn of chunkqueue_steal with the given number of bytes to go.
  method StealTurn(dest: Queue, src: Queue, len: nat) returns (use: nat)
    requires Pair(dest, src) && src.first.Some? && len > 0
    modifies dest, src, dest.heap
    ensures Pair(dest, src) && use <= len && use <= |old(src.Contents())|
    ensures dest.Contents() == old(dest.Contents()) + old(src.Contents())[..use]
      && src.Contents() == old(src.Contents())[use..]
    ensures dest.bytesIn == old(dest.bytesIn) + use && src.bytesOut == old(src.bytesOut) + use
    ensures use > 0 || |src.ids| < old(|src.ids|)
  {
    hide SoundLists, Disjoint, Concat, Framed;
    ghost var cells, d, s := dest.heap.cells, dest.L(), src.L();
    src.FirstCell(cells, s);
    var length := src.heap.cells[src.first.value].Remaining();
    if length == 0 {
      DropEmpty(dest, src);
      use := 0;
    } else {
      use := if len >= length then length else len;
      if use == length {
        assert s.data[0] == Concat(s.data)[..use];
        MoveFirst(dest, src);
      } else {
        SplitFirst(dest, src, use);
      }
    }
  }

  // An empty chunk is dropped.
  method DropEmpty(dest: Queue, src: Queue)
    requires Pair(dest, src) && src.first.Some? && src.data != [] && src.data[0] == []
    modifies src, src.heap
    ensures Pair(dest, src) && dest.Contents() == old(dest.Contents()) && src.Contents() == old(src.Contents())
    ensures src.bytesIn == old(src.bytesIn) && src.bytesOut == old(src.bytesOut) && |src.ids| < old(|src.ids|)
  {
    hide SoundLists, Disjoint, Concat, Framed;
    ghost var cells, d, s := dest.heap.cells, dest.L(), src.L();
    DisjointSwap(d, s);
    src.SameFrame(cells, s);
    src.DropFirst(cells, s);
    OtherUntouched(src, dest, cells, s, d);
    DisjointSwap(src.L(), d);
  }

  // chunkqueue_steal: exactly the first bytes move, as many as asked for and there are.
  method Steal(dest: Queue, src: Queue, len: nat)
    requires Pair(dest, src)
    modifies dest, src, dest.heap
    ensures Pair(dest, src)
    ensures var n := Min(len, |old(src.Contents())|);
            && dest.Contents() == old(dest.Contents()) + old(src.Contents())[..n]
            && src.Contents() == old(src.Contents())[n..]
            && dest.bytesIn == old(dest.bytesIn) + n && src.bytesOut == old(src.bytesOut) + n
  {
    hide SoundLists, Disjoint, Concat, Framed;
    ghost var d, s := dest.Contents(), src.Contents();
    var left: nat := len;
    assert d + s[..0] == d && s[0..] == s;
    while left > 0 && src.first.Some?
      invariant Pair(dest, src) && left <= len && Stolen(dest, src, d, s, len - left)
      invariant dest.bytesIn == old(dest.bytesIn) + (len - left) && src.bytesOut == old(src.bytesOut) + (len - left)
      decreases left, |src.ids|
    {
      var use := StealTurn(dest, src, left);
      StolenMore(d, s, len - left, use);
      left := left - use;
    }
    src.LastCell(src.heap.cells, src.L());
    if src.first.None? {
      src.NoChunks(src.heap.cells, src.L());
    }
  }

  // One turn of chunkqueue_steal_with_tempfiles: memory goes through a tempfile.
  method StealTempTurn(dest: Queue, src: Queue, len: nat, splits: seq<nat>, uploadTempFileSize: nat) returns (use: nat)
    requires Pair(dest, src) && src.first.Some? && len > 0
    modifies dest, src, dest.heap
    ensures Pair(dest, src) && use <= len && use <= |old(src.Contents())|
    ensures dest.Contents() == old(dest.Contents()) + old(src.Contents())[..use]
      && src.Contents() == old(src.Contents())[use..]
    ensures dest.bytesIn == old(dest.bytesIn) + use && src.bytesOut == old(src.bytesOut) + use
    ensures use > 0 || |src.ids| < old(|src.ids|)
  {
    hide SoundLists, Disjoint, Concat, Framed;
    ghost var s := src.L();
    src.FirstCell(dest.heap.cells, s);
    var c := src.heap.cells[src.first.value];
    var length := c.Remaining();
    if length == 0 {
      DropEmpty(dest, src);
      use := 0;
    } else {
      use := if len >= length then length else len;
      if c.file {
        if use == length {
          assert s.data[0] == Concat(s.data)[..use];
          MoveFirst(dest, src);
        } else {
          SplitFirst(dest, src, use);
        }
      } else {
        CopyFirst(dest, src, use, splits, uploadTempFileSize);
      }
    }
  }

  // The first use bytes of a memory chunk are stored in a tempfile of dest.
  method CopyFirst(dest: Queue, src: Queue, use: nat, splits: seq<nat>, uploadTempFileSize: nat)
    requires Pair(dest, src) && src.first.Some? && src.first.value in src.heap.cells
      && src.heap.cells[src.first.value].Ok()
    requires !src.heap.cells[src.first.value].file && use <= src.heap.cells[src.first.value].Remaining()
    modifies dest, src, dest.heap
    ensures Pair(dest, src) && use <= |old(src.Contents())|
    ensures dest.Contents() == old(dest.Contents()) + old(src.Contents())[..use]
      && src.Contents() == old(src.Contents())[use..]
    ensures dest.bytesIn == old(dest.bytesIn) + use && src.bytesOut == old(src.bytesOut) + use
  {
    hide SoundLists, Disjoint, Concat, Framed;
    ghost var c1, d1, s1 := dest.heap.cells, dest.L(), src.L();
    src.FirstCell(c1, s1);
    var c := src.heap.cells[src.first.value];
    PartOfSlice(c.mem, c.offset, |c.mem|, use);
    dest.AppendMemToTempfile(c.mem[c.offset..c.offset + use], splits, uploadTempFileSize);
    OtherUntouched(dest, src, c1, d1, s1);
    assert s1.data[0][..use] == Concat(s1.data)[..use];
    if use == c.Remaining() {
      FinishFirst(dest, src, use);
    } else {
      AdvanceSource(dest, src, use);
    }
  }

  // All of the first chunk has been used: it is dropped.
  method FinishFirst(dest: Queue, src: Queue, use: nat)
    requires Pair(dest, src) && src.first.Some? && src.data != [] && |src.data[0]| == use
    modifies src, src.heap
    ensures Pair(dest, src) && dest.Contents() == old(dest.Contents()) && use <= |old(src.Contents())|
    ensures src.Contents() == old(src.Contents())[use..]
    ensures src.bytesIn == old(src.bytesIn) && src.bytesOut == old(src.bytesOut) + use
  {
    hide SoundLists, Disjoint, Concat, Framed;
    ghost var cells, d, s := dest.heap.cells, dest.L(), src.L();
    DisjointSwap(d, s);
    src.SameFrame(cells, s);
    src.DropFirst(cells, s);
    src.bytesOut := src.bytesOut + use;
    OtherUntouched(src, dest, cells, s, d);
    DisjointSwap(src.L(), d);
  }

  // chunkqueue_steal_with_tempfiles when all writes succeed.
  method StealWithTempfiles(dest: Queue, src: Queue, len: nat, splits: seq<nat>, uploadTempFileSize: nat)
    requires Pair(dest, src)
    modifies dest, src, dest.heap
    ensures Pair(dest, src)
    ensures var n := Min(len, |old(src.Contents())|);
            && dest.Contents() == old(dest.Contents()) + old(src.Contents())[..n]
            && src.Contents() == old(src.Contents())[n..]
            && dest.bytesIn == old(dest.bytesIn) + n && src.bytesOut == old(src.bytesOut) + n
  {
    hide SoundLists, Disjoint, Concat, Framed;
    ghost var d, s := dest.Contents(), src.Contents();
    var left: nat := len;
    assert d + s[..0] == d && s[0..] == s;
    while left > 0 && src.first.Some?
      invariant Pair(dest, src) && left <= len && Stolen(dest, src, d, s, len - left)
      invariant dest.bytesIn == old(dest.bytesIn) + (len - left) && src.bytesOut == old(src.bytesOut) + (len - left)
      decreases left, |src.ids|
    {
      var use := StealTempTurn(dest, src, left, splits, uploadTempFileSize);
      StolenMore(d, s, len - left, use);
      left := left - use;
    }
    src.LastCell(src.heap.cells, src.L());
    if src.first.None? {
      src.NoChunks(src.heap.cells, src.L());
    }
  }
}
