// The condition cache of configfile-glue.c: every configuration block has a condition,
// nested blocks and else-branches form a forest, and the four-valued result of each
// condition is cached per connection and cleared piecewise.

module CondCache {
  import opened Wrappers

  datatype Result = UNSET | SKIP | FALSE | TRUE

  // data_config: comp is the attribute the condition looks at; block 0 is the global one.
  datatype Block = Block(comp: nat, parent: nat, prev: Option<nat>, next: Option<nat>, children: seq<nat>)

  // What the configuration parser builds: blocks are numbered so that parents and
  // earlier branches come first, and the links are mutually inverse.
  ghost predicate BlockOk(blocks: seq<Block>, n: nat)
    requires n < |blocks|
  {
    var b := blocks[n];
    && (n > 0 ==> b.parent < n && n in blocks[b.parent].children)
    && (forall c :: c in b.children ==> n < c < |blocks| && blocks[c].parent == n)
    && (b.prev.Some? ==>
      0 < b.prev.value < n && blocks[b.prev.value].parent == b.parent && blocks[b.prev.value].next == Some(n))
    && (b.next.Some? ==> 0 < n < b.next.value < |blocks| && blocks[b.next.value].prev == Some(n))
  }

  ghost predicate Forest(blocks: seq<Block>) {
    |blocks| > 0 && forall n :: 0 <= n < |blocks| ==> BlockOk(blocks, n)
  }

  // The blocks that block n asks first.
  predicate Asks(blocks: seq<Block>, n: nat, d: nat) {
    n < |blocks| && 0 < d < n && (d == blocks[n].parent || blocks[n].prev == Some(d))
  }

  // m is n, or depends on it.
  predicate Under(blocks: seq<Block>, m: nat, n: nat)
    decreases m
  {
    m == n || exists d :: 0 <= d < m && Asks(blocks, m, d) && Under(blocks, d, n)
  }

  // m looks at attribute item, or depends on a block that does.
  predicate LooksAt(blocks: seq<Block>, m: nat, item: nat)
    decreases m
  {
    m < |blocks| && (blocks[m].comp == item || exists d :: 0 <= d < m && Asks(blocks, m, d) && LooksAt(blocks, d, item))
  }

  // ---- the uncached evaluation ----

  // Attributes of the connection, and the conditions.
  datatype World = World(blocks: seq<Block>, holds: (nat, string) -> bool, attr: nat -> string, valid: set<nat>)

  function LocalResult(w: World, n: nat): Result
    requires n < |w.blocks|
  {
    if w.holds(n, w.attr(w.blocks[n].comp)) then TRUE else FALSE
  }

  // The block's own condition, once its attribute is known.
  function OwnResult(w: World, n: nat): Result
    requires n < |w.blocks|
  {
    if w.blocks[n].comp in w.valid then LocalResult(w, n) else UNSET
  }

  // What an else-branch makes of the result of the branch before it.
  function AfterPrev(prev: Result, own: Result): Result {
    match prev
    case UNSET => UNSET
    case FALSE => own
    case _ => SKIP
  }

  function AfterParent(parent: Result, rest: Result): Result {
    match parent
    case UNSET => UNSET
    case TRUE => rest
    case _ => SKIP
  }

  function Eval(w: World, n: nat): Result
    requires Forest(w.blocks) && n < |w.blocks|
    decreases n
  {
    assert BlockOk(w.blocks, n);
    var b := w.blocks[n];
    var own := OwnResult(w, n);
    var branch := if b.prev.Some? then AfterPrev(Eval(w, b.prev.value), own) else own;
    if n > 0 && b.parent > 0 then AfterParent(Eval(w, b.parent), branch) else branch
  }

  // A block is used if and only if its condition is known to hold, the block around it, if there
  // is one, is used too, and the branch before it, if there is one, has failed. It has failed if
  // in the same place the condition is known not to hold; and it is skipped if the block around
  // it has failed or is skipped, or the branch before it is used or is skipped.
  lemma EvalMeans(w: World, n: nat)
    requires Forest(w.blocks) && 0 < n < |w.blocks|
    ensures BlockOk(w.blocks, n)
    ensures var b := w.blocks[n];
            var known, around := b.comp in w.valid, if b.parent > 0 then Eval(w, b.parent) else TRUE;
            var before := if b.prev.Some? then Eval(w, b.prev.value) else FALSE;
            && (Eval(w, n) == TRUE <==> known && w.holds(n, w.attr(b.comp)) && around == TRUE && before == FALSE)
            && (Eval(w, n) == FALSE <==> known && !w.holds(n, w.attr(b.comp)) && around == TRUE && before == FALSE)
            && (Eval(w, n) == SKIP <==>
                  around == FALSE || around == SKIP || (around == TRUE && (before == TRUE || before == SKIP)))
  {
    assert BlockOk(w.blocks, n);
  }

  // Block m is an earlier branch of the if/else chain of n.
  predicate Earlier(blocks: seq<Block>, m: nat, n: nat): (r: bool)
    ensures r ==> m < n < |blocks|
    decreases n
  {
    && n < |blocks| && blocks[n].prev.Some? && blocks[n].prev.value < n
    && (blocks[n].prev == Some(m) || Earlier(blocks, m, blocks[n].prev.value))
  }

  // The branches of a chain are in the same block, and behind one that is used all are skipped.
  lemma {:induction false} ChainSkips(w: World, m: nat, n: nat)
    requires Forest(w.blocks) && Earlier(w.blocks, m, n)
    ensures 0 < m && w.blocks[m].parent == w.blocks[n].parent
    ensures Eval(w, m) == TRUE ==> Eval(w, n) == SKIP
    ensures Eval(w, n) == TRUE || Eval(w, n) == FALSE ==> Eval(w, m) == FALSE
    decreases n
  {
    assert BlockOk(w.blocks, n);
    EvalMeans(w, n);
    var prev := w.blocks[n].prev.value;
    EvalMeans(w, prev);
    if prev != m {
      ChainSkips(w, m, prev);
    }
  }

  // Where all conditions of a chain are known, the branch that is used is the first that holds.
  lemma {:induction false} FirstThatHolds(w: World, n: nat)
    requires Forest(w.blocks) && 0 < n < |w.blocks| && w.blocks[n].comp in w.valid
    requires w.blocks[n].parent == 0 || (w.blocks[n].parent < n && Eval(w, w.blocks[n].parent) == TRUE)
    requires forall m: nat :: Earlier(w.blocks, m, n) ==> w.blocks[m].comp in w.valid
    ensures Eval(w, n) == TRUE <==>
            w.holds(n, w.attr(w.blocks[n].comp))
            && forall m: nat :: Earlier(w.blocks, m, n) ==> !w.holds(m, w.attr(w.blocks[m].comp))
    ensures Eval(w, n) == FALSE <==>
            !w.holds(n, w.attr(w.blocks[n].comp))
            && forall m: nat :: Earlier(w.blocks, m, n) ==> !w.holds(m, w.attr(w.blocks[m].comp))
    decreases n
  {
    EvalMeans(w, n);
    if w.blocks[n].prev.Some? {
      var prev := w.blocks[n].prev.value;
      assert BlockOk(w.blocks, prev);
      assert Earlier(w.blocks, prev, n);
      assert forall m: nat :: Earlier(w.blocks, m, n) <==> m == prev || Earlier(w.blocks, m, prev);
      FirstThatHolds(w, prev);
    }
  }

  // A result depends only on the attributes the block looks at.
  lemma {:induction false} EvalFrame(w: World, w': World, n: nat, stale: set<nat>)
    requires Forest(w.blocks) && n < |w.blocks| && w'.blocks == w.blocks && w'.holds == w.holds && w'.valid == w.valid
    requires forall k :: k !in stale ==> w'.attr(k) == w.attr(k)
    requires forall k :: k in stale ==> !LooksAt(w.blocks, n, k)
    ensures Eval(w', n) == Eval(w, n)
    decreases n
  {
    assert BlockOk(w.blocks, n);
    var b := w.blocks[n];
    if b.prev.Some? {
      assert Asks(w.blocks, n, b.prev.value);
      EvalFrame(w, w', b.prev.value, stale);
    }
    if n > 0 && b.parent > 0 {
      assert Asks(w.blocks, n, b.parent);
      EvalFrame(w, w', b.parent, stale);
    }
  }

  // An attribute that becomes available changes no decided result.
  lemma {:induction false} EvalMonotone(w: World, w': World, n: nat)
    requires Forest(w.blocks) && n < |w.blocks| && w'.blocks == w.blocks && w'.holds == w.holds && w.valid <= w'.valid
    requires forall k :: k in w.valid ==> w'.attr(k) == w.attr(k)
    requires Eval(w, n) != UNSET
    ensures Eval(w', n) == Eval(w, n)
    decreases n
  {
    assert BlockOk(w.blocks, n);
    var b := w.blocks[n];
    if b.prev.Some? && Eval(w, b.prev.value) != UNSET {
      EvalMonotone(w, w', b.prev.value);
    }
    if n > 0 && b.parent > 0 {
      EvalMonotone(w, w', b.parent);
    }
  }

  // ---- dependence ----

  lemma {:induction false} UnderFromBelow(blocks: seq<Block>, m: nat, n: nat)
    requires Under(blocks, m, n)
    ensures n <= m
  {
    if m != n {
      var d :| 0 <= d < m && Asks(blocks, m, d) && Under(blocks, d, n);
      UnderFromBelow(blocks, d, n);
    }
  }

  lemma {:induction false} UnderTrans(blocks: seq<Block>, m: nat, k: nat, n: nat)
    requires Under(blocks, m, k) && Under(blocks, k, n)
    ensures Under(blocks, m, n)
  {
    if m != k {
      var d :| 0 <= d < m && Asks(blocks, m, d) && Under(blocks, d, k);
      UnderTrans(blocks, d, k, n);
    }
  }

  // The blocks config_cond_clear_node descends to: children that start a chain, and
  // the next branch.
  predicate Entry(blocks: seq<Block>, n: nat, c: nat) {
    n < |blocks| && c < |blocks| && ((c in blocks[n].children && blocks[c].prev.None?) || blocks[n].next == Some(c))
  }

  // Through them everything that depends on n is reached.
  lemma {:induction false} UnderEntry(blocks: seq<Block>, m: nat, n: nat) returns (c: nat)
    requires Forest(blocks) && Under(blocks, m, n) && m != n && m < |blocks|
    ensures Entry(blocks, n, c) && Under(blocks, m, c)
  {
    var d :| 0 <= d < m && Asks(blocks, m, d) && Under(blocks, d, n);
    assert BlockOk(blocks, m) && BlockOk(blocks, d);
    if d != n {
      c := UnderEntry(blocks, d, n);
    } else if blocks[m].prev.None? || blocks[m].prev == Some(n) {
      c := m;
    } else {
      // m is an else-branch of a child of n
      var q := blocks[m].prev.value;
      assert BlockOk(blocks, q);
      assert Asks(blocks, q, n) && Under(blocks, q, n) && Asks(blocks, m, q);
      c := UnderEntry(blocks, q, n);
    }
  }

  lemma {:induction false} LooksThrough(blocks: seq<Block>, m: nat, item: nat) returns (k: nat)
    requires LooksAt(blocks, m, item)
    ensures k < |blocks| && blocks[k].comp == item && Under(blocks, m, k)
  {
    if blocks[m].comp == item {
      k := m;
    } else {
      var d :| 0 <= d < m && Asks(blocks, m, d) && LooksAt(blocks, d, item);
      k := LooksThrough(blocks, d, item);
    }
  }

  lemma {:induction false} UnderLooks(blocks: seq<Block>, m: nat, k: nat, item: nat)
    requires m < |blocks| && Under(blocks, m, k) && k < |blocks| && blocks[k].comp == item
    ensures LooksAt(blocks, m, item)
  {
    if m != k {
      var d :| 0 <= d < m && Asks(blocks, m, d) && Under(blocks, d, k);
      UnderLooks(blocks, d, k, item);
    }
  }

  // ---- what holds of the cached results ----

  // A decided block has asked only decided ones.
  ghost predicate Supported(blocks: seq<Block>, result: seq<Result>) {
    forall m: nat, d: nat :: Asks(blocks, m, d) && m < |result| && result[m] != UNSET ==> result[d] != UNSET
  }

  // The same below n only: enough to clear n.
  ghost predicate SupportedUnder(blocks: seq<Block>, result: seq<Result>, n: nat) {
    forall m: nat, d: nat ::
      Asks(blocks, m, d) && m < |result| && Under(blocks, d, n) && result[m] != UNSET ==> result[d] != UNSET
  }

  // result with the blocks of the set turned back to UNSET.
  ghost predicate ClearedBy(result: seq<Result>, result': seq<Result>, cleared: set<nat>) {
    |result'| == |result| && forall m :: 0 <= m < |result| ==> result'[m] == if m in cleared then UNSET else result[m]
  }

  ghost function AllUnder(blocks: seq<Block>, n: nat): set<nat> {
    set m: nat | m < |blocks| && Under(blocks, m, n)
  }

  // Below an undecided block nothing is decided: so clearing may stop there.
  lemma {:induction false} UnsetBelow(blocks: seq<Block>, result: seq<Result>, n: nat, m: nat)
    requires Forest(blocks) && |result| == |blocks| && SupportedUnder(blocks, result, n) && n < |blocks| && m < |blocks|
    requires result[n] == UNSET && Under(blocks, m, n)
    ensures result[m] == UNSET
  {
    if m != n {
      var d :| 0 <= d < m && Asks(blocks, m, d) && Under(blocks, d, n);
      UnsetBelow(blocks, result, n, d);
    }
  }

  // The blocks cleared once n itself and some of its entries are done.
  ghost predicate Parts(blocks: seq<Block>, n: nat, done: set<nat>, cleared: set<nat>) {
    && n < |blocks|
    && (forall c :: c in done ==> Entry(blocks, n, c))
    && (forall m: nat :: m in cleared <==> m < |blocks| && (m == n || exists c :: c in done && Under(blocks, m, c)))
  }

  lemma UnderAsked(blocks: seq<Block>, m: nat, d: nat, n: nat)
    requires Asks(blocks, m, d) && Under(blocks, d, n)
    ensures Under(blocks, m, n)
  {
  }

  lemma PartSupported(blocks: seq<Block>, result: seq<Result>, result': seq<Result>, n: nat, done: set<nat>,
                      cleared: set<nat>, c: nat)
    requires Forest(blocks) && |result| == |blocks| && 0 < n && SupportedUnder(blocks, result, n)
    requires Parts(blocks, n, done, cleared) && ClearedBy(result, result', cleared) && Entry(blocks, n, c)
    ensures SupportedUnder(blocks, result', c)
  {
    assert BlockOk(blocks, n) && BlockOk(blocks, c);
    assert Asks(blocks, c, n) && Under(blocks, n, n) && Under(blocks, c, n);
    forall m: nat, d: nat | Asks(blocks, m, d) && m < |result'| && Under(blocks, d, c) && result'[m] != UNSET
      ensures result'[d] != UNSET
    {
      UnderTrans(blocks, d, c, n);
      UnderFromBelow(blocks, d, c);
      if d in cleared {
        var x :| x in done && Under(blocks, d, x);
        UnderAsked(blocks, m, d, x);
      }
    }
  }

  lemma AddPart(blocks: seq<Block>, result: seq<Result>, result': seq<Result>, result'': seq<Result>, n: nat,
                done: set<nat>,
                cleared: set<nat>, c: nat)
    requires |result| == |blocks| && Parts(blocks, n, done, cleared) && Entry(blocks, n, c)
    requires ClearedBy(result, result', cleared) && ClearedBy(result', result'', AllUnder(blocks, c))
    ensures Parts(blocks, n, done + {c}, cleared + AllUnder(blocks, c))
    ensures ClearedBy(result, result'', cleared + AllUnder(blocks, c))
  {
    var more := cleared + AllUnder(blocks, c);
    forall m: nat | m in more
      ensures m < |blocks| && (m == n || exists x :: x in done + {c} && Under(blocks, m, x))
    {
      if m in cleared && m != n {
        var x :| x in done && Under(blocks, m, x);
        assert x in done + {c};
      } else if m != n {
        assert c in done + {c} && Under(blocks, m, c);
      }
    }
    forall m: nat | m < |blocks| && (m == n || exists x :: x in done + {c} && Under(blocks, m, x))
      ensures m in more
    {
      if m != n {
        var x :| x in done + {c} && Under(blocks, m, x);
        assert x == c || x in done;
      }
    }
  }

  lemma AllParts(blocks: seq<Block>, n: nat, done: set<nat>, cleared: set<nat>)
    requires Forest(blocks) && 0 < n && Parts(blocks, n, done, cleared) && forall c :: Entry(blocks, n, c) ==> c in done
    ensures cleared == AllUnder(blocks, n)
  {
    forall m: nat
      ensures m in cleared <==> m in AllUnder(blocks, n)
    {
      if m in AllUnder(blocks, n) && m != n {
        var c := UnderEntry(blocks, m, n);
      }
      if m in cleared && m != n {
        var c :| c in done && Under(blocks, m, c);
        assert BlockOk(blocks, n) && BlockOk(blocks, c);
        assert Asks(blocks, c, n) && Under(blocks, n, n) && Under(blocks, c, n);
        UnderTrans(blocks, m, c, n);
      }
    }
  }

  // ---- config_cond_clear_node as a function ----

  function ClearedNode(blocks: seq<Block>, result: seq<Result>, n: nat): (r: seq<Result>)
    requires Forest(blocks) && |result| == |blocks| && n < |blocks|
    ensures |r| == |result|
    decreases |blocks| - n, 1, 0
  {
    assert BlockOk(blocks, n);
    if result[n] == UNSET then result
    else
      var r := ClearedChildren(blocks, result[n := UNSET], n, |blocks[n].children|);
      if blocks[n].next.Some? then ClearedNode(blocks, r, blocks[n].next.value) else r
  }

  // The first k children of n.
  function ClearedChildren(blocks: seq<Block>, result: seq<Result>, n: nat, k: nat): (r: seq<Result>)
    requires Forest(blocks) && |result| == |blocks| && n < |blocks| && k <= |blocks[n].children|
    ensures |r| == |result|
    decreases |blocks| - n, 0, k
  {
    assert BlockOk(blocks, n);
    if k == 0 then result
    else
      var r, c := ClearedChildren(blocks, result, n, k - 1), blocks[n].children[k - 1];
      assert c in blocks[n].children;
      if blocks[c].prev.None? then ClearedNode(blocks, r, c) else r
  }

  // Everything that depends on n becomes unset and nothing else, when decided blocks
  // have asked decided blocks only.
  lemma {:induction false} ClearsAllUnder(blocks: seq<Block>, result: seq<Result>, n: nat)
    requires Forest(blocks) && |result| == |blocks| && n < |blocks| && result[0] == UNSET
    requires SupportedUnder(blocks, result, n)
    ensures ClearedBy(result, ClearedNode(blocks, result, n), AllUnder(blocks, n))
    decreases |blocks| - n, 2, 0
  {
    if result[n] == UNSET {
      forall m | 0 <= m < |blocks| && m in AllUnder(blocks, n)
        ensures result[m] == UNSET
      {
        UnsetBelow(blocks, result, n, m);
      }
    } else {
      assert BlockOk(blocks, n);
      var children := blocks[n].children;
      var done, cleared := ClearsChildren(blocks, result, n, |children|);
      var r := ClearedChildren(blocks, result[n := UNSET], n, |children|);
      if blocks[n].next.Some? {
        var c := blocks[n].next.value;
        ClearsEntry(blocks, result, r, n, c, done, cleared);
        done, cleared := done + {c}, cleared + AllUnder(blocks, c);
      }
      AllParts(blocks, n, done, cleared);
    }
  }

  lemma {:induction false} ClearsChildren(blocks: seq<Block>, result: seq<Result>, n: nat, k: nat)
    returns (done: set<nat>, cleared: set<nat>)
    requires Forest(blocks) && |result| == |blocks| && 0 < n < |blocks| && result[0] == UNSET
    requires SupportedUnder(blocks, result, n) && k <= |blocks[n].children|
    ensures Parts(blocks, n, done, cleared)
    ensures ClearedBy(result, ClearedChildren(blocks, result[n := UNSET], n, k), cleared)
    ensures forall i :: 0 <= i < k && blocks[n].children[i] < |blocks| ==>
      (blocks[blocks[n].children[i]].prev.None? ==> blocks[n].children[i] in done)
    decreases |blocks| - n, 1, k
  {
    assert BlockOk(blocks, n);
    if k == 0 {
      done, cleared := {}, {n};
    } else {
      done, cleared := ClearsChildren(blocks, result, n, k - 1);
      var c, r := blocks[n].children[k - 1], ClearedChildren(blocks, result[n := UNSET], n, k - 1);
      assert c in blocks[n].children;
      if blocks[c].prev.None? {
        ClearsEntry(blocks, result, r, n, c, done, cleared);
        done, cleared := done + {c}, cleared + AllUnder(blocks, c);
      }
    }
  }

  lemma {:induction false} ClearsEntry(blocks: seq<Block>, result: seq<Result>, r: seq<Result>, n: nat, c: nat,
                                       done: set<nat>, cleared: set<nat>)
    requires Forest(blocks) && |result| == |blocks| && result[0] == UNSET && 0 < n < c && Entry(blocks, n, c)
    requires SupportedUnder(blocks, result, n) && Parts(blocks, n, done, cleared) && ClearedBy(result, r, cleared)
    ensures Parts(blocks, n, done + {c}, cleared + AllUnder(blocks, c))
    ensures ClearedBy(result, ClearedNode(blocks, r, c), cleared + AllUnder(blocks, c))
    decreases |blocks| - n, 0, 0
  {
    PartSupported(blocks, result, r, n, done, cleared, c);
    ClearsAllUnder(blocks, r, c);
    AddPart(blocks, result, r, ClearedNode(blocks, r, c), n, done, cleared, c);
  }

  // ---- config_cond_cache_reset_item as a function: blocks before i ----

  function ResetUpTo(blocks: seq<Block>, result: seq<Result>, item: nat, i: nat): (r: seq<Result>)
    requires Forest(blocks) && |result| == |blocks| && i <= |blocks|
    ensures |r| == |result|
    decreases i
  {
    if i == 0 then result
    else
      var r := ResetUpTo(blocks, result, item, i - 1);
      if blocks[i - 1].comp == item then ClearedNode(blocks, r, i - 1) else r
  }

  // Exactly what looks at the item is forgotten.
  lemma {:induction false} ResetsDependents(blocks: seq<Block>, result: seq<Result>, item: nat, i: nat)
    requires Forest(blocks) && |result| == |blocks| && i <= |blocks| && result[0] == UNSET && Supported(blocks, result)
    ensures var r := ResetUpTo(blocks, result, item, i);
            && Supported(blocks, r) && r[0] == UNSET
            && forall n :: 0 <= n < |blocks| ==> r[n] == if ClearedUpTo(blocks, n, item, i) then UNSET else result[n]
    decreases i
  {
    if i > 0 {
      ResetsDependents(blocks, result, item, i - 1);
      var r := ResetUpTo(blocks, result, item, i - 1);
      if blocks[i - 1].comp == item {
        ClearsAllUnder(blocks, r, i - 1);
        ClearedSupported(blocks, r, ClearedNode(blocks, r, i - 1), i - 1);
      }
      ClearedOneMore(blocks, item, i - 1);
    }
  }

  // ---- what a reset forgets, whatever the cache ----

  // The block is decided, and looks at the item itself or is descended to from one that is reached.
  predicate Reached(blocks: seq<Block>, result: seq<Result>, n: nat, item: nat)
    decreases n
  {
    && n < |blocks| && n < |result| && result[n] != UNSET
    && (blocks[n].comp == item || exists e :: 0 <= e < n && Entry(blocks, e, n) && Reached(blocks, result, e, item))
  }

  // Some blocks have been cleared, only reached ones.
  ghost predicate OnlyReached(blocks: seq<Block>, before: seq<Result>, r: seq<Result>, item: nat) {
    && |r| == |before| == |blocks|
    && forall j: nat :: j < |r| ==> r[j] == before[j] || (r[j] == UNSET && Reached(blocks, before, j, item))
  }

  // Some blocks have been cleared, and with each all its entries.
  ghost predicate Descended(blocks: seq<Block>, before: seq<Result>, r: seq<Result>) {
    && |r| == |before| == |blocks|
    && (forall j: nat :: j < |r| ==> r[j] == before[j] || r[j] == UNSET)
    && forall e: nat, j: nat :: Entry(blocks, e, j) && before[e] != UNSET && r[e] == UNSET ==> r[j] == UNSET
  }

  lemma DescendedOn(blocks: seq<Block>, a: seq<Result>, b: seq<Result>, c: seq<Result>)
    requires Descended(blocks, a, b) && Descended(blocks, b, c)
    ensures Descended(blocks, a, c)
  {
    forall e: nat, j: nat | Entry(blocks, e, j) && a[e] != UNSET && c[e] == UNSET
      ensures c[j] == UNSET
    {
      assert b[e] == UNSET ==> b[j] == UNSET;
    }
  }

  lemma EntryReached(blocks: seq<Block>, before: seq<Result>, r: seq<Result>, e: nat, j: nat, item: nat)
    requires Forest(blocks) && Entry(blocks, e, j) && OnlyReached(blocks, before, r, item)
    requires Reached(blocks, before, e, item)
    ensures e < j && (r[j] == UNSET || Reached(blocks, before, j, item))
  {
    assert BlockOk(blocks, e);
  }

  lemma {:induction false} ClearsReached(blocks: seq<Block>, before: seq<Result>, result: seq<Result>, n: nat,
                                         item: nat)
    requires Forest(blocks) && n < |blocks| && OnlyReached(blocks, before, result, item)
    requires result[n] == UNSET || Reached(blocks, before, n, item)
    ensures var r := ClearedNode(blocks, result, n);
            r[n] == UNSET && OnlyReached(blocks, before, r, item) && Descended(blocks, result, r)
    decreases |blocks| - n, 1, 0
  {
    hide Reached;
    if result[n] != UNSET {
      assert BlockOk(blocks, n);
      var start, k := result[n := UNSET], |blocks[n].children|;
      ChildrenReached(blocks, before, start, n, k, item);
      var mid := ClearedChildren(blocks, start, n, k);
      if blocks[n].next.Some? {
        var c := blocks[n].next.value;
        EntryReached(blocks, before, mid, n, c, item);
        ClearsReached(blocks, before, mid, c, item);
        DescendedOn(blocks, start, mid, ClearedNode(blocks, mid, c));
      }
      WholeDescended(blocks, result, n, ClearedNode(blocks, result, n));
    }
  }

  // The first k children of n, which is reached and unset.
  lemma {:induction false} ChildrenReached(blocks: seq<Block>, before: seq<Result>, result: seq<Result>, n: nat,
                                           k: nat, item: nat)
    requires Forest(blocks) && n < |blocks| && OnlyReached(blocks, before, result, item)
    requires Reached(blocks, before, n, item) && k <= |blocks[n].children|
    ensures var r := ClearedChildren(blocks, result, n, k);
            && OnlyReached(blocks, before, r, item) && Descended(blocks, result, r)
            && forall c: nat :: c in blocks[n].children[..k] && Entry(blocks, n, c) && blocks[n].next != Some(c) ==>
                 r[c] == UNSET
    decreases |blocks| - n, 0, k
  {
    hide Reached;
    assert BlockOk(blocks, n);
    if k > 0 {
      ChildrenReached(blocks, before, result, n, k - 1, item);
      var r, c := ClearedChildren(blocks, result, n, k - 1), blocks[n].children[k - 1];
      assert c in blocks[n].children;
      if blocks[c].prev.None? {
        assert Entry(blocks, n, c);
        EntryReached(blocks, before, r, n, c, item);
        ClearsReached(blocks, before, r, c, item);
        DescendedOn(blocks, result, r, ClearedNode(blocks, r, c));
      }
    }
  }

  // From the entries of n to n itself.
  lemma WholeDescended(blocks: seq<Block>, result: seq<Result>, n: nat, r: seq<Result>)
    requires Forest(blocks) && n < |blocks| == |result| && Descended(blocks, result[n := UNSET], r)
    requires forall j: nat :: Entry(blocks, n, j) ==> r[j] == UNSET
    ensures Descended(blocks, result, r)
  {
    forall e: nat, j: nat | Entry(blocks, e, j) && result[e] != UNSET && r[e] == UNSET
      ensures r[j] == UNSET
    {
      assert e != n ==> result[n := UNSET][e] != UNSET;
    }
  }

  // A reset forgets exactly the reached blocks.
  lemma {:induction false} ResetsReached(blocks: seq<Block>, result: seq<Result>, item: nat, i: nat)
    requires Forest(blocks) && |result| == |blocks| && i <= |blocks|
    ensures var r := ResetUpTo(blocks, result, item, i);
            && OnlyReached(blocks, result, r, item) && Descended(blocks, result, r)
            && forall k :: 0 <= k < i && blocks[k].comp == item ==> r[k] == UNSET
    decreases i
  {
    hide Reached;
    if i > 0 {
      ResetsReached(blocks, result, item, i - 1);
      var r, n := ResetUpTo(blocks, result, item, i - 1), i - 1;
      if blocks[n].comp == item {
        LooksItself(blocks, result, n, item);
        ClearsReached(blocks, result, r, n, item);
        DescendedOn(blocks, result, r, ClearedNode(blocks, r, n));
      }
    }
  }

  lemma LooksItself(blocks: seq<Block>, result: seq<Result>, n: nat, item: nat)
    requires n < |blocks| == |result| && blocks[n].comp == item
    ensures result[n] == UNSET || Reached(blocks, result, n, item)
  {
  }

  lemma {:induction false} ReachedIsCleared(blocks: seq<Block>, result: seq<Result>, r: seq<Result>, n: nat, item: nat)
    requires Descended(blocks, result, r) && Reached(blocks, result, n, item)
    requires forall k :: 0 <= k < |blocks| && blocks[k].comp == item ==> r[k] == UNSET
    ensures r[n] == UNSET
    decreases n
  {
    if blocks[n].comp != item {
      var e :| 0 <= e < n && Entry(blocks, e, n) && Reached(blocks, result, e, item);
      ReachedIsCleared(blocks, result, r, e, item);
    }
  }

  lemma ResetForgets(blocks: seq<Block>, result: seq<Result>, item: nat, n: nat)
    requires Forest(blocks) && |result| == |blocks| && n < |blocks|
    ensures ResetUpTo(blocks, result, item, |blocks|)[n] ==
            if Reached(blocks, result, n, item) then UNSET else result[n]
  {
    ResetsReached(blocks, result, item, |blocks|);
    hide Reached;
    var r := ResetUpTo(blocks, result, item, |blocks|);
    if Reached(blocks, result, n, item) {
      ReachedIsCleared(blocks, result, r, n, item);
    }
  }

  // A reached block looks at the item, so nothing else is forgotten.
  lemma {:induction false} ReachedLooks(blocks: seq<Block>, result: seq<Result>, n: nat, item: nat)
    requires Forest(blocks) && |result| == |blocks| && result[0] == UNSET && Reached(blocks, result, n, item)
    ensures LooksAt(blocks, n, item)
    decreases n
  {
    if blocks[n].comp != item {
      var e :| 0 <= e < n && Entry(blocks, e, n) && Reached(blocks, result, e, item);
      ReachedLooks(blocks, result, e, item);
      assert BlockOk(blocks, n) && BlockOk(blocks, e);
      assert Asks(blocks, n, e);
    }
  }

  // Every decided block that looks at the item can be found from one that does so itself.
  predicate AllReached(blocks: seq<Block>, result: seq<Result>, item: nat) {
    forall n :: 0 <= n < |blocks| && n < |result| && result[n] != UNSET && LooksAt(blocks, n, item) ==>
      Reached(blocks, result, n, item)
  }

  // The results r are those without what looks at the item.
  predicate Forgotten(blocks: seq<Block>, result: seq<Result>, r: seq<Result>, item: nat) {
    && |r| == |result| == |blocks|
    && forall n :: 0 <= n < |r| ==> r[n] == if LooksAt(blocks, n, item) then UNSET else result[n]
  }

  // A reset is exact if and only if that is so.
  lemma ResetIsExact(blocks: seq<Block>, result: seq<Result>, item: nat)
    requires Forest(blocks) && |result| == |blocks| && result[0] == UNSET
    ensures Forgotten(blocks, result, ResetUpTo(blocks, result, item, |blocks|), item) <==>
            AllReached(blocks, result, item)
  {
    hide Reached, LooksAt;
    var r := ResetUpTo(blocks, result, item, |blocks|);
    forall n: nat | n < |blocks|
      ensures r[n] == if Reached(blocks, result, n, item) then UNSET else result[n]
      ensures Reached(blocks, result, n, item) ==> LooksAt(blocks, n, item)
    {
      ResetForgets(blocks, result, item, n);
      if Reached(blocks, result, n, item) {
        ReachedLooks(blocks, result, n, item);
      }
    }
    DecidedReached(blocks, result, item);
  }

  lemma DecidedReached(blocks: seq<Block>, result: seq<Result>, item: nat)
    requires |result| == |blocks|
    ensures forall n: nat :: Reached(blocks, result, n, item) ==> n < |result| && result[n] != UNSET
  {
  }

  // It is so for every item when decided blocks have asked decided blocks only.
  lemma SupportedReached(blocks: seq<Block>, result: seq<Result>, item: nat)
    requires Forest(blocks) && |result| == |blocks| && result[0] == UNSET && Supported(blocks, result)
    ensures AllReached(blocks, result, item)
  {
    hide Supported, Reached, LooksAt;
    ResetsDependents(blocks, result, item, |blocks|);
    forall n: nat | n < |blocks|
      ensures ClearedUpTo(blocks, n, item, |blocks|) <==> LooksAt(blocks, n, item)
    {
      ClearedAll(blocks, n, item);
    }
    ResetIsExact(blocks, result, item);
  }

  // ---- the cache of one connection ----

  ghost predicate ResultsOk(w: World, result: seq<Result>, stale: set<nat>)
    requires Forest(w.blocks)
  {
    forall n ::
      0 < n < |w.blocks| && n < |result| && result[n] != UNSET
        && (forall k :: k in stale ==> !LooksAt(w.blocks, n, k)) ==>
      result[n] == Eval(w, n)
  }

  ghost predicate LocalsOk(w: World, local: seq<Result>, stale: set<nat>) {
    forall n :: 0 <= n < |w.blocks| && n < |local| && local[n] != UNSET ==>
      && w.blocks[n].comp in w.valid && (w.blocks[n].comp !in stale ==> local[n] == LocalResult(w, n))
  }

  // ---- the results after one check ----

  // Everything decided is what the evaluation says.
  ghost predicate Right(w: World, result: seq<Result>)
    requires Forest(w.blocks)
  {
    forall j :: 0 < j < |w.blocks| && j < |result| && result[j] != UNSET ==> result[j] == Eval(w, j)
  }

  // Whether the branch before n is asked: not when the parent decides for n.
  predicate AsksPrev(w: World, n: nat)
    requires Forest(w.blocks) && 0 < n < |w.blocks|
  {
    assert BlockOk(w.blocks, n);
    w.blocks[n].prev.Some? && (w.blocks[n].parent > 0 ==> Eval(w, w.blocks[n].parent) == TRUE)
  }

  // The parent has been checked.
  function WithParent(w: World, result: seq<Result>, n: nat): (r: seq<Result>)
    requires Forest(w.blocks) && |result| == |w.blocks| && 0 < n < |w.blocks|
    ensures Answers(w, result, r, n - 1)
    decreases n, 0
  {
    assert BlockOk(w.blocks, n);
    if w.blocks[n].parent > 0 then Checked(w, result, w.blocks[n].parent) else result
  }

  // The parent and, unless that decides, the branch before n.
  function WithAsked(w: World, result: seq<Result>, n: nat): (r: seq<Result>)
    requires Forest(w.blocks) && |result| == |w.blocks| && 0 < n < |w.blocks|
    ensures Answers(w, result, r, n - 1)
    decreases n, 1
  {
    assert BlockOk(w.blocks, n);
    var r := WithParent(w, result, n);
    if AsksPrev(w, n) then Checked(w, r, w.blocks[n].prev.value) else r
  }

  // The cached results after config_check_cond_cached on n.
  function Checked(w: World, result: seq<Result>, n: nat): (r: seq<Result>)
    requires Forest(w.blocks) && |result| == |w.blocks| && 0 < n < |w.blocks|
    ensures Answers(w, result, r, n)
    decreases n, 2
  {
    if result[n] != UNSET then result else WithAsked(w, result, n)[n := Eval(w, n)]
  }

  // Only unset results up to n have changed, to what the evaluation says.
  ghost predicate Answers(w: World, result: seq<Result>, r: seq<Result>, n: nat)
    requires Forest(w.blocks)
  {
    && |result| == |r| == |w.blocks| && r[0] == result[0]
    && forall j :: 0 < j < |w.blocks| ==> r[j] == result[j] || (j <= n && result[j] == UNSET && r[j] == Eval(w, j))
  }

  // The check of n is in turn when no block is decided by its parent while the branch
  // before it has not been checked.
  predicate InTurn(w: World, result: seq<Result>, n: nat)
    requires Forest(w.blocks) && |result| == |w.blocks| && 0 < n < |w.blocks|
    decreases n
  {
    assert BlockOk(w.blocks, n);
    var b := w.blocks[n];
    result[n] != UNSET ||
    (&& (b.parent > 0 ==> InTurn(w, result, b.parent))
     && (b.prev.Some? ==>
          if AsksPrev(w, n) then InTurn(w, WithParent(w, result, n), b.prev.value)
          else Eval(w, b.parent) == UNSET || result[b.prev.value] != UNSET))
  }

  // With the parent decided, only blocks behind it are looked at.
  lemma {:induction false} ChangesBehind(w: World, result: seq<Result>, n: nat)
    requires Forest(w.blocks) && |result| == |w.blocks| && 0 < n < |w.blocks|
    requires w.blocks[n].parent < n && (w.blocks[n].parent == 0 || result[w.blocks[n].parent] != UNSET)
    ensures forall j :: 0 <= j <= w.blocks[n].parent && j < |result| ==> Checked(w, result, n)[j] == result[j]
    decreases n
  {
    assert BlockOk(w.blocks, n);
    if result[n] == UNSET {
      assert WithParent(w, result, n) == result;
      if AsksPrev(w, n) {
        assert BlockOk(w.blocks, w.blocks[n].prev.value);
        ChangesBehind(w, result, w.blocks[n].prev.value);
      }
    }
  }

  lemma ChecksSet(w: World, result: seq<Result>, n: nat)
    requires Forest(w.blocks) && |result| == |w.blocks| && 0 < n < |w.blocks| && Right(w, result)
    ensures Checked(w, result, n)[n] == Eval(w, n) && Right(w, Checked(w, result, n))
  {
  }

  // What is missing below stays missing.
  lemma MissingStays(w: World, result: seq<Result>, r: seq<Result>, k: nat)
    requires |result| == |r| == |w.blocks| && k <= |r| && forall j :: 0 <= j < k ==> r[j] == result[j]
    requires !Supported(w.blocks, result) && forall j :: k <= j < |result| ==> Asked(w.blocks, result, j)
    ensures !Supported(w.blocks, r)
  {
    var m: nat, d: nat :| Asks(w.blocks, m, d) && m < |result| && result[m] != UNSET && result[d] == UNSET;
    assert !Asked(w.blocks, result, m);
    assert r[m] != UNSET && r[d] == UNSET;
  }

  // Block m, if decided, has asked decided blocks only.
  ghost predicate Asked(blocks: seq<Block>, result: seq<Result>, m: nat) {
    m < |result| && result[m] != UNSET ==> forall d: nat :: Asks(blocks, m, d) && d < |result| ==> result[d] != UNSET
  }

  lemma AnswersAsked(w: World, result: seq<Result>, r: seq<Result>, n: nat, k: nat)
    requires Forest(w.blocks) && Answers(w, result, r, n) && Supported(w.blocks, result) && n < k < |r|
    ensures Asked(w.blocks, r, k)
  {
    forall d: nat | Asks(w.blocks, k, d) && r[k] != UNSET
      ensures r[d] != UNSET
    {
      assert result[k] == r[k];
    }
  }

  // A check keeps the cache supported if and only if it is in turn.
  lemma {:induction false} InTurnKeeps(w: World, result: seq<Result>, n: nat)
    requires Forest(w.blocks) && |result| == |w.blocks| && 0 < n < |w.blocks|
    requires Right(w, result) && Supported(w.blocks, result)
    ensures Supported(w.blocks, Checked(w, result, n)) <==> InTurn(w, result, n)
    decreases n
  {
    assert BlockOk(w.blocks, n);
    if result[n] == UNSET {
      var b := w.blocks[n];
      var r1, r2 := WithParent(w, result, n), WithAsked(w, result, n);
      if b.parent > 0 {
        InTurnKeeps(w, result, b.parent);
        ChecksSet(w, result, b.parent);
      }
      if !Supported(w.blocks, r1) {
        ParentOutOfTurn(w, result, n);
      } else if AsksPrev(w, n) {
        InTurnKeeps(w, r1, b.prev.value);
        ChecksSet(w, r1, b.prev.value);
        LastStep(w, result, n);
      } else {
        LastStep(w, result, n);
        ParentDecides(w, result, n);
      }
    }
  }

  // The branch before n is not asked: whether it has been is seen in the cache.
  lemma ParentDecides(w: World, result: seq<Result>, n: nat)
    requires Forest(w.blocks) && |result| == |w.blocks| && 0 < n < |w.blocks| && Right(w, result) && !AsksPrev(w, n)
    ensures var r, b := WithParent(w, result, n), w.blocks[n];
            && b.parent < n && (b.prev.Some? ==> b.parent > 0 && b.prev.value < n)
            && ((Eval(w, n) != UNSET ==> AsksDecided(w.blocks, r, n)) <==>
                b.prev.None? || Eval(w, b.parent) == UNSET || result[b.prev.value] != UNSET)
  {
    assert BlockOk(w.blocks, n);
    var b, r := w.blocks[n], WithParent(w, result, n);
    if b.parent > 0 {
      ChecksSet(w, result, b.parent);
      hide Checked;
      if b.prev.Some? {
        assert BlockOk(w.blocks, b.prev.value);
        assert Asks(w.blocks, n, b.prev.value);
        assert Asks(w.blocks, n, b.parent);
        assert r[b.prev.value] == result[b.prev.value];
      }
    }
  }

  lemma LastStep(w: World, result: seq<Result>, n: nat)
    requires Forest(w.blocks) && |result| == |w.blocks| && 0 < n < |w.blocks| && result[n] == UNSET
    requires Supported(w.blocks, result)
    ensures var r := WithAsked(w, result, n);
            Supported(w.blocks, Checked(w, result, n)) <==>
              Supported(w.blocks, r) && (Eval(w, n) != UNSET ==> AsksDecided(w.blocks, r, n))
  {
    var r := WithAsked(w, result, n);
    hide WithAsked, Eval, Supported;
    forall k | n < k < |r|
      ensures Asked(w.blocks, r, k)
    {
      AnswersAsked(w, result, r, n - 1, k);
    }
    LastSet(w, r, n);
  }

  // All that n asks is decided.
  ghost predicate AsksDecided(blocks: seq<Block>, r: seq<Result>, n: nat) {
    forall d: nat :: Asks(blocks, n, d) && d < |r| ==> r[d] != UNSET
  }

  lemma ParentOutOfTurn(w: World, result: seq<Result>, n: nat)
    requires Forest(w.blocks) && |result| == |w.blocks| && 0 < n < |w.blocks| && result[n] == UNSET
    requires Right(w, result) && Supported(w.blocks, result) && !Supported(w.blocks, WithParent(w, result, n))
    ensures !Supported(w.blocks, Checked(w, result, n))
  {
    var p, r1, r := w.blocks[n].parent, WithParent(w, result, n), Checked(w, result, n);
    KeptBelow(w, result, n);
    hide Checked, WithParent, WithAsked, Supported, Right, Eval, Forest;
    forall k | p < k < |r1|
      ensures Asked(w.blocks, r1, k)
    {
      AnswersAsked(w, result, r1, p, k);
    }
    MissingStays(w, r1, r, p + 1);
  }

  // The parent has been checked, nothing up to it changes any more.
  lemma KeptBelow(w: World, result: seq<Result>, n: nat)
    requires Forest(w.blocks) && |result| == |w.blocks| && 0 < n < |w.blocks| && result[n] == UNSET
    requires Right(w, result) && WithParent(w, result, n) != result
    ensures var p, r1 := w.blocks[n].parent, WithParent(w, result, n);
            p < n && Answers(w, result, r1, p) && forall j :: 0 <= j <= p ==> Checked(w, result, n)[j] == r1[j]
  {
    assert BlockOk(w.blocks, n);
    var p, r1 := w.blocks[n].parent, WithParent(w, result, n);
    ChecksSet(w, result, p);
    if AsksPrev(w, n) {
      assert BlockOk(w.blocks, w.blocks[n].prev.value);
      ChangesBehind(w, r1, w.blocks[n].prev.value);
    }
  }

  // The last step: n itself is set.
  lemma LastSet(w: World, r: seq<Result>, n: nat)
    requires Forest(w.blocks) && |r| == |w.blocks| && 0 < n < |w.blocks| && r[n] == UNSET
    requires forall k :: n < k < |r| ==> Asked(w.blocks, r, k)
    ensures Supported(w.blocks, r[n := Eval(w, n)]) <==>
      Supported(w.blocks, r) && (Eval(w, n) != UNSET ==> AsksDecided(w.blocks, r, n))
  {
    hide Eval;
    var r' := r[n := Eval(w, n)];
    if Supported(w.blocks, r') {
      forall m: nat, d: nat | Asks(w.blocks, m, d) && m < |r| && r[m] != UNSET
        ensures r[d] != UNSET
      {
        assert r'[m] != UNSET && r'[d] != UNSET;
        assert d == n ==> m > n && Asked(w.blocks, r, m);
      }
      forall d: nat | Asks(w.blocks, n, d) && Eval(w, n) != UNSET
        ensures r[d] != UNSET
      {
        assert r'[n] != UNSET && r'[d] != UNSET;
      }
    }
  }

  // All blocks before n have been evaluated.
  ghost predicate Settled(w: World, result: seq<Result>, n: nat)
    requires Forest(w.blocks)
  {
    forall j :: 0 < j < n && j < |w.blocks| && j < |result| ==> result[j] == Eval(w, j)
  }

  class Connection {
    const blocks: seq<Block>
    const holds: (nat, string) -> bool
    var attr: nat -> string         // the attributes conditions look at
    var valid: set<nat>             // conditional_is_valid
    var result: seq<Result>         // cond_cache[].result
    var local: seq<Result>          // cond_cache[].local_result
    ghost var stale: set<nat>       // attributes changed since the cache was told

    ghost function W(): World
      reads this
    {
      World(blocks, holds, attr, valid)
    }

    // What is cached is right, up to the attributes that changed since.
    ghost predicate Sound()
      reads this
    {
      && Forest(blocks) && |result| == |local| == |blocks| && result[0] == UNSET
      && ResultsOk(W(), result, stale) && LocalsOk(W(), local, stale)
    }

    // And nothing decided hides behind something undecided, so that it will be found.
    ghost predicate Valid()
      reads this
    {
      Sound() && Supported(blocks, result)
    }

    // A new connection: everything is unset.
    constructor (blocks: seq<Block>, holds: (nat, string) -> bool, attr: nat -> string)
      requires Forest(blocks)
      ensures Valid() && this.blocks == blocks && this.holds == holds && this.attr == attr && valid == {} && stale == {}
      ensures result == local == seq(|blocks|, _ => UNSET)
    {
      this.blocks, this.holds, this.attr, valid := blocks, holds, attr, {};
      result, local := seq(|blocks|, _ => UNSET), seq(|blocks|, _ => UNSET);
      stale := {};
    }

    // The server changes an attribute. From then on the cache may be out of date, if
    // the attribute was in use.
    method SetAttribute(item: nat, value: string)
      requires Sound()
      modifies this`attr, this`stale
      ensures Sound() && stale == old(stale) + (if item in valid then {item} else {})
      ensures attr(item) == value && forall k :: k != item ==> attr(k) == old(attr(k))
    {
      ghost var w := W();
      var before := attr;
      attr := (k: nat) => if k == item then value else before(k);
      if item in valid {
        stale := stale + {item};
      }
      AttributeChanged(w, W(), result, local, old(stale), item);
    }

    lemma AttributeChanged(w: World, w': World, result: seq<Result>, local: seq<Result>, stale: set<nat>, item: nat)
      requires Forest(w.blocks) && w'.blocks == w.blocks && w'.holds == w.holds && w'.valid == w.valid
      requires forall k :: k != item ==> w'.attr(k) == w.attr(k)
      requires ResultsOk(w, result, stale) && LocalsOk(w, local, stale)
      ensures var stale' := stale + if item in w.valid then {item} else {};
              ResultsOk(w', result, stale') && LocalsOk(w', local, stale')
    {
      var stale' := stale + if item in w.valid then {item} else {};
      forall n: nat | 0 < n < |w.blocks| && n < |result| && result[n] != UNSET
        && (forall k :: k in stale' ==> !LooksAt(w.blocks, n, k))
        ensures result[n] == Eval(w', n)
      {
        if item in w.valid {
          EvalFrame(w, w', n, {item});
        } else {
          EvalMonotone(w, w', n);
        }
      }
    }

    // conditional_is_valid[item] = 1
    method SetAvailable(item: nat)
      requires Sound()
      modifies this`valid
      ensures Sound() && valid == old(valid) + {item}
    {
      ghost var w := W();
      valid := valid + {item};
      forall n | 0 < n < |blocks| && result[n] != UNSET && (forall k :: k in stale ==> !LooksAt(blocks, n, k))
        ensures result[n] == Eval(W(), n)
      {
        EvalMonotone(w, W(), n);
      }
    }

    // config_check_cond_nocache
    method CheckNoCache(n: nat) returns (r: Result)
      requires Sound() && stale == {} && 0 < n < |blocks| && result[n] == UNSET
      modifies this`result, this`local
      ensures Sound() && r == Eval(W(), n) && result == WithAsked(W(), old(result), n)
      ensures Remembered(old(result), result, old(local), local)
      decreases n, 0
    {
      hide Supported;
      assert BlockOk(blocks, n);
      var b := blocks[n];
      if b.parent > 0 {
        var p := CheckCached(b.parent);
        match p
        case UNSET => return UNSET;
        case SKIP => return SKIP;
        case FALSE => return SKIP;
        case TRUE =>
      }
      if b.prev.Some? {
        var p := CheckCached(b.prev.value);
        match p
        case UNSET => return UNSET;
        case SKIP => return SKIP;
        case TRUE => return SKIP;
        case FALSE =>
      }
      if b.comp !in valid {
        return UNSET;
      }
      if local[n] == TRUE || local[n] == FALSE {
        return local[n];
      }
      r := if holds(n, attr(b.comp)) then TRUE else FALSE;
    }

    // config_check_cond_cached: agrees with the uncached evaluation, and remembers it.
    // Decided results go on resting on decided ones if and only if the check is in turn.
    method CheckCached(n: nat) returns (r: Result)
      requires Sound() && stale == {} && 0 < n < |blocks|
      modifies this`result, this`local
      ensures Sound() && r == Eval(W(), n) && result == Checked(W(), old(result), n)
      ensures Remembered(old(result), result, old(local), local)
      ensures old(Valid()) ==> (Valid() <==> InTurn(W(), old(result), n))
      decreases n, 1
    {
      hide Supported;
      ghost var before := result;
      if result[n] == UNSET {
        r := CheckNoCache(n);
        Remember(n, r);
        result := result[n := r];
        if r == FALSE || r == TRUE {
          local := local[n := r];
        }
      }
      r := result[n];
      if Supported(blocks, before) {
        InTurnKeeps(W(), before, n);
      }
    }

    lemma Remember(n: nat, r: Result)
      requires Forest(blocks) && 0 < n < |blocks| && r == Eval(W(), n)
      ensures r == TRUE || r == FALSE ==> blocks[n].comp in valid && r == LocalResult(W(), n)
    {
      assert BlockOk(blocks, n);
    }

    // The loop over all conditions that every module runs.
    method Patch() returns (active: seq<nat>)
      requires Valid() && stale == {}
      modifies this`result, this`local
      ensures Valid() && forall n :: 0 < n < |blocks| ==> result[n] == Eval(W(), n)
      ensures forall n :: n in active <==> 0 < n < |blocks| && result[n] == TRUE
      ensures forall n :: 0 < n < |blocks| ==>
                blocks[n].parent < n && (blocks[n].prev.Some? ==> blocks[n].prev.value < n)
      ensures forall n :: n in active <==>
                0 < n < |blocks| && blocks[n].comp in valid && holds(n, attr(blocks[n].comp))
                && (blocks[n].parent == 0 || blocks[n].parent in active)
                && (blocks[n].prev.Some? ==> result[blocks[n].prev.value] == FALSE)
      ensures forall m: nat, n: nat :: Earlier(blocks, m, n) && m in active ==> n !in active && result[n] == SKIP
      ensures forall m: nat, n: nat :: Earlier(blocks, m, n) && n in active ==> m !in active && result[m] == FALSE
    {
      active := [];
      for n := 1 to |blocks|
        invariant Valid() && Settled(W(), result, n) && W() == old(W())
        invariant forall m :: m in active <==> 0 < m < n && Eval(W(), m) == TRUE
      {
        SettledInTurn(W(), result, n);
        var r := CheckCached(n);
        if r == TRUE {
          active := active + [n];
        }
      }
      PatchMeans(active);
    }

    lemma PatchMeans(active: seq<nat>)
      requires Forest(blocks) && |result| == |blocks| && forall n :: 0 < n < |blocks| ==> result[n] == Eval(W(), n)
      requires forall n :: n in active <==> 0 < n < |blocks| && Eval(W(), n) == TRUE
      ensures forall n :: 0 < n < |blocks| ==>
                blocks[n].parent < n && (blocks[n].prev.Some? ==> blocks[n].prev.value < n)
      ensures forall n :: n in active <==>
                0 < n < |blocks| && blocks[n].comp in valid && holds(n, attr(blocks[n].comp))
                && (blocks[n].parent == 0 || blocks[n].parent in active)
                && (blocks[n].prev.Some? ==> result[blocks[n].prev.value] == FALSE)
      ensures forall m: nat, n: nat :: Earlier(blocks, m, n) && m in active ==> n !in active && result[n] == SKIP
      ensures forall m: nat, n: nat :: Earlier(blocks, m, n) && n in active ==> m !in active && result[m] == FALSE
    {
      hide Eval;
      forall n | 0 < n < |blocks|
        ensures blocks[n].parent < n && (blocks[n].prev.Some? ==> 0 < blocks[n].prev.value < n)
        ensures n in active <==>
                blocks[n].comp in valid && holds(n, attr(blocks[n].comp))
                && (blocks[n].parent == 0 || blocks[n].parent in active)
                && (blocks[n].prev.Some? ==> result[blocks[n].prev.value] == FALSE)
      {
        EvalMeans(W(), n);
      }
      forall m: nat, n: nat | Earlier(blocks, m, n)
        ensures m in active ==> n !in active && result[n] == SKIP
        ensures n in active ==> m !in active && result[m] == FALSE
      {
        ChainSkips(W(), m, n);
      }
    }

    // config_cond_clear_node
    method ClearNode(n: nat)
      requires Forest(blocks) && |result| == |blocks| && n < |blocks|
      modifies this`result
      ensures result == ClearedNode(blocks, old(result), n)
      decreases |blocks| - n
    {
      if result[n] != UNSET {
        assert BlockOk(blocks, n);
        ghost var before := result[n := UNSET];
        result := result[n := UNSET];
        var children := blocks[n].children;
        for i := 0 to |children|
          invariant |result| == |blocks| && result == ClearedChildren(blocks, before, n, i)
        {
          assert children[i] in blocks[n].children;
          if blocks[children[i]].prev.None? {
            ClearNode(children[i]);
          }
        }
        if blocks[n].next.Some? {
          ClearNode(blocks[n].next.value);
        }
      }
    }

    // config_cond_cache_reset_item: what the reset forgets, and that this is exactly what
    // looks at the changed attribute if and only if clearing can find all of it.
    method ResetItem(item: nat)
      requires Sound()
      modifies this`result, this`local, this`stale
      ensures stale == old(stale) - {item} && |result| == |local| == |blocks|
      ensures forall n :: 0 <= n < |blocks| ==>
        result[n] == if Reached(blocks, old(result), n, item) then UNSET else old(result[n])
      ensures forall n :: 0 <= n < |blocks| ==> local[n] == if blocks[n].comp == item then UNSET else old(local[n])
      ensures Forgotten(blocks, old(result), result, item) <==> AllReached(blocks, old(result), item)
      ensures AllReached(blocks, old(result), item) ==> Sound()
      ensures old(Valid()) ==> AllReached(blocks, old(result), item) && Valid()
    {
      hide Supported, Reached, LooksAt, AllReached;
      ghost var before := result;
      for i := 0 to |blocks|
        modifies this`result, this`local
        invariant |result| == |local| == |blocks| && result == ResetUpTo(blocks, before, item, i)
        invariant forall n ::
          0 <= n < |blocks| ==> local[n] == if n < i && blocks[n].comp == item then UNSET else old(local[n])
      {
        if blocks[i].comp == item {
          local := local[i := UNSET];
          ClearNode(i);
        }
      }
      stale := stale - {item};
      forall n: nat | n < |blocks|
        ensures result[n] == if Reached(blocks, before, n, item) then UNSET else before[n]
      {
        ResetForgets(blocks, before, item, n);
      }
      ResetIsExact(blocks, before, item);
      if Supported(blocks, before) {
        SupportedReached(blocks, before, item);
        ResetsDependents(blocks, before, item, |blocks|);
      }
    }

    // config_cond_cache_reset
    method ResetAll()
      requires Sound()
      modifies this`result, this`local, this`valid, this`stale
      ensures Valid() && valid == {} && stale == {}
      ensures forall n :: 0 <= n < |blocks| ==> result[n] == local[n] == UNSET
    {
      result, local := seq(|blocks|, _ => UNSET), seq(|blocks|, _ => UNSET);
      valid, stale := {}, {};
    }
  }

  // The local result of every newly decided condition that was compared is kept.
  ghost predicate Remembered(result: seq<Result>, result': seq<Result>, local: seq<Result>, local': seq<Result>) {
    && |result| == |result'| == |local| == |local'|
    && forall j :: 0 <= j < |result| ==>
         local'[j] == if result[j] == UNSET && (result'[j] == TRUE || result'[j] == FALSE) then result'[j] else local[j]
  }

  // Checks in the order of the conditions are in turn.
  lemma {:induction false} SettledInTurn(w: World, result: seq<Result>, n: nat)
    requires Forest(w.blocks) && |result| == |w.blocks| && 0 < n < |w.blocks|
    requires Right(w, result) && Settled(w, result, n)
    ensures InTurn(w, result, n) && Checked(w, result, n) == result[n := Eval(w, n)]
    decreases n
  {
    assert BlockOk(w.blocks, n);
    var b := w.blocks[n];
    if b.parent > 0 {
      SettledInTurn(w, result, b.parent);
      assert WithParent(w, result, n) == result;
    }
    if b.prev.Some? {
      assert BlockOk(w.blocks, b.prev.value);
      SettledInTurn(w, result, b.prev.value);
    }
  }

  // A block before i looks at the attribute, and n depends on it.
  ghost predicate ClearedUpTo(blocks: seq<Block>, n: nat, item: nat, i: nat) {
    exists k: nat :: k < i && k < |blocks| && blocks[k].comp == item && Under(blocks, n, k)
  }

  lemma ClearedOneMore(blocks: seq<Block>, item: nat, i: nat)
    requires i < |blocks|
    ensures forall n: nat :: ClearedUpTo(blocks, n, item, i + 1) <==>
              ClearedUpTo(blocks, n, item, i) || (blocks[i].comp == item && Under(blocks, n, i))
  {
  }

  lemma ClearedAll(blocks: seq<Block>, n: nat, item: nat)
    requires n < |blocks|
    ensures ClearedUpTo(blocks, n, item, |blocks|) <==> LooksAt(blocks, n, item)
  {
    if ClearedUpTo(blocks, n, item, |blocks|) {
      var k: nat :| k < |blocks| && blocks[k].comp == item && Under(blocks, n, k);
      UnderLooks(blocks, n, k, item);
    }
    if LooksAt(blocks, n, item) {
      var k := LooksThrough(blocks, n, item);
    }
  }

  // Clearing a block with all that depends on it keeps the others supported.
  lemma ClearedSupported(blocks: seq<Block>, result: seq<Result>, result': seq<Result>, i: nat)
    requires |result| == |blocks| && Supported(blocks, result) && ClearedBy(result, result', AllUnder(blocks, i))
    ensures Supported(blocks, result')
  {
    forall m: nat, d: nat | Asks(blocks, m, d) && m < |result'| && result'[m] != UNSET
      ensures result'[d] != UNSET
    {
      if Under(blocks, d, i) {
        UnderAsked(blocks, m, d, i);
      }
    }
  }

  // ---- a check out of turn ----

  // A condition with an inner if and its else branch.
  function Nested(): seq<Block> {
    [Block(0, 0, None, None, [1]), Block(0, 0, None, None, [2, 3]),
     Block(1, 1, None, Some(3), []), Block(1, 1, Some(2), None, [])]
  }

  lemma NestedForest()
    ensures Forest(Nested())
  {
    forall n | 0 <= n < |Nested()|
      ensures BlockOk(Nested(), n)
    {
      assert n == 0 || n == 1 || n == 2 || n == 3;
    }
  }

  ghost predicate InNested(w: World) {
    w.blocks == Nested() && w.valid == {0, 1} && !w.holds(2, w.attr(1)) && w.holds(3, w.attr(1))
  }

  lemma NestedCheck(w: World, result: seq<Result>)
    requires InNested(w) && Forest(w.blocks) && !w.holds(1, w.attr(0)) && result == [UNSET, UNSET, UNSET, UNSET]
    ensures Checked(w, result, 3) == [UNSET, FALSE, UNSET, SKIP]
  {
    assert Eval(w, 1) == FALSE && Eval(w, 3) == SKIP;
    assert WithAsked(w, result, 1) == result;
    assert Checked(w, result, 1) == result[1 := FALSE];
    assert WithAsked(w, result, 3) == result[1 := FALSE];
  }

  lemma NestedEval(w: World)
    requires InNested(w) && Forest(w.blocks) && w.holds(1, w.attr(0))
    ensures Eval(w, 3) == TRUE
  {
    assert Eval(w, 1) == TRUE && Eval(w, 2) == FALSE;
  }

  // Clearing finds the outer condition and stops at the inner if, which is unset.
  lemma NestedUnreached(result: seq<Result>)
    requires result == [UNSET, FALSE, UNSET, SKIP]
    ensures !Reached(Nested(), result, 3, 0) && LooksAt(Nested(), 3, 0)
  {
    assert Asks(Nested(), 3, 1) && LooksAt(Nested(), 1, 0);
  }

  // The else branch is asked first, while the outer condition fails. Then that comes to
  // hold, and the cache is told; but the else branch stays skipped.
  method OutOfTurnGoesStale() returns (c: Connection)
    ensures fresh(c) && Forest(c.blocks) && |c.result| == |c.blocks| == 4
    ensures c.stale == {} && c.result[3] == SKIP && Eval(c.W(), 3) == TRUE
  {
    NestedForest();
    c := new Connection(Nested(), (n, s) => n == 3 || (n == 1 && s == "b"), _ => "a");
    hide Forest, Nested, Eval, Checked, InTurn, Reached, Supported, ResultsOk, LocalsOk;
    assert c.result == [UNSET, UNSET, UNSET, UNSET];
    c.SetAvailable(0);
    c.SetAvailable(1);
    NestedCheck(c.W(), c.result);
    var r := c.CheckCached(3);
    NestedUnreached(c.result);
    c.SetAttribute(0, "b");
    c.ResetItem(0);
    NestedEval(c.W());
  }
}
