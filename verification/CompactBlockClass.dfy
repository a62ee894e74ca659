/** The receiver's side of a compact block: the message is laid out into slots, the mempool and
  * extra transactions are scanned for the short ids, and the block is filled in.
  */
module CompactBlockClass {
  import opened CompactBlocks

  datatype Status = OK | INVALID | FAILED

  type Id16 = map<nat, nat>

  /** The keys are the first `n` short ids. */
  ghost predicate Keyed(ids: seq<nat>, index: Id16, n: nat)
    requires n <= |ids|
  {
    && (forall id :: id in index ==> exists i :: 0 <= i < n && ids[i] == id)
    && (forall i :: 0 <= i < n ==> ids[i] in index)
  }

  /** Where each short id points. */
  ghost predicate Points(m: Message, free: seq<nat>, index: Id16, n: nat)
    requires n <= |m.ids| && n <= |free|
  {
    && Keyed(m.ids, index, n)
    && |index| <= n
    && (|index| == n <==> Distinct(m.ids, n))
    && (|index| == n ==> forall i :: 0 <= i < n ==> index[m.ids[i]] == free[i])
  }

  lemma KeyedNext(ids: seq<nat>, index: Id16, n: nat, s: nat)
    requires n < |ids| && Keyed(ids, index, n)
    ensures Keyed(ids, index[ids[n] := s], n + 1)
  {
  }

  lemma DistinctNext(ids: seq<nat>, index: Id16, n: nat)
    requires n < |ids| && Keyed(ids, index, n)
    ensures Distinct(ids, n + 1) <==> Distinct(ids, n) && ids[n] !in index
  {
    if ids[n] in index {
      var i :| 0 <= i < n && ids[i] == ids[n];
    } else {
      forall i | 0 <= i < n ensures ids[i] != ids[n] { assert ids[i] in index; }
    }
  }

  lemma SizeNext(index: Id16, id: nat, s: nat)
    ensures |index[id := s]| == |index| + if id in index then 0 else 1
  {
    var next := index[id := s];
    assert |next.Keys| == |next| && |index.Keys| == |index|;
    if id in index {
      assert next.Keys == index.Keys;
    } else {
      assert next.Keys == index.Keys + {id};
    }
  }

  lemma PointsNext(m: Message, free: seq<nat>, index: Id16, n: nat)
    requires n < |m.ids| && n < |free| && Points(m, free, index, n)
    ensures Points(m, free, index[m.ids[n] := free[n]], n + 1)
  {
    hide Keyed, Distinct;
    KeyedNext(m.ids, index, n, free[n]);
    DistinctNext(m.ids, index, n);
    SizeNext(index, m.ids[n], free[n]);
    KeyedHas(m.ids, index, n);
  }

  lemma KeyedHas(ids: seq<nat>, index: Id16, n: nat)
    requires n <= |ids| && Keyed(ids, index, n)
    ensures forall i :: 0 <= i < n ==> ids[i] in index
  {
  }

  /** The listed slots and the prefilled ones, once all short ids are placed. */
  lemma AllAssigned(m: Message, slots: Slots, free: seq<nat>, bound: nat)
    requires Placed(m, |m.prefilled|, slots) && bound <= |slots| && FreeBelow(slots, free, bound) && |free| == |m.ids|
    ensures Assigned(m, free)
  {
    hide CountFree, SlotOf;
    forall j | bound <= j < |slots| ensures slots[j].Some? {
      NoneLeft(m, slots, free, bound, j);
    }
  }

  lemma NoneLeft(m: Message, slots: Slots, free: seq<nat>, bound: nat, j: nat)
    requires Placed(m, |m.prefilled|, slots) && bound <= j < |slots| && FreeBelow(slots, free, bound) && |free| == |m.ids|
    ensures slots[j].Some?
  {
    hide CountFree, SlotOf;
    assert slots[..|slots|] == slots;
    CountFreeGrows(slots, bound, j);
    CountFreeNext(slots, j);
    CountFreeGrows(slots, j + 1, |slots|);
  }

  lemma FreeNext(slots: Slots, free: seq<nat>, bound: nat, s: nat)
    requires bound <= s < |slots| && FreeBelow(slots, free, bound)
    requires slots[s].None? && CountFree(slots[..s]) == |free| && forall j :: bound <= j < s ==> slots[j].Some?
    ensures FreeBelow(slots, free + [s], s + 1)
  {
    CountFreeNext(slots, s);
    var next := free + [s];
    forall j | 0 <= j < s + 1 && slots[j].None? ensures j in next {
      if j < bound { assert j in free; } else { assert next[|free|] == s; }
    }
  }

  class PartialBlock {
    var available: Slots
    var prefilledCount: nat
    var mempoolCount: int
    var extraCount: int
    var header: Header

    constructor ()
      ensures header == NullHeader && available == [] && mempoolCount == 0
    {
      available, prefilledCount, mempoolCount, extraCount, header := [], 0, 0, 0, NullHeader;
    }

    /** Put the prefilled transactions into their slots. */
    method PlacePrefilled(m: Message) returns (ok: bool)
      requires |available| == m.Count() && forall j :: 0 <= j < |available| ==> available[j].None?
      modifies this`available
      ensures ok <==> PrefilledOk(m)
      ensures ok ==> Placed(m, |m.prefilled|, available)
    {
      hide LastSlot, CountFree;
      var last := -1;
      CountFreeAll(available);
      LastStart(m.prefilled);
      for i := 0 to |m.prefilled|
        invariant last == LastSlot(m.prefilled[..i])
        invariant forall k :: 0 <= k < i ==> !m.prefilled[k].tx.isNull && SlotOf(m.prefilled, k) <= UINT16_MAX && SlotOf(m.prefilled, k) <= |m.ids| + k
        invariant Placed(m, i, available)
      {
        if m.prefilled[i].tx.isNull { return false; }
        SlotNext(m.prefilled, i);
        last := last + m.prefilled[i].index + 1;
        if last > UINT16_MAX { return false; }
        if last > |m.ids| + i { return false; }
        SlotIsNew(m, i, available);
        available := available[last := Some(m.prefilled[i].tx)];
        assert last == SlotOf(m.prefilled, i);
      }
      return true;
    }

    /** The offset of the next free slot for short id `i`; the 16-bit offset never wraps. */
    method NextFree(m: Message, i: nat, start: Uint16, ghost free: seq<nat>) returns (offset: Uint16)
      requires m.Count() <= UINT16_MAX && Placed(m, |m.prefilled|, available) && i < |m.ids|
      requires |free| == i && i + start <= |available| && FreeBelow(available, free, i + start)
      ensures offset >= start && i + offset < |available| && FreeBelow(available, free + [i + offset], i + offset + 1)
    {
      hide CountFree, FreeBelow, Placed;
      ghost var bound: nat := i + start;
      offset := start;
      NothingMapped(m, available);
      FreeStart(available, free, bound);
      SlotLeft(m, available, i + offset, i);
      while available[i + offset].Some?
        invariant offset >= start && i + offset < |available|
        invariant CountFree(available[..i + offset]) == i
        invariant forall j :: bound <= j < i + offset ==> available[j].Some?
        decreases |available| - (i + offset)
      {
        CountFreeNext(available, i + offset);
        SlotLeft(m, available, i + offset + 1, i);
        offset := (offset + 1) % 65536;
      }
      FreeNext(available, free, bound, i + offset);
    }

    /** Give each short id the next free slot. The table of short ids may be refused when a
      * bucket gets too large, and is refused when two short ids are equal.
      */
    method MapIds(m: Message, crowded: nat -> bool) returns (ok: bool, index: Id16, ghost free: seq<nat>)
      requires m.Count() <= UINT16_MAX && Placed(m, |m.prefilled|, available)
      ensures ok <==> Distinct(m.ids, |m.ids|) && forall i :: 0 <= i < |m.ids| ==> !crowded(i)
      ensures ok ==> Assigned(m, free) && Points(m, free, index, |m.ids|) && |index| == |m.ids|
      ensures ok ==> forall i :: 0 <= i < |free| ==> free[i] < |available| && available[free[i]].None?
    {
      hide CountFree, Distinct, Assigned, Placed, FreeBelow, Points;
      index, free := map[], [];
      var offset: Uint16 := 0;
      NothingMapped(m, available);
      ghost var bound := 0;
      for i := 0 to |m.ids|
        invariant |free| == i && bound == i + offset <= |available| == m.Count()
        invariant FreeBelow(available, free, bound)
        invariant Points(m, free, index, i)
        invariant forall k :: 0 <= k < i ==> !crowded(k)
      {
        offset := NextFree(m, i, offset, free);
        ghost var s := i + offset;
        free := free + [s];
        PointsKeep(m, free, index, i);
        PointsNext(m, free, index, i);
        index := index[m.ids[i] := (i + offset) % 65536];
        bound := s + 1;
        if crowded(i) { return false, index, free; }
      }
      PointsEnd(m, free, index);
      if |index| != |m.ids| { return false, index, free; }
      AllAssigned(m, available, free, bound);
      FreeStart(available, free, bound);
      return true, index, free;
    }

    /** Look at one mempool transaction: the first match takes the slot, a second empties it. */
    method OfferPool(m: Message, index: Id16, have: seq<bool>, tx: Tx, ghost l: Layout, ghost pool: seq<Tx>, ghost base: int)
      returns (have': seq<bool>)
      requires Progress(m, l, index, available, have, pool, [], mempoolCount - base)
      modifies this`available, this`mempoolCount
      ensures Progress(m, l, index, available, have', pool + [tx], [], mempoolCount - base)
    {
      hide Progress, Points;
      ProgressShape(m, l, index, available, have, pool, [], mempoolCount - base);
      have' := have;
      var id := m.shortId(tx.wtxid);
      if id in index {
        var slot := index[id];
        ghost var k := FindId(m, l, index, id);
        if !have[slot] {
          ProgressStep(m, l, index, available, have, pool, [], pool + [tx], [], tx, k, Some(tx), mempoolCount - base);
          available := available[slot := Some(tx)];
          have' := have[slot := true];
          mempoolCount := mempoolCount + 1;
        } else if available[slot].Some? {
          ProgressStep(m, l, index, available, have, pool, [], pool + [tx], [], tx, k, None, mempoolCount - base);
          assert have[slot := true] == have;
          available := available[slot := None];
          mempoolCount := mempoolCount - 1;
        } else {
          ProgressStep(m, l, index, available, have, pool, [], pool + [tx], [], tx, k, None, mempoolCount - base);
          assert have[slot := true] == have && available[slot := None] == available;
        }
      } else {
        ProgressSkip(m, l, index, available, have, pool, [], pool + [tx], [], tx, mempoolCount - base);
      }
    }

    /** Look at one extra transaction: a second match empties the slot unless it is the same
      * transaction again.
      */
    method OfferExtra(m: Message, index: Id16, have: seq<bool>, tx: Tx, ghost l: Layout, ghost pool: seq<Tx>, ghost extra: seq<Tx>, ghost base: int)
      returns (have': seq<bool>)
      requires Progress(m, l, index, available, have, pool, extra, mempoolCount - base)
      modifies this`available, this`mempoolCount, this`extraCount
      ensures Progress(m, l, index, available, have', pool, extra + [tx], mempoolCount - base)
    {
      hide Progress, Points;
      ProgressShape(m, l, index, available, have, pool, extra, mempoolCount - base);
      have' := have;
      var id := m.shortId(tx.wtxid);
      if id in index {
        var slot := index[id];
        ghost var k := FindId(m, l, index, id);
        if !have[slot] {
          ProgressStep(m, l, index, available, have, pool, extra, pool, extra + [tx], tx, k, Some(tx), mempoolCount - base);
          available := available[slot := Some(tx)];
          have' := have[slot := true];
          mempoolCount := mempoolCount + 1;
          extraCount := extraCount + 1;
        } else if available[slot].Some? && available[slot].value.wtxid != tx.wtxid {
          ProgressStep(m, l, index, available, have, pool, extra, pool, extra + [tx], tx, k, None, mempoolCount - base);
          assert have[slot := true] == have;
          available := available[slot := None];
          mempoolCount := mempoolCount - 1;
          extraCount := extraCount - 1;
        } else {
          ProgressStep(m, l, index, available, have, pool, extra, pool, extra + [tx], tx, k, available[slot], mempoolCount - base);
          assert have[slot := true] == have && available[slot := available[slot]] == available;
        }
      } else {
        ProgressSkip(m, l, index, available, have, pool, extra, pool, extra + [tx], tx, mempoolCount - base);
      }
    }

    /** Scan the mempool, stopping early when the count reaches the number of short ids. */
    method ScanPool(m: Message, index: Id16, have: seq<bool>, pool: seq<Tx>, ghost l: Layout, ghost base: int)
      returns (have': seq<bool>, ghost p: nat)
      requires Progress(m, l, index, available, have, [], [], mempoolCount - base)
      modifies this`available, this`mempoolCount
      ensures p <= |pool| && Progress(m, l, index, available, have', pool[..p], [], mempoolCount - base)
      ensures p == |pool| || mempoolCount == |index|
    {
      hide Progress;
      have' := have;
      p := 0;
      assert pool[..0] == [];
      for i := 0 to |pool|
        invariant p == i && Progress(m, l, index, available, have', pool[..i], [], mempoolCount - base)
      {
        have' := OfferPool(m, index, have', pool[i], l, pool[..i], base);
        assert pool[..i + 1] == pool[..i] + [pool[i]];
        p := i + 1;
        if mempoolCount == |index| { break; }
      }
    }

    method ScanExtra(m: Message, index: Id16, have: seq<bool>, extra: seq<Tx>, ghost l: Layout, ghost pool: seq<Tx>, ghost base: int)
      returns (have': seq<bool>, ghost q: nat)
      requires Progress(m, l, index, available, have, pool, [], mempoolCount - base)
      modifies this`available, this`mempoolCount, this`extraCount
      ensures q <= |extra| && Progress(m, l, index, available, have', pool, extra[..q], mempoolCount - base)
      ensures q == |extra| || mempoolCount == |index|
    {
      hide Progress;
      have' := have;
      q := 0;
      assert extra[..0] == [];
      for i := 0 to |extra|
        invariant q == i && Progress(m, l, index, available, have', pool, extra[..i], mempoolCount - base)
      {
        have' := OfferExtra(m, index, have', extra[i], l, pool, extra[..i], base);
        assert extra[..i + 1] == extra[..i] + [extra[i]];
        q := i + 1;
        if mempoolCount == |index| { break; }
      }
    }

    /** Fill the free slots from the mempool and then from the extra transactions. */
    method FillSlots(m: Message, index: Id16, pool: seq<Tx>, extra: seq<Tx>, ghost free: seq<nat>)
      requires Assigned(m, free) && Distinct(m.ids, |m.ids|) && Points(m, free, index, |m.ids|) && |index| == |m.ids|
      requires Placed(m, |m.prefilled|, available)
      requires forall i :: 0 <= i < |free| ==> free[i] < |available| && available[free[i]].None?
      modifies this`available, this`mempoolCount, this`extraCount
      ensures Laid(m, free, available, pool, extra)
      ensures mempoolCount == old(mempoolCount) + CountFilled(available, free)
      ensures old(mempoolCount) == 0 ==> Exhausted(m, free, available, pool, extra)
      ensures LookedThrough(m, free, available, pool, extra, old(mempoolCount) == 0)
    {
      hide Progress, Placed, Assigned, Points, Distinct, Laid, Exhausted, CountFilled, Matching, Looked;
      ghost var l := Layout(available, free);
      ghost var base := mempoolCount;
      var have := seq(|available|, _ => false);
      ProgressStart(m, l, index, have);
      ghost var p, q;
      have, p := ScanPool(m, index, have, pool, l, base);
      ProgressFound(m, l, index, available, have, pool[..p], [], mempoolCount - base);
      ProgressOnce(m, l, index, available, have, pool[..p], [], mempoolCount - base);
      MatchingNone(m);
      have, q := ScanExtra(m, index, have, extra, l, pool[..p], base);
      ProgressLaid(m, l, index, available, have, pool, p, extra, q, mempoolCount - base);
      if base == 0 { ProgressEnd(m, l, index, available, have, pool, p, extra, q, mempoolCount); }
      ProgressLooked(m, l, index, available, have, pool, p, extra, q, mempoolCount - base, base == 0);
      LaidShape(m, free, available, pool, extra);
    }

    /** Start a block from a message. `crowded` says at which short id, if any, a bucket of the
      * table of short ids gets too large. `free` lists the slots of the short ids.
      */
    method InitData(m: Message, pool: seq<Tx>, extra: seq<Tx>, crowded: nat -> bool) returns (status: Status, ghost free: seq<nat>)
      requires m.Count() <= UINT16_MAX
      modifies this
      ensures status == INVALID <==> !WellFormed(m) || old(header) != NullHeader || old(available) != []
      ensures old(header) != NullHeader || old(available) != [] ==> unchanged(this)
      ensures status == FAILED ==> !(Distinct(m.ids, |m.ids|) && forall i :: 0 <= i < |m.ids| ==> !crowded(i))
      ensures status == OK ==> Distinct(m.ids, |m.ids|) && forall i :: 0 <= i < |m.ids| ==> !crowded(i)
      ensures status == OK ==> header == m.header && prefilledCount == |m.prefilled|
      ensures status == OK ==> Laid(m, free, available, pool, extra)
      ensures status == OK ==> mempoolCount == old(mempoolCount) + CountFilled(available, free)
      ensures status == OK && old(mempoolCount) == 0 ==> Exhausted(m, free, available, pool, extra)
      ensures status == OK ==> LookedThrough(m, free, available, pool, extra, old(mempoolCount) == 0)
    {
      hide PrefilledOk, Placed, Assigned, Points, Distinct, Laid, Exhausted, CountFilled, LookedThrough;
      free := [];
      if m.header == NullHeader || (m.ids == [] && m.prefilled == []) { return INVALID, free; }
      if |m.ids| + |m.prefilled| > MAX_COUNT { return INVALID, free; }
      if header != NullHeader || available != [] { return INVALID, free; }
      header := m.header;
      available := seq(m.Count(), _ => None);
      var ok := PlacePrefilled(m);
      if !ok { return INVALID, free; }
      prefilledCount := |m.prefilled|;
      var index;
      ok, index, free := MapIds(m, crowded);
      if !ok { return FAILED, free; }
      FillSlots(m, index, pool, extra, free);
      return OK, free;
    }

    method IsTxAvailable(i: nat) returns (r: bool)
      requires header != NullHeader ==> i < |available|
      ensures r <==> header != NullHeader && available[i].Some?
    {
      if header == NullHeader { return false; }
      return available[i].Some?;
    }

    /** Complete the block with the transactions sent for the empty slots, in order. `mutated`
      * is the final check on the block. Slots are emptied as they are used.
      */
    method FillBlock(missing: seq<Tx>, mutated: seq<Tx> -> bool) returns (status: Status, blockHeader: Header, vtx: seq<Tx>)
      modifies this
      ensures old(header) == NullHeader ==> status == INVALID && unchanged(this)
      ensures old(header) != NullHeader ==> blockHeader == old(header) && (status == INVALID <==> |missing| != CountFree(old(available)))
      ensures old(header) != NullHeader && |missing| < CountFree(old(available)) ==> header == old(header) && |available| == |old(available)|
      ensures old(header) != NullHeader && |missing| >= CountFree(old(available)) ==>
        header == NullHeader && available == [] && vtx == Filled(old(available), missing)
      ensures old(header) != NullHeader && |missing| == CountFree(old(available)) ==> (status == FAILED <==> mutated(vtx))
    {
      hide CountFree;
      vtx := [];
      blockHeader := header;
      if header == NullHeader { return INVALID, blockHeader, vtx; }
      ghost var slots := available;
      var offset := 0;
      CountFreeEmpty(slots);
      for i := 0 to |available|
        invariant header == old(header) && |available| == |slots| && available[i..] == slots[i..]
        invariant |vtx| == i && offset == CountFree(slots[..i]) <= |missing|
        invariant forall j :: 0 <= j < i ==> CountFree(slots[..j]) <= CountFree(slots[..i])
        invariant forall j :: 0 <= j < i && slots[j].None? ==> CountFree(slots[..j]) < |missing|
        invariant forall j :: 0 <= j < i ==> vtx[j] == if slots[j].Some? then slots[j].value else missing[CountFree(slots[..j])]
      {
        assert available[i] == slots[i];
        CountFreeNext(slots, i);
        if available[i].None? {
          if offset >= |missing| {
            CountFreeGrows(slots, i + 1, |slots|);
            assert slots[..|slots|] == slots;
            return INVALID, blockHeader, vtx;
          }
          vtx := vtx + [missing[offset]];
          offset := offset + 1;
        } else {
          vtx := vtx + [available[i].value];
          available := available[i := None];
        }
      }
      assert slots[..|slots|] == slots;
      assert vtx == Filled(slots, missing);
      header := NullHeader;
      available := [];
      if |missing| != offset { return INVALID, blockHeader, vtx; }
      if mutated(vtx) { return FAILED, blockHeader, vtx; }
      return OK, blockHeader, vtx;
    }
  }

  // ---------- The scan ----------

  /** The slots after the prefilled transactions, and the free ones among them. */
  datatype Layout = Layout(placed: Slots, free: seq<nat>)

  ghost predicate Progress(m: Message, l: Layout, index: Id16, slots: Slots, have: seq<bool>, pool: seq<Tx>, extra: seq<Tx>, count: int) {
    && Assigned(m, l.free) && Distinct(m.ids, |m.ids|) && Points(m, l.free, index, |m.ids|) && |index| == |m.ids|
    && Placed(m, |m.prefilled|, l.placed)
    && Scanned(m, l.placed, l.free, slots, have, pool, extra)
    && count == CountFilled(slots, l.free)
  }

  /** Every slot accounted for: prefilled ones keep their transaction, the others hold nothing
    * or a transaction of the mempool or the extra ones with the slot's short id.
    */
  ghost predicate Laid(m: Message, free: seq<nat>, slots: Slots, pool: seq<Tx>, extra: seq<Tx>) {
    && Assigned(m, free)
    && |slots| == m.Count()
    && (forall i :: 0 <= i < |m.prefilled| ==> slots[SlotOf(m.prefilled, i)] == Some(m.prefilled[i].tx))
    && (forall i :: 0 <= i < |free| && slots[free[i]].Some? ==>
          var tx := slots[free[i]].value; m.Matches(tx, i) && (tx in pool || tx in extra))
  }

  /** Every slot of a short id is filled exactly when it has a match among the transactions, the
    * mempool has no second one, and no extra transaction clashes.
    */
  ghost predicate Settled(m: Message, free: seq<nat>, slots: Slots, pool: seq<Tx>, extra: seq<Tx>)
    requires Laid(m, free, slots, pool, extra)
  {
    forall i :: 0 <= i < |free| ==>
      (slots[free[i]].Some? <==>
        && Matching(m, i, pool) + Matching(m, i, extra) >= 1
        && Matching(m, i, pool) <= 1
        && !Clash(m, i, pool, extra))
  }

  /** The slots are settled by the first `p` of the mempool and the first `q` extra transactions;
    * the mempool scan stops early only when it has a match for every short id, and the scan of
    * the extra ones only when every slot is filled.
    */
  ghost predicate Looked(m: Message, free: seq<nat>, slots: Slots, pool: seq<Tx>, p: nat, extra: seq<Tx>, q: nat, unstarted: bool)
    requires p <= |pool| && q <= |extra|
  {
    && Laid(m, free, slots, pool[..p], extra[..q]) && Settled(m, free, slots, pool[..p], extra[..q])
    && (unstarted && p < |pool| ==> forall i :: 0 <= i < |m.ids| ==> Matching(m, i, pool[..p]) == 1)
    && (unstarted && q < |extra| ==> forall i :: 0 <= i < |free| ==> slots[free[i]].Some?)
  }

  ghost predicate LookedThrough(m: Message, free: seq<nat>, slots: Slots, pool: seq<Tx>, extra: seq<Tx>, unstarted: bool) {
    exists p, q :: 0 <= p <= |pool| && 0 <= q <= |extra| && Looked(m, free, slots, pool, p, extra, q, unstarted)
  }

  /** A slot left empty does not have exactly one match among all the transactions. */
  ghost predicate Exhausted(m: Message, free: seq<nat>, slots: Slots, pool: seq<Tx>, extra: seq<Tx>)
    requires Laid(m, free, slots, pool, extra)
  {
    forall i :: 0 <= i < |free| && slots[free[i]].None? ==> Matching(m, i, pool) + Matching(m, i, extra) != 1
  }

  lemma ProgressShape(m: Message, l: Layout, index: Id16, slots: Slots, have: seq<bool>, pool: seq<Tx>, extra: seq<Tx>, count: int)
    requires Progress(m, l, index, slots, have, pool, extra, count)
    ensures |slots| == |have| == m.Count() && |l.free| == |m.ids| && |index| == |m.ids|
    ensures Points(m, l.free, index, |m.ids|)
    ensures forall id :: id in index ==> index[id] < |slots|
  {
    hide Distinct, Scanned, Placed;
    assert |slots| == |have| == m.Count() by { ScannedShape(m, l, slots, have, pool, extra); }
    forall id | id in index ensures index[id] < |slots| {
      var i :| 0 <= i < |m.ids| && m.ids[i] == id;
      assert index[m.ids[i]] == l.free[i];
    }
  }

  lemma ScannedShape(m: Message, l: Layout, slots: Slots, have: seq<bool>, pool: seq<Tx>, extra: seq<Tx>)
    requires Assigned(m, l.free) && Scanned(m, l.placed, l.free, slots, have, pool, extra)
    ensures |slots| == |have| == m.Count()
  {
    hide Assigned;
  }

  lemma FindId(m: Message, l: Layout, index: Id16, id: nat) returns (k: nat)
    requires |l.free| == |m.ids| == |index| && Points(m, l.free, index, |m.ids|) && id in index
    ensures k < |m.ids| && m.ids[k] == id && index[id] == l.free[k]
  {
    k :| 0 <= k < |m.ids| && m.ids[k] == id;
    assert index[m.ids[k]] == l.free[k];
  }

  /** A short id outside the table matches nothing. */
  lemma ProgressSkip(m: Message, l: Layout, index: Id16, slots: Slots, have: seq<bool>,
                     pool: seq<Tx>, extra: seq<Tx>, pool': seq<Tx>, extra': seq<Tx>, tx: Tx, count: int)
    requires Progress(m, l, index, slots, have, pool, extra, count) && Extended(pool, extra, pool', extra', tx)
    requires m.shortId(tx.wtxid) !in index
    ensures Progress(m, l, index, slots, have, pool', extra', count)
  {
    hide Assigned, Scanned, Distinct, Placed;
    forall i | 0 <= i < |m.ids| ensures !m.Matches(tx, i) { assert m.ids[i] in index; }
    ScannedSkip(m, l.placed, l.free, slots, have, pool, extra, pool', extra', tx);
  }

  lemma ProgressStep(m: Message, l: Layout, index: Id16, slots: Slots, have: seq<bool>,
                     pool: seq<Tx>, extra: seq<Tx>, pool': seq<Tx>, extra': seq<Tx>, tx: Tx, k: nat, v: Option<Tx>, count: int)
    requires Progress(m, l, index, slots, have, pool, extra, count) && Extended(pool, extra, pool', extra', tx)
    requires k < |l.free| == |m.ids| && m.Matches(tx, k) && l.free[k] < |slots| == |have|
    requires (pool' != pool ==> extra == []) && v == Offer(slots[l.free[k]], have[l.free[k]], pool' != pool, tx)
    ensures Progress(m, l, index, slots[l.free[k] := v], have[l.free[k] := true], pool', extra',
                     count + (if v.Some? then 1 else 0) - if slots[l.free[k]].Some? then 1 else 0)
    ensures !have[l.free[k]] ==> slots[l.free[k]].None?
  {
    hide Scanned, Points, Distinct, Placed;
    var s := l.free[k];
    ScannedShape(m, l, slots, have, pool, extra);
    ScannedStep(m, l.placed, l.free, slots, have, slots[s := v], have[s := true], k, pool, extra, pool', extra', tx);
    CountFilledSet(slots, l.free, k, v);
    NotYet(m, l, slots, have, k, pool, extra);
  }

  lemma NotYet(m: Message, l: Layout, slots: Slots, have: seq<bool>, k: nat, pool: seq<Tx>, extra: seq<Tx>)
    requires Assigned(m, l.free) && Scanned(m, l.placed, l.free, slots, have, pool, extra) && k < |l.free|
    ensures !have[l.free[k]] ==> slots[l.free[k]].None?
  {
    assert SlotScanned(m, slots, have, l.free[k], k, pool, extra);
  }

  lemma ProgressStart(m: Message, l: Layout, index: Id16, have: seq<bool>)
    requires Assigned(m, l.free) && Distinct(m.ids, |m.ids|) && Points(m, l.free, index, |m.ids|) && |index| == |m.ids|
    requires Placed(m, |m.prefilled|, l.placed) && |have| == |l.placed|
    requires forall i :: 0 <= i < |l.free| ==> l.free[i] < |l.placed| && l.placed[l.free[i]].None?
    requires forall j :: 0 <= j < |have| ==> !have[j]
    ensures Progress(m, l, index, l.placed, have, [], [], 0)
  {
    hide Scanned, Points, Distinct, Assigned;
    assert |l.placed| == m.Count();
    ScannedStart(m, l.placed, l.free, have);
    CountFilledNone(l.placed, l.free);
  }

  /** When the count reaches the number of short ids, every slot has its match. */
  lemma ProgressFound(m: Message, l: Layout, index: Id16, slots: Slots, have: seq<bool>, pool: seq<Tx>, extra: seq<Tx>, count: int)
    requires Progress(m, l, index, slots, have, pool, extra, count)
    ensures count == |index| ==> forall i :: 0 <= i < |m.ids| ==> Matching(m, i, pool) + Matching(m, i, extra) >= 1
  {
    hide Points, Distinct, Placed, Matching;
    if count == |index| {
      CountFilledAll(slots, l.free);
      forall i | 0 <= i < |m.ids| ensures Matching(m, i, pool) + Matching(m, i, extra) >= 1 {
        assert SlotScanned(m, slots, have, l.free[i], i, pool, extra);
      }
    }
  }

  /** When the count reaches the number of short ids, no match is a second one of the mempool. */
  lemma ProgressOnce(m: Message, l: Layout, index: Id16, slots: Slots, have: seq<bool>, pool: seq<Tx>, extra: seq<Tx>, count: int)
    requires Progress(m, l, index, slots, have, pool, extra, count)
    ensures count == |index| ==> forall i :: 0 <= i < |m.ids| ==> Matching(m, i, pool) <= 1
  {
    hide Points, Distinct, Placed, Matching;
    if count == |index| {
      CountFilledAll(slots, l.free);
      forall i | 0 <= i < |m.ids| ensures Matching(m, i, pool) <= 1 {
        assert SlotScanned(m, slots, have, l.free[i], i, pool, extra);
      }
    }
  }

  lemma ProgressLooked(m: Message, l: Layout, index: Id16, slots: Slots, have: seq<bool>, pool: seq<Tx>, p: nat, extra: seq<Tx>, q: nat, count: int, unstarted: bool)
    requires p <= |pool| && q <= |extra| && Progress(m, l, index, slots, have, pool[..p], extra[..q], count)
    requires unstarted && p < |pool| ==> forall i :: 0 <= i < |m.ids| ==> Matching(m, i, pool[..p]) == 1
    requires unstarted && q < |extra| ==> count == |index|
    ensures Looked(m, l.free, slots, pool, p, extra, q, unstarted)
  {
    hide Points, Distinct, Placed, Matching, Laid, Clash;
    assert pool[..p][..p] == pool[..p] && extra[..q][..q] == extra[..q];
    ProgressLaid(m, l, index, slots, have, pool[..p], p, extra[..q], q, count);
    CountFilledAll(slots, l.free);
    forall i | 0 <= i < |l.free|
      ensures slots[l.free[i]].Some? <==>
        Matching(m, i, pool[..p]) + Matching(m, i, extra[..q]) >= 1 && Matching(m, i, pool[..p]) <= 1 && !Clash(m, i, pool[..p], extra[..q])
    {
      assert SlotScanned(m, slots, have, l.free[i], i, pool[..p], extra[..q]);
      SlotSettled(m, slots, have, l.free[i], i, pool[..p], extra[..q]);
    }
  }

  lemma ProgressLaid(m: Message, l: Layout, index: Id16, slots: Slots, have: seq<bool>, pool: seq<Tx>, p: nat, extra: seq<Tx>, q: nat, count: int)
    requires p <= |pool| && q <= |extra| && Progress(m, l, index, slots, have, pool[..p], extra[..q], count)
    ensures Laid(m, l.free, slots, pool, extra) && count == CountFilled(slots, l.free)
  {
    hide Points, Distinct, Matching, CountFree;
    forall i | 0 <= i < |m.prefilled| ensures slots[SlotOf(m.prefilled, i)] == Some(m.prefilled[i].tx) {
      NotListed(m, l.free, i);
    }
    forall i | 0 <= i < |l.free| && slots[l.free[i]].Some?
      ensures m.Matches(slots[l.free[i]].value, i) && (slots[l.free[i]].value in pool || slots[l.free[i]].value in extra)
    {
      assert SlotScanned(m, slots, have, l.free[i], i, pool[..p], extra[..q]);
    }
  }

  lemma MatchingNone(m: Message)
    ensures forall i :: 0 <= i < |m.ids| ==> Matching(m, i, []) == 0
  {
  }

  lemma LaidShape(m: Message, free: seq<nat>, slots: Slots, pool: seq<Tx>, extra: seq<Tx>)
    requires Laid(m, free, slots, pool, extra)
    ensures |free| == |m.ids| && |slots| == m.Count() && forall i :: 0 <= i < |free| ==> free[i] < |slots|
  {
  }

  lemma NotListed(m: Message, free: seq<nat>, i: nat)
    requires Assigned(m, free) && i < |m.prefilled|
    ensures SlotOf(m.prefilled, i) !in free
  {
    forall k | 0 <= k < |free| ensures free[k] != SlotOf(m.prefilled, i) {}
  }

  /** A scan that ran to the end, or stopped with every slot matched, missed nothing. */
  lemma ProgressEnd(m: Message, l: Layout, index: Id16, slots: Slots, have: seq<bool>, pool: seq<Tx>, p: nat, extra: seq<Tx>, q: nat, count: int)
    requires p <= |pool| && q <= |extra| && Progress(m, l, index, slots, have, pool[..p], extra[..q], count)
    requires Laid(m, l.free, slots, pool, extra)
    requires p == |pool| || forall i :: 0 <= i < |m.ids| ==> Matching(m, i, pool[..p]) >= 1
    requires q == |extra| || count == |index|
    ensures Exhausted(m, l.free, slots, pool, extra)
  {
    hide Points, Distinct, Placed, Matching, Laid;
    CountFilledAll(slots, l.free);
    assert pool[..|pool|] == pool && extra[..|extra|] == extra;
    forall i | 0 <= i < |l.free| && slots[l.free[i]].None?
      ensures Matching(m, i, pool) + Matching(m, i, extra) != 1
    {
      assert SlotScanned(m, slots, have, l.free[i], i, pool[..p], extra[..q]);
      MatchingPrefix(m, i, pool, p);
      MatchingPrefix(m, i, extra, q);
    }
  }

  lemma LastStart(p: seq<Prefilled>)
    ensures LastSlot(p[..0]) == -1
  {
  }

  /** A prefilled slot has not been used before. */
  lemma SlotIsNew(m: Message, i: nat, slots: Slots)
    requires i < |m.prefilled| && Placed(m, i, slots) && SlotOf(m.prefilled, i) <= |m.ids| + i
    ensures 0 <= SlotOf(m.prefilled, i) < |slots| && slots[SlotOf(m.prefilled, i)].None?
    ensures Placed(m, i + 1, slots[SlotOf(m.prefilled, i) := Some(m.prefilled[i].tx)])
  {
    hide LastSlot, SlotOf, CountFree;
    SlotNonnegative(m.prefilled, i);
    var s := SlotOf(m.prefilled, i);
    forall k | 0 <= k < i ensures SlotOf(m.prefilled, k) != s { SlotsIncrease(m.prefilled, k, i); }
    CountFreeSet(slots, s, m.prefilled[i].tx);
    var next := slots[s := Some(m.prefilled[i].tx)];
    forall j | 0 <= j < |next| && next[j].Some? ensures exists k :: 0 <= k < i + 1 && SlotOf(m.prefilled, k) == j {
      if j == s { assert SlotOf(m.prefilled, i) == j; } else { assert slots[j].Some?; }
    }
  }

  lemma SlotNonnegative(p: seq<Prefilled>, i: nat)
    requires i < |p|
    ensures SlotOf(p, i) >= 0
  {
    LastNonnegative(p[..i + 1]);
  }

  lemma NothingMapped(m: Message, slots: Slots)
    requires Placed(m, |m.prefilled|, slots)
    ensures FreeBelow(slots, [], 0) && Points(m, [], map[], 0) && |slots| == m.Count()
  {
  }

  lemma FreeStart(slots: Slots, free: seq<nat>, bound: nat)
    requires bound <= |slots| && FreeBelow(slots, free, bound)
    ensures CountFree(slots[..bound]) == |free|
    ensures forall i :: 0 <= i < |free| ==> free[i] < |slots| && slots[free[i]].None?
  {
  }

  /** While short ids are left there is a free slot left. */
  lemma SlotLeft(m: Message, slots: Slots, s: nat, i: nat)
    requires Placed(m, |m.prefilled|, slots) && s <= |slots| && i < |m.ids| && CountFree(slots[..s]) == i
    ensures s < |slots|
  {
    assert slots[..|slots|] == slots;
  }

  lemma PointsKeep(m: Message, free: seq<nat>, index: Id16, n: nat)
    requires n < |free| && n <= |m.ids| && Points(m, free[..n], index, n)
    ensures Points(m, free, index, n)
  {
  }

  lemma PointsEnd(m: Message, free: seq<nat>, index: Id16)
    requires |free| == |m.ids| && Points(m, free, index, |m.ids|)
    ensures |index| == |m.ids| <==> Distinct(m.ids, |m.ids|)
  {
  }

  // ---------- Filling in ----------

  lemma CountFreeEmpty(slots: Slots)
    ensures CountFree(slots[..0]) == 0
  {
  }

  lemma FreeInside(slots: Slots, j: nat)
    requires j < |slots| && slots[j].None?
    ensures CountFree(slots[..j]) < CountFree(slots)
  {
    CountFreeNext(slots, j);
    CountFreeGrows(slots, j + 1, |slots|);
    assert slots[..|slots|] == slots;
  }

  /** The slots with the empty ones filled from a list, in order. */
  ghost function Filled(slots: Slots, missing: seq<Tx>): (vtx: seq<Tx>)
    requires |missing| >= CountFree(slots)
    ensures |vtx| == |slots|
    ensures forall j :: 0 <= j < |slots| && slots[j].Some? ==> vtx[j] == slots[j].value
    ensures forall j :: 0 <= j < |slots| && slots[j].None? ==> CountFree(slots[..j]) < |missing| && vtx[j] == missing[CountFree(slots[..j])]
  {
    forall j | 0 <= j < |slots| && slots[j].None? ensures CountFree(slots[..j]) < |missing| { FreeInside(slots, j); }
    seq(|slots|, j requires 0 <= j < |slots| =>
      if slots[j].Some? then slots[j].value else FreeInside(slots, j); missing[CountFree(slots[..j])])
  }

  /** The transactions of a block at the empty slots. */
  ghost function MissingOf(slots: Slots, vtx: seq<Tx>): (missing: seq<Tx>)
    requires |slots| == |vtx|
    ensures |missing| == CountFree(slots)
  {
    if slots == [] then []
    else
      var n := |slots| - 1;
      MissingOf(slots[..n], vtx[..n]) + if slots[n].None? then [vtx[n]] else []
  }

  lemma {:induction false} MissingAt(slots: Slots, vtx: seq<Tx>, j: nat)
    requires j < |slots| == |vtx| && slots[j].None?
    ensures CountFree(slots[..j]) < CountFree(slots) && MissingOf(slots, vtx)[CountFree(slots[..j])] == vtx[j]
  {
    var n := |slots| - 1;
    FreeInside(slots, j);
    if j < n {
      MissingAt(slots[..n], vtx[..n], j);
      assert slots[..n][..j] == slots[..j];
      assert MissingOf(slots, vtx)[CountFree(slots[..j])] == MissingOf(slots[..n], vtx[..n])[CountFree(slots[..j])];
    }
  }

  /** Slots that hold nothing wrong, completed with what is missing, are the block. */
  lemma FilledBlock(slots: Slots, vtx: seq<Tx>)
    requires |slots| == |vtx| && forall j :: 0 <= j < |slots| && slots[j].Some? ==> slots[j].value == vtx[j]
    ensures Filled(slots, MissingOf(slots, vtx)) == vtx
  {
    hide CountFree, MissingOf, Filled;
    forall j | 0 <= j < |slots| ensures Filled(slots, MissingOf(slots, vtx))[j] == vtx[j] {
      if slots[j].None? { MissingAt(slots, vtx, j); }
    }
  }

  // ---------- The sender's side ----------

  function ShortIds(vtx: seq<Tx>, shortId: int -> nat): (ids: seq<nat>)
    requires vtx != []
    ensures |ids| == |vtx| - 1 && forall i :: 0 <= i < |ids| ==> ids[i] == shortId(vtx[i + 1].wtxid)
  {
    seq(|vtx| - 1, i requires 0 <= i < |vtx| - 1 => shortId(vtx[i + 1].wtxid))
  }

  /** The message for a block: the first transaction in full, short ids for the rest. */
  method Announce(header: Header, vtx: seq<Tx>, shortId: int -> nat) returns (m: Message)
    requires vtx != []
    ensures m == Message(header, ShortIds(vtx, shortId), [Prefilled(0, vtx[0])], shortId)
  {
    var ids := [];
    for i := 1 to |vtx|
      invariant ids == ShortIds(vtx, shortId)[..i - 1]
    {
      ids := ids + [shortId(vtx[i].wtxid)];
    }
    m := Message(header, ids, [Prefilled(0, vtx[0])], shortId);
  }

  lemma AnnouncedSlot(m: Message, vtx: seq<Tx>)
    requires vtx != [] && m.prefilled == [Prefilled(0, vtx[0])]
    ensures SlotOf(m.prefilled, 0) == 0
  {
    SlotNext(m.prefilled, 0);
  }

  lemma {:induction false} AnnouncedFree(m: Message, vtx: seq<Tx>, free: seq<nat>, i: nat)
    requires vtx != [] && m.prefilled == [Prefilled(0, vtx[0])] && Assigned(m, free) && i < |free|
    ensures free[i] >= i + 1
  {
    hide SlotOf;
    AnnouncedSlot(m, vtx);
    assert SlotOf(m.prefilled, 0) != free[i];
    if i > 0 {
      AnnouncedFree(m, vtx, free, i - 1);
      assert free[i - 1] < free[i];
    }
  }

  lemma {:induction false} AnnouncedBound(m: Message, free: seq<nat>, i: nat)
    requires |m.prefilled| == 1 && Assigned(m, free) && i < |free|
    ensures free[i] <= i + 1
    decreases |free| - i
  {
    hide SlotOf;
    if i + 1 < |free| {
      AnnouncedBound(m, free, i + 1);
      assert free[i] < free[i + 1];
    }
  }

  /** No transaction at hand has the short id of a different transaction of the block. */
  ghost predicate NoClash(vtx: seq<Tx>, shortId: int -> nat, txs: seq<Tx>) {
    forall t, i :: t in txs && 1 <= i < |vtx| && shortId(t.wtxid) == shortId(vtx[i].wtxid) ==> t == vtx[i]
  }

  /** What a receiver has of an announced block is right wherever there is something. */
  lemma AnnouncedRight(m: Message, header: Header, vtx: seq<Tx>, free: seq<nat>, slots: Slots, pool: seq<Tx>, extra: seq<Tx>)
    requires vtx != [] && m == Message(header, ShortIds(vtx, m.shortId), [Prefilled(0, vtx[0])], m.shortId)
    requires Laid(m, free, slots, pool, extra)
    requires NoClash(vtx, m.shortId, pool) && NoClash(vtx, m.shortId, extra)
    ensures |slots| == |vtx| && forall j :: 0 <= j < |slots| && slots[j].Some? ==> slots[j].value == vtx[j]
    ensures Filled(slots, MissingOf(slots, vtx)) == vtx
  {
    hide SlotOf, Filled, MissingOf;
    AnnouncedSlot(m, vtx);
    forall j | 0 <= j < |slots| && slots[j].Some? ensures slots[j].value == vtx[j] {
      if j == 0 {
        assert slots[SlotOf(m.prefilled, 0)] == Some(m.prefilled[0].tx);
      } else {
        AnnouncedFree(m, vtx, free, j - 1);
        AnnouncedBound(m, free, j - 1);
        assert m.Matches(slots[free[j - 1]].value, j - 1);
      }
    }
    FilledBlock(slots, vtx);
  }

  /** A block announced, received and completed with what the receiver asks for: it comes back
    * unchanged whenever it can be started, and it can be started exactly when its short ids are
    * distinct and the table of short ids is accepted.
    */
  method RoundTrip(header: Header, vtx: seq<Tx>, shortId: int -> nat, pool: seq<Tx>, extra: seq<Tx>,
                   crowded: nat -> bool, mutated: seq<Tx> -> bool)
    returns (started: Status, done: Status, vtx': seq<Tx>)
    requires header != NullHeader && 1 <= |vtx| <= UINT16_MAX && !vtx[0].isNull && !mutated(vtx)
    requires NoClash(vtx, shortId, pool) && NoClash(vtx, shortId, extra)
    ensures started == OK <==> Distinct(ShortIds(vtx, shortId), |vtx| - 1) && forall i :: 0 <= i < |vtx| - 1 ==> !crowded(i)
    ensures started == OK ==> done == OK && vtx' == vtx
  {
    hide Distinct, Laid, Exhausted, LookedThrough, CountFree, Filled, MissingOf, NoClash;
    var m := Announce(header, vtx, shortId);
    AnnouncedWellFormed(m, vtx);
    var partial := new PartialBlock();
    ghost var free;
    started, free := partial.InitData(m, pool, extra, crowded);
    done, vtx' := INVALID, [];
    if started == OK {
      AnnouncedRight(m, header, vtx, free, partial.available, pool, extra);
      var missing := [];
      ghost var slots := partial.available;
      MissingNone(slots, vtx);
      for i := 0 to |vtx|
        invariant partial.available == slots && partial.header == header
        invariant missing == MissingOf(slots[..i], vtx[..i])
      {
        var have := partial.IsTxAvailable(i);
        MissingNext(slots, vtx, i);
        if !have { missing := missing + [vtx[i]]; }
      }
      assert slots[..|vtx|] == slots && vtx[..|vtx|] == vtx;
      var h;
      done, h, vtx' := partial.FillBlock(missing, mutated);
    }
  }

  lemma AnnouncedWellFormed(m: Message, vtx: seq<Tx>)
    requires vtx != [] && m.header != NullHeader && m.prefilled == [Prefilled(0, vtx[0])] && !vtx[0].isNull && m.Count() <= MAX_COUNT
    ensures WellFormed(m)
  {
    AnnouncedSlot(m, vtx);
  }

  lemma MissingNone(slots: Slots, vtx: seq<Tx>)
    requires |slots| == |vtx|
    ensures MissingOf(slots[..0], vtx[..0]) == []
  {
  }

  lemma MissingNext(slots: Slots, vtx: seq<Tx>, i: nat)
    requires i < |slots| == |vtx|
    ensures MissingOf(slots[..i + 1], vtx[..i + 1]) == MissingOf(slots[..i], vtx[..i]) + if slots[i].None? then [vtx[i]] else []
  {
    assert slots[..i + 1][..i] == slots[..i] && vtx[..i + 1][..i] == vtx[..i];
  }
}
