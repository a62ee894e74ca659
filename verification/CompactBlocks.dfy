/** Compact blocks: what a message says about the slots of a block. */
module CompactBlocks {
  datatype Option<T> = None | Some(value: T)

  const UINT16_MAX: nat := 65535
  const MAX_COUNT: nat := 4000000 / 40

  type Uint16 = x: nat | x <= 65535

  datatype Header = NullHeader | Header(id: int)

  /** A transaction with its witness hash. */
  datatype Tx = Tx(wtxid: int, contents: int, isNull: bool)

  /** A transaction sent in full; the index counts the slots since the one before. */
  datatype Prefilled = Prefilled(index: Uint16, tx: Tx)

  datatype Message = Message(header: Header, ids: seq<nat>, prefilled: seq<Prefilled>, shortId: int -> nat)
  {
    function Count(): nat { |ids| + |prefilled| }

    predicate Matches(tx: Tx, i: nat)
      requires i < |ids|
    {
      shortId(tx.wtxid) == ids[i]
    }
  }

  type Slots = seq<Option<Tx>>

  // ---------- Prefilled slots ----------

  /** The slot of the last of some prefilled transactions. */
  function LastSlot(p: seq<Prefilled>): int {
    if p == [] then -1 else LastSlot(p[..|p| - 1]) + p[|p| - 1].index + 1
  }

  function SlotOf(p: seq<Prefilled>, i: nat): (s: int)
    requires i < |p|
  {
    LastSlot(p[..i + 1])
  }

  lemma SlotNext(p: seq<Prefilled>, i: nat)
    requires i < |p|
    ensures SlotOf(p, i) == LastSlot(p[..i]) + p[i].index + 1
  {
    assert p[..i + 1][..i] == p[..i];
  }

  lemma {:induction false} SlotsIncrease(p: seq<Prefilled>, i: nat, j: nat)
    requires i < j < |p|
    ensures 0 <= SlotOf(p, i) < SlotOf(p, j)
    decreases j
  {
    SlotNext(p, j);
    if j == i + 1 {
      LastNonnegative(p[..i]);
      SlotNext(p, i);
    } else {
      SlotsIncrease(p, i, j - 1);
    }
  }

  lemma {:induction false} LastNonnegative(p: seq<Prefilled>)
    ensures LastSlot(p) >= -1 && (p != [] ==> LastSlot(p) >= 0)
  {
    if p != [] {
      LastNonnegative(p[..|p| - 1]);
    }
  }

  /** No prefilled transaction is null, and each has a slot with nothing missing before it. */
  ghost predicate PrefilledOk(m: Message) {
    forall i :: 0 <= i < |m.prefilled| ==>
      !m.prefilled[i].tx.isNull && SlotOf(m.prefilled, i) <= UINT16_MAX && SlotOf(m.prefilled, i) <= |m.ids| + i
  }

  ghost predicate WellFormed(m: Message) {
    && m.header != NullHeader
    && !(m.ids == [] && m.prefilled == [])
    && m.Count() <= MAX_COUNT
    && PrefilledOk(m)
  }

  /** The slots with the prefilled transactions in them. */
  ghost predicate Placed(m: Message, n: nat, slots: Slots)
    requires n <= |m.prefilled|
  {
    && |slots| == m.Count()
    && (forall i :: 0 <= i < n ==> 0 <= SlotOf(m.prefilled, i) < |slots| && slots[SlotOf(m.prefilled, i)] == Some(m.prefilled[i].tx))
    && (forall j :: 0 <= j < |slots| && slots[j].Some? ==> exists i :: 0 <= i < n && SlotOf(m.prefilled, i) == j)
    && CountFree(slots) == m.Count() - n
  }

  // ---------- Free slots ----------

  function CountFree(slots: Slots): (n: nat)
    ensures n <= |slots|
  {
    if slots == [] then 0
    else CountFree(slots[..|slots| - 1]) + if slots[|slots| - 1].None? then 1 else 0
  }

  lemma CountFreeNext(slots: Slots, j: nat)
    requires j < |slots|
    ensures CountFree(slots[..j + 1]) == CountFree(slots[..j]) + if slots[j].None? then 1 else 0
  {
    assert slots[..j + 1][..j] == slots[..j];
  }

  lemma {:induction false} CountFreeGrows(slots: Slots, i: nat, j: nat)
    requires i <= j <= |slots|
    ensures CountFree(slots[..i]) <= CountFree(slots[..j]) <= CountFree(slots[..i]) + (j - i)
    decreases j
  {
    if i < j {
      CountFreeNext(slots, j - 1);
      CountFreeGrows(slots, i, j - 1);
    }
  }

  lemma {:induction false} CountFreeSet(slots: Slots, j: nat, tx: Tx)
    requires j < |slots| && slots[j].None?
    ensures CountFree(slots[j := Some(tx)]) == CountFree(slots) - 1
  {
    var n := |slots| - 1;
    if j == n {
      assert slots[j := Some(tx)][..n] == slots[..n];
    } else {
      assert slots[j := Some(tx)][..n] == slots[..n][j := Some(tx)];
      CountFreeSet(slots[..n], j, tx);
    }
  }

  lemma {:induction false} CountFreeAll(slots: Slots)
    requires forall j :: 0 <= j < |slots| ==> slots[j].None?
    ensures CountFree(slots) == |slots|
  {
    if slots != [] {
      CountFreeAll(slots[..|slots| - 1]);
    }
  }

  /** The first `k` of the listed slots are the free ones below `bound`, in order. */
  ghost predicate FreeBelow(slots: Slots, free: seq<nat>, bound: nat)
    requires bound <= |slots|
  {
    && (forall i :: 0 <= i < |free| ==> free[i] < bound && slots[free[i]].None?)
    && (forall i, j :: 0 <= i < j < |free| ==> free[i] < free[j])
    && (forall j :: 0 <= j < bound && slots[j].None? ==> j in free)
    && CountFree(slots[..bound]) == |free|
  }

  /** The slots are exactly the prefilled ones and the listed ones, which stand one for one for
    * the short ids.
    */
  ghost predicate Assigned(m: Message, free: seq<nat>) {
    && |free| == |m.ids|
    && (forall i :: 0 <= i < |free| ==> free[i] < m.Count())
    && (forall i, j :: 0 <= i < j < |free| ==> free[i] < free[j])
    && (forall i :: 0 <= i < |m.prefilled| ==> 0 <= SlotOf(m.prefilled, i) < m.Count())
    && (forall i, k :: 0 <= i < |m.prefilled| && 0 <= k < |free| ==> SlotOf(m.prefilled, i) != free[k])
    && (forall j :: 0 <= j < m.Count() ==> j in free || exists i :: 0 <= i < |m.prefilled| && SlotOf(m.prefilled, i) == j)
  }

  /** The first `n` short ids are all different. */
  ghost predicate Distinct(ids: seq<nat>, n: nat)
    requires n <= |ids|
  {
    forall i, j :: 0 <= i < j < n ==> ids[i] != ids[j]
  }

  // ---------- Filling from the mempool and the extra transactions ----------

  /** How many of some transactions have a short id. */
  function Matching(m: Message, i: nat, txs: seq<Tx>): nat
    requires i < |m.ids|
  {
    if txs == [] then 0
    else Matching(m, i, txs[..|txs| - 1]) + if m.Matches(txs[|txs| - 1], i) then 1 else 0
  }

  lemma {:induction false} MatchingPrefix(m: Message, i: nat, txs: seq<Tx>, p: nat)
    requires i < |m.ids| && p <= |txs|
    ensures Matching(m, i, txs[..p]) <= Matching(m, i, txs)
  {
    if p == |txs| {
      assert txs[..p] == txs;
    } else {
      var n := |txs| - 1;
      MatchingPrefix(m, i, txs[..n], p);
      assert txs[..n][..p] == txs[..p];
    }
  }

  /** How many listed slots are filled. */
  function CountFilled(slots: Slots, free: seq<nat>): (n: nat)
    requires forall i :: 0 <= i < |free| ==> free[i] < |slots|
    ensures n <= |free|
  {
    if free == [] then 0
    else CountFilled(slots, free[..|free| - 1]) + if slots[free[|free| - 1]].Some? then 1 else 0
  }

  lemma {:induction false} CountFilledAll(slots: Slots, free: seq<nat>)
    requires forall i :: 0 <= i < |free| ==> free[i] < |slots|
    ensures CountFilled(slots, free) == |free| <==> forall i :: 0 <= i < |free| ==> slots[free[i]].Some?
  {
    if free != [] {
      CountFilledAll(slots, free[..|free| - 1]);
      assert forall i :: 0 <= i < |free| - 1 ==> free[..|free| - 1][i] == free[i];
    }
  }

  lemma {:induction false} CountFilledNone(slots: Slots, free: seq<nat>)
    requires forall i :: 0 <= i < |free| ==> free[i] < |slots| && slots[free[i]].None?
    ensures CountFilled(slots, free) == 0
  {
    if free != [] {
      CountFilledNone(slots, free[..|free| - 1]);
    }
  }

  lemma {:induction false} CountFilledOther(slots: Slots, free: seq<nat>, s: nat, v: Option<Tx>)
    requires s < |slots| && s !in free && forall i :: 0 <= i < |free| ==> free[i] < |slots|
    ensures CountFilled(slots[s := v], free) == CountFilled(slots, free)
  {
    if free != [] {
      CountFilledOther(slots, free[..|free| - 1], s, v);
    }
  }

  lemma {:induction false} CountFilledSet(slots: Slots, free: seq<nat>, k: nat, v: Option<Tx>)
    requires k < |free| && forall i :: 0 <= i < |free| ==> free[i] < |slots|
    requires forall i, j :: 0 <= i < j < |free| ==> free[i] < free[j]
    ensures CountFilled(slots[free[k] := v], free) + (if slots[free[k]].Some? then 1 else 0)
         == CountFilled(slots, free) + if v.Some? then 1 else 0
  {
    var n := |free| - 1;
    if k == n {
      CountFilledOther(slots, free[..n], free[k], v);
    } else {
      CountFilledSet(slots, free[..n], k, v);
      assert free[..n][k] == free[k];
    }
  }

  lemma {:induction false} MatchingNobody(m: Message, i: nat, txs: seq<Tx>)
    requires i < |m.ids|
    ensures Matching(m, i, txs) == 0 <==> forall tx :: tx in txs ==> !m.Matches(tx, i)
  {
    if txs != [] {
      var n := |txs| - 1;
      MatchingNobody(m, i, txs[..n]);
      assert txs == txs[..n] + [txs[n]];
    }
  }

  /** An extra transaction and another one with the same short id are different transactions. */
  ghost predicate Clash(m: Message, i: nat, pool: seq<Tx>, extra: seq<Tx>)
    requires i < |m.ids|
  {
    exists x, y :: x in extra && m.Matches(x, i) && (y in pool || y in extra) && m.Matches(y, i) && x.wtxid != y.wtxid
  }

  /** What becomes of a slot when a matching transaction comes up: the first one takes it; a
    * later one of the mempool empties it, and a later extra one does so if it is different.
    */
  function Offer(was: Option<Tx>, had: bool, inPool: bool, tx: Tx): Option<Tx> {
    if !had then Some(tx)
    else if inPool || (was.Some? && was.value.wtxid != tx.wtxid) then None
    else was
  }

  /** What a scan of the given transactions has made of slot `s` of short id `i`: it holds the
    * one match there is, and is empty again exactly when the mempool has a second match or an
    * extra transaction clashes.
    */
  ghost predicate SlotScanned(m: Message, slots: Slots, have: seq<bool>, s: nat, i: nat, pool: seq<Tx>, extra: seq<Tx>)
    requires i < |m.ids| && s < |slots| == |have|
  {
    var found := Matching(m, i, pool) + Matching(m, i, extra);
    && (have[s] <==> found >= 1)
    && (slots[s].Some? ==> found >= 1 && m.Matches(slots[s].value, i) && (slots[s].value in pool || slots[s].value in extra))
    && (have[s] && slots[s].None? ==> found >= 2 && (Matching(m, i, pool) >= 2 || Clash(m, i, pool, extra)))
    && (slots[s].Some? ==>
          && Matching(m, i, pool) <= 1
          && (forall tx :: tx in pool && m.Matches(tx, i) ==> tx == slots[s].value)
          && (forall tx :: tx in extra && m.Matches(tx, i) ==> tx.wtxid == slots[s].value.wtxid))
  }

  /** A slot is filled exactly when it has a match, the mempool has no second one, and no extra
    * transaction clashes.
    */
  lemma SlotSettled(m: Message, slots: Slots, have: seq<bool>, s: nat, i: nat, pool: seq<Tx>, extra: seq<Tx>)
    requires i < |m.ids| && s < |slots| == |have| && SlotScanned(m, slots, have, s, i, pool, extra)
    ensures slots[s].Some? <==>
      && Matching(m, i, pool) + Matching(m, i, extra) >= 1
      && Matching(m, i, pool) <= 1
      && !Clash(m, i, pool, extra)
  {
  }

  ghost predicate Scanned(m: Message, placed: Slots, free: seq<nat>, slots: Slots, have: seq<bool>, pool: seq<Tx>, extra: seq<Tx>)
    requires Assigned(m, free)
  {
    && |slots| == |have| == |placed| == m.Count()
    && (forall j :: 0 <= j < |slots| && j !in free ==> slots[j] == placed[j])
    && (forall i :: 0 <= i < |free| ==> SlotScanned(m, slots, have, free[i], i, pool, extra))
  }

  /** The lists of scanned transactions with one more in one of them. */
  ghost predicate Extended(pool: seq<Tx>, extra: seq<Tx>, pool': seq<Tx>, extra': seq<Tx>, tx: Tx) {
    (pool' == pool + [tx] && extra' == extra) || (pool' == pool && extra' == extra + [tx])
  }

  lemma MatchingExtended(m: Message, i: nat, pool: seq<Tx>, extra: seq<Tx>, pool': seq<Tx>, extra': seq<Tx>, tx: Tx)
    requires i < |m.ids| && Extended(pool, extra, pool', extra', tx)
    ensures Matching(m, i, pool') + Matching(m, i, extra')
         == Matching(m, i, pool) + Matching(m, i, extra) + if m.Matches(tx, i) then 1 else 0
    ensures Matching(m, i, pool') == Matching(m, i, pool) + if m.Matches(tx, i) && pool' != pool then 1 else 0
  {
    assert (pool + [tx])[..|pool|] == pool;
    assert (extra + [tx])[..|extra|] == extra;
  }

  /** A slot nobody touched stays as scanned when the next transaction does not match it. */
  lemma SlotUntouched(m: Message, slots: Slots, have: seq<bool>, slots': Slots, have': seq<bool>, s: nat, i: nat,
                      pool: seq<Tx>, extra: seq<Tx>, pool': seq<Tx>, extra': seq<Tx>, tx: Tx)
    requires i < |m.ids| && s < |slots| == |have| == |slots'| == |have'| && Extended(pool, extra, pool', extra', tx)
    requires !m.Matches(tx, i) && slots'[s] == slots[s] && have'[s] == have[s]
    requires SlotScanned(m, slots, have, s, i, pool, extra)
    ensures SlotScanned(m, slots', have', s, i, pool', extra')
  {
    MatchingExtended(m, i, pool, extra, pool', extra', tx);
    ExtendedMembers(pool, extra, pool', extra', tx);
  }

  lemma ExtendedMembers(pool: seq<Tx>, extra: seq<Tx>, pool': seq<Tx>, extra': seq<Tx>, tx: Tx)
    requires Extended(pool, extra, pool', extra', tx)
    ensures forall t :: t in pool' <==> t in pool || (t == tx && pool' != pool)
    ensures forall t :: t in extra' <==> t in extra || (t == tx && pool' == pool)
  {
    assert |pool + [tx]| != |pool|;
  }

  /** The slot a matching transaction belongs to: taken by the first, given up or kept after. */
  lemma SlotOffered(m: Message, slots: Slots, have: seq<bool>, slots': Slots, have': seq<bool>, s: nat, i: nat,
                    pool: seq<Tx>, extra: seq<Tx>, pool': seq<Tx>, extra': seq<Tx>, tx: Tx)
    requires i < |m.ids| && s < |slots| == |have| == |slots'| == |have'| && Extended(pool, extra, pool', extra', tx)
    requires m.Matches(tx, i) && have'[s] && (pool' != pool ==> extra == [])
    requires slots'[s] == Offer(slots[s], have[s], pool' != pool, tx)
    requires SlotScanned(m, slots, have, s, i, pool, extra)
    ensures SlotScanned(m, slots', have', s, i, pool', extra')
  {
    MatchingExtended(m, i, pool, extra, pool', extra', tx);
    ExtendedMembers(pool, extra, pool', extra', tx);
    MatchingNobody(m, i, pool);
    MatchingNobody(m, i, extra);
  }

  /** A transaction that matches no short id changes nothing. */
  lemma ScannedSkip(m: Message, placed: Slots, free: seq<nat>, slots: Slots, have: seq<bool>,
                    pool: seq<Tx>, extra: seq<Tx>, pool': seq<Tx>, extra': seq<Tx>, tx: Tx)
    requires Assigned(m, free) && Scanned(m, placed, free, slots, have, pool, extra)
    requires Extended(pool, extra, pool', extra', tx) && forall i :: 0 <= i < |m.ids| ==> !m.Matches(tx, i)
    ensures Scanned(m, placed, free, slots, have, pool', extra')
  {
    hide SlotScanned;
    forall i | 0 <= i < |free| ensures SlotScanned(m, slots, have, free[i], i, pool', extra') {
      SlotUntouched(m, slots, have, slots, have, free[i], i, pool, extra, pool', extra', tx);
    }
  }

  lemma ScannedStep(m: Message, placed: Slots, free: seq<nat>, slots: Slots, have: seq<bool>, slots': Slots, have': seq<bool>, k: nat,
                    pool: seq<Tx>, extra: seq<Tx>, pool': seq<Tx>, extra': seq<Tx>, tx: Tx)
    requires Assigned(m, free) && Distinct(m.ids, |m.ids|) && k < |free|
    requires Scanned(m, placed, free, slots, have, pool, extra)
    requires Extended(pool, extra, pool', extra', tx) && m.Matches(tx, k)
    requires |slots'| == |have'| == |slots| && have'[free[k]]
    requires forall j :: 0 <= j < |slots| && j != free[k] ==> slots'[j] == slots[j] && have'[j] == have[j]
    requires (pool' != pool ==> extra == []) && slots'[free[k]] == Offer(slots[free[k]], have[free[k]], pool' != pool, tx)
    ensures Scanned(m, placed, free, slots', have', pool', extra')
  {
    hide SlotScanned;
    forall i | 0 <= i < |free| ensures SlotScanned(m, slots', have', free[i], i, pool', extra') {
      if i == k {
        SlotOffered(m, slots, have, slots', have', free[k], k, pool, extra, pool', extra', tx);
      } else {
        assert m.ids[i] != m.ids[k] by { if i < k { assert m.ids[i] != m.ids[k]; } else { assert m.ids[k] != m.ids[i]; } }
        assert free[i] != free[k] by { if i < k { assert free[i] < free[k]; } else { assert free[k] < free[i]; } }
        SlotUntouched(m, slots, have, slots', have', free[i], i, pool, extra, pool', extra', tx);
      }
    }
  }

  /** Nothing scanned yet. */
  lemma ScannedStart(m: Message, placed: Slots, free: seq<nat>, have: seq<bool>)
    requires Assigned(m, free) && |placed| == |have| == m.Count()
    requires forall i :: 0 <= i < |free| ==> placed[free[i]].None?
    requires forall j :: 0 <= j < |have| ==> !have[j]
    ensures Scanned(m, placed, free, placed, have, [], [])
  {
  }
}
