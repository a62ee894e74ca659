/** The peers file: writing the manager out as a stream of records, and reading any stream
  * of records back.
  */
module AddrManFile {
  import opened AddrManTypes
  import opened AddrManInvariant
  import opened AddrManOps
  import opened AddrManRuns
  import opened AddrManClass
  import opened AddrManCheck

  const FILE_FORMAT := 4
  const V1_DETERMINISTIC := 1
  const V2_ASMAP := 2
  const INCOMPATIBILITY_BASE := 32

  /** What of an entry is written: memory-only fields are not. */
  datatype Disk = Disk(address: Address, source: NetAddr, lastSuccess: int, attempts: int)

  datatype File = File(
    format: nat,
    compat: nat,
    key: Key,
    nNew: int,
    nTried: int,
    bucketWord: int,
    newEntries: seq<Disk>,
    triedEntries: seq<Disk>,
    buckets: seq<seq<int>>,
    asmap: nat)

  function ToDisk(i: Info): Disk {
    Disk(i.address, i.source, i.lastSuccess, i.attempts)
  }

  function FromDisk(d: Disk, randomPos: int, inTried: bool): Info {
    Info(d.address, d.source, 0, 0, d.lastSuccess, d.attempts, 0, inTried, randomPos)
  }

  /** Exclusive or with 2^30 of a two's complement number. */
  function Flip30(x: int): int {
    if (x / 0x4000_0000) % 2 == 1 then x - 0x4000_0000 else x + 0x4000_0000
  }

  // ---------- Writing ----------

  /** The ids of `order` that go into the new section, and into the tried section. */
  function News(s: State, order: seq<Id>): (r: seq<Id>)
    requires forall k :: 0 <= k < |order| ==> order[k] in s.info
    ensures forall k :: 0 <= k < |r| ==> r[k] in s.info
  {
    if order == [] then []
    else
      var n := |order| - 1;
      News(s, order[..n]) + if s.info[order[n]].refCount != 0 then [order[n]] else []
  }

  function Trieds(s: State, order: seq<Id>): (r: seq<Id>)
    requires forall k :: 0 <= k < |order| ==> order[k] in s.info
    ensures forall k :: 0 <= k < |r| ==> r[k] in s.info
  {
    if order == [] then []
    else
      var n := |order| - 1;
      Trieds(s, order[..n]) + if s.info[order[n]].inTried then [order[n]] else []
  }

  function IndexOf(xs: seq<Id>, x: Id): (k: nat)
    requires x in xs
    ensures k < |xs| && xs[k] == x
  {
    if xs[0] == x then 0 else 1 + IndexOf(xs[1..], x)
  }

  /** The occupied slots of bucket `b` at positions below `p`, in order. */
  function RowSlots(t: Table, b: nat, p: nat): seq<Slot> {
    if p == 0 then [] else RowSlots(t, b, p - 1) + if Slot(b, p - 1) in t then [Slot(b, p - 1)] else []
  }

  /** The occupied slots of the buckets below `b`, in order. */
  function TableSlots(t: Table, b: nat): seq<Slot> {
    if b == 0 then [] else TableSlots(t, b - 1) + RowSlots(t, b - 1, BUCKET_SIZE)
  }

  /** For each occupied slot of a bucket, the place of its occupant in the new section. */
  function RowIndexes(t: Table, news: seq<Id>, b: nat, p: nat): seq<int>
    requires forall slot :: slot in t ==> t[slot] in news
  {
    if p == 0 then []
    else RowIndexes(t, news, b, p - 1) + if Slot(b, p - 1) in t then [IndexOf(news, t[Slot(b, p - 1)])] else []
  }

  function BucketLists(t: Table, news: seq<Id>, b: nat): seq<seq<int>>
    requires forall slot :: slot in t ==> t[slot] in news
  {
    if b == 0 then [] else BucketLists(t, news, b - 1) + [RowIndexes(t, news, b - 1, BUCKET_SIZE)]
  }

  function Disks(s: State, ids: seq<Id>): (r: seq<Disk>)
    requires forall k :: 0 <= k < |ids| ==> ids[k] in s.info
  {
    seq(|ids|, k requires 0 <= k < |ids| => ToDisk(s.info[ids[k]]))
  }

  /** Every occupant of the new table is written to the new section. */
  ghost predicate Writable(s: State, order: seq<Id>) {
    && (forall k :: 0 <= k < |order| ==> order[k] in s.info)
    && (forall slot :: slot in s.newTable ==> s.newTable[slot] in News(s, order))
  }

  lemma {:induction false} NewsListed(s: State, order: seq<Id>)
    requires forall k :: 0 <= k < |order| ==> order[k] in s.info
    ensures forall k :: 0 <= k < |News(s, order)| ==> News(s, order)[k] in s.info && s.info[News(s, order)[k]].refCount != 0
    ensures forall k :: 0 <= k < |Trieds(s, order)| ==> Trieds(s, order)[k] in s.info && s.info[Trieds(s, order)[k]].inTried
  {
    if order != [] {
      NewsListed(s, order[..|order| - 1]);
    }
  }

  ghost function Written(e: Env, s: State, order: seq<Id>): File
    requires Writable(s, order)
  {
    NewsListed(s, order);
    File(FILE_FORMAT, INCOMPATIBILITY_BASE + FILE_FORMAT, s.key, s.nNew, s.nTried, Flip30(NEW_BUCKET_COUNT),
         Disks(s, News(s, order)), Disks(s, Trieds(s, order)),
         BucketLists(s.newTable, News(s, order), NEW_BUCKET_COUNT), e.asmapVersion)
  }

  // ---------- Facts about the sections ----------

  ghost predicate Distinct(xs: seq<Id>) {
    forall i, j :: 0 <= i < j < |xs| ==> xs[i] != xs[j]
  }

  lemma {:induction false} DistinctCard(xs: seq<Id>, c: set<Id>)
    requires Distinct(xs) && c == (set i | 0 <= i < |xs| :: xs[i])
    ensures |xs| == |c|
  {
    if xs == [] {
      assert c == {};
    } else {
      var n := |xs| - 1;
      assert forall i :: 0 <= i < n ==> xs[..n][i] == xs[i] && xs[i] in c;
      assert xs[n] in c;
      DistinctCard(xs[..n], c - {xs[n]});
    }
  }

  /** A section holds the ids of its kind, each once and in order. */
  lemma {:induction false} SectionsExact(s: State, order: seq<Id>)
    requires (forall k :: 0 <= k < |order| ==> order[k] in s.info) && Distinct(order)
    ensures Distinct(News(s, order)) && Distinct(Trieds(s, order))
    ensures forall x :: x in News(s, order) <==> x in order && s.info[x].refCount != 0
    ensures forall x :: x in Trieds(s, order) <==> x in order && s.info[x].inTried
  {
    if order != [] {
      var n := |order| - 1;
      SectionsExact(s, order[..n]);
      assert order == order[..n] + [order[n]];
    }
  }

  lemma SectionsCount(e: Env, s: State, order: seq<Id>)
    requires Inv(e, s) && Enumerates(order, s.info.Keys)
    ensures |News(s, order)| == s.nNew && |Trieds(s, order)| == s.nTried
  {
    hide IndexOk, RandomOk, NewTableOk, TriedTableOk, CollisionsOk, TimesOk;
    SectionsExact(s, order);
    NewsListed(s, order);
    var news, trieds := News(s, order), Trieds(s, order);
    SectionSet(news, Members(s, {}, InNew));
    SectionSet(trieds, Members(s, {}, InTried));
    DistinctCard(news, Members(s, {}, InNew));
    DistinctCard(trieds, Members(s, {}, InTried));
  }

  lemma SectionSet(xs: seq<Id>, c: set<Id>)
    requires forall x :: x in c ==> x in xs
    requires forall k :: 0 <= k < |xs| ==> xs[k] in c
    ensures c == set i | 0 <= i < |xs| :: xs[i]
  {
    var t := set i | 0 <= i < |xs| :: xs[i];
    assert forall x :: x in c ==> x in t;
    assert forall x :: x in t ==> x in c;
    assert c <= t;
    assert t <= c;
  }

  lemma SectionStep(s: State, order: seq<Id>, k: nat)
    requires k < |order| && forall i :: 0 <= i < |order| ==> order[i] in s.info
    ensures News(s, order[..k + 1]) == News(s, order[..k]) + if s.info[order[k]].refCount != 0 then [order[k]] else []
    ensures Trieds(s, order[..k + 1]) == Trieds(s, order[..k]) + if s.info[order[k]].inTried then [order[k]] else []
  {
    assert order[..k + 1][..k] == order[..k];
  }

  lemma {:induction false} SectionGrows(s: State, order: seq<Id>, k: nat)
    requires k <= |order| && forall i :: 0 <= i < |order| ==> order[i] in s.info
    ensures |News(s, order[..k])| <= |News(s, order)| && |Trieds(s, order[..k])| <= |Trieds(s, order)|
    decreases |order| - k
  {
    if k == |order| {
      assert order[..k] == order;
    } else {
      SectionStep(s, order, k);
      SectionGrows(s, order, k + 1);
    }
  }

  lemma ValidWritable(e: Env, s: State, order: seq<Id>)
    requires Inv(e, s) && Enumerates(order, s.info.Keys)
    ensures Writable(s, order)
  {
    hide IndexOk, RandomOk, TriedTableOk, CountsOk, CollisionsOk, TimesOk;
    SectionsExact(s, order);
    forall slot | slot in s.newTable ensures s.newTable[slot] in News(s, order) {
      assert slot in SlotsOf(s.newTable, s.newTable[slot]);
      var id := s.newTable[slot];
      assert id in s.info.Keys && id in order;
    }
  }

  lemma IndexOfDistinct(xs: seq<Id>, k: nat)
    requires Distinct(xs) && k < |xs|
    ensures IndexOf(xs, xs[k]) == k
  {
  }

  // ---------- The writer ----------

  /** The index map of the writer, on the ids written so far. */
  ghost predicate Indexes(unk: map<Id, int>, news: seq<Id>) {
    forall k :: 0 <= k < |news| ==> news[k] in unk && unk[news[k]] == k
  }

  method WriteNew(m: AddrMan, order: seq<Id>) returns (entries: seq<Disk>, unk: map<Id, int>)
    requires m.Valid() && Enumerates(order, m.mapInfo.Keys)
    ensures entries == Disks(m.S(), News(m.S(), order)) && Indexes(unk, News(m.S(), order))
  {
    hide Inv, TableOf, News, Trieds;
    ghost var s := m.S();
    SectionsCount(m.e, s, order);
    SectionsExact(s, order);
    NewsEmpty(s);
    entries, unk := [], map[];
    var nIds := 0;
    var k := 0;
    assert order[..0] == [];
    while k < |order|
      invariant 0 <= k <= |order|
      invariant nIds == |News(s, order[..k])| == |entries|
      invariant forall i :: 0 <= i < nIds ==> News(s, order[..k])[i] in s.info && entries[i] == ToDisk(s.info[News(s, order[..k])[i]])
      invariant Indexes(unk, News(s, order[..k]))
      invariant forall i :: k <= i < |order| ==> order[i] !in News(s, order[..k])
    {
      SectionStep(s, order, k);
      SectionGrows(s, order, k + 1);
      unk := unk[order[k] := nIds];
      if m.mapInfo[order[k]].refCount != 0 {
        assert nIds != m.nNew;
        entries := entries + [ToDisk(m.mapInfo[order[k]])];
        nIds := nIds + 1;
      }
      k := k + 1;
    }
    assert order[..k] == order;
  }

  lemma NewsEmpty(s: State)
    ensures News(s, []) == [] && Trieds(s, []) == []
  {
  }

  method WriteTried(m: AddrMan, order: seq<Id>) returns (entries: seq<Disk>)
    requires m.Valid() && Enumerates(order, m.mapInfo.Keys)
    ensures entries == Disks(m.S(), Trieds(m.S(), order))
  {
    hide Inv, TableOf, News, Trieds;
    ghost var s := m.S();
    SectionsCount(m.e, s, order);
    NewsEmpty(s);
    entries := [];
    var nIds := 0;
    var k := 0;
    assert order[..0] == [];
    while k < |order|
      invariant 0 <= k <= |order|
      invariant nIds == |Trieds(s, order[..k])| == |entries|
      invariant forall i :: 0 <= i < nIds ==> entries[i] == ToDisk(s.info[Trieds(s, order[..k])[i]])
    {
      SectionStep(s, order, k);
      SectionGrows(s, order, k + 1);
      if m.mapInfo[order[k]].inTried {
        assert nIds != m.nTried;
        entries := entries + [ToDisk(m.mapInfo[order[k]])];
        nIds := nIds + 1;
      }
      k := k + 1;
    }
    assert order[..k] == order;
  }

  lemma IndexesMeaning(unk: map<Id, int>, news: seq<Id>, x: Id)
    requires Indexes(unk, news) && x in news && Distinct(news)
    ensures x in unk && unk[x] == IndexOf(news, x)
  {
    assert news[IndexOf(news, x)] == x;
  }

  method WriteRow(m: AddrMan, b: nat, unk: map<Id, int>, ghost news: seq<Id>) returns (row: seq<int>)
    requires m.Shaped() && b < NEW_BUCKET_COUNT && Indexes(unk, news) && Distinct(news)
    requires forall slot :: slot in m.S().newTable ==> m.S().newTable[slot] in news
    ensures row == RowIndexes(m.S().newTable, news, b, BUCKET_SIZE)
  {
    hide TableOf, IndexOf;
    ghost var t := m.S().newTable;
    row := [];
    var i := 0;
    while i < BUCKET_SIZE
      invariant 0 <= i <= BUCKET_SIZE
      invariant row == RowIndexes(t, news, b, i)
    {
      var id := m.vvNew[b, i];
      assert Slot(b, i) in t <==> id != EMPTY;
      if id != EMPTY {
        IndexesMeaning(unk, news, id);
        row := row + [unk[id]];
      }
      i := i + 1;
    }
  }

  /** Write the manager out, walking mapInfo in the given order. */
  method Serialize(m: AddrMan, order: seq<Id>) returns (f: File)
    requires m.Valid() && Enumerates(order, m.mapInfo.Keys)
    ensures Writable(m.S(), order) && f == Written(m.e, m.S(), order)
  {
    hide Inv, TableOf, News, Trieds, RowIndexes;
    ghost var s := m.S();
    ghost var news := News(s, order);
    ValidWritable(m.e, s, order);
    SectionsExact(s, order);
    var newEntries, unk := WriteNew(m, order);
    var triedEntries := WriteTried(m, order);
    var buckets := [];
    var b := 0;
    while b < NEW_BUCKET_COUNT
      invariant 0 <= b <= NEW_BUCKET_COUNT
      invariant buckets == BucketLists(s.newTable, news, b)
    {
      var row := WriteRow(m, b, unk, news);
      buckets := buckets + [row];
      b := b + 1;
    }
    f := File(FILE_FORMAT, INCOMPATIBILITY_BASE + FILE_FORMAT, m.nKey, m.nNew, m.nTried, Flip30(NEW_BUCKET_COUNT),
              newEntries, triedEntries, buckets, m.e.asmapVersion);
  }

  // ---------- Reading ----------

  /** Enter a record under a fresh id, without touching the totals. */
  function WithEntry(e: Env, s: State, id: Id, d: Disk, inTried: bool): State {
    var net := e.networkOf(d.address.service.ip);
    var c := s.CountsOf(net);
    s.(info := s.info[id := FromDisk(d, |s.random|, inTried)],
       addr := s.addr[d.address.service := id],
       random := s.random + [id],
       counts := s.counts[net := if inTried then Counts(c.nNew, c.nTried + 1) else Counts(c.nNew + 1, c.nTried)])
  }

  function LoadNew(e: Env, s: State, ds: seq<Disk>): State {
    if ds == [] then s
    else var n := |ds| - 1; WithEntry(e, LoadNew(e, s, ds[..n]), n, ds[n], false)
  }

  /** One record of the tried section; it is lost when its home is taken or its address invalid. */
  function LoadOneTried(e: Env, s: State, d: Disk): (State, bool) {
    var home := e.Home(s.key, d.address.service);
    if e.valid(d.address.service.ip) && home !in s.triedTable then
      (WithEntry(e, s, s.idCount, d, true).(triedTable := s.triedTable[home := s.idCount], idCount := s.idCount + 1), true)
    else (s, false)
  }

  /** The tried section; the second component counts the lost records. */
  function LoadTried(e: Env, s: State, ds: seq<Disk>): (State, nat) {
    if ds == [] then (s, 0)
    else
      var n := |ds| - 1;
      var before := LoadTried(e, s, ds[..n]);
      var r := LoadOneTried(e, before.0, ds[n]);
      (r.0, before.1 + if r.1 then 0 else 1)
  }

  /** A bucket and the place of an entry in the new section. */
  datatype Entry = Entry(bucket: nat, index: int)

  function RowEntries(row: seq<int>, b: nat, nNew: int): seq<Entry> {
    if row == [] then []
    else
      var n := |row| - 1;
      RowEntries(row[..n], b, nNew) + if 0 <= row[n] < nNew then [Entry(b, row[n])] else []
  }

  function Entries(buckets: seq<seq<int>>, nNew: int): seq<Entry> {
    if buckets == [] then []
    else var n := |buckets| - 1; Entries(buckets[..n], nNew) + RowEntries(buckets[n], n, nNew)
  }

  /** Put an entry where it was, or else at its default slot, if that is free. */
  function PlaceOne(e: Env, s: State, x: Entry, restore: bool): State
    requires x.index in s.info
  {
    var i := s.info[x.index];
    var slot := Slot(x.bucket, e.position(s.key, true, x.bucket, i.Service()));
    if !e.valid(i.Service().ip) || i.refCount >= NEW_BUCKETS_PER_ADDRESS then s
    else if restore && slot !in s.newTable then Placed(s, slot, x.index)
    else if DefaultSlot(e, s, x.index) !in s.newTable then Placed(s, DefaultSlot(e, s, x.index), x.index)
    else s
  }

  predicate Known(s: State, xs: seq<Entry>) {
    forall k :: 0 <= k < |xs| ==> xs[k].index in s.info
  }

  function PlaceAll(e: Env, s: State, xs: seq<Entry>, restore: bool): (s': State)
    requires Known(s, xs)
    ensures s'.info.Keys == s.info.Keys
  {
    if xs == [] then s
    else var n := |xs| - 1; PlaceOne(e, PlaceAll(e, s, xs[..n], restore), xs[n], restore)
  }

  function PruneOne(e: Env, s: State, id: Id): State
    requires RandomOk(s) && id in s.info
  {
    if !s.info[id].inTried && s.info[id].refCount == 0 then Deleted(e, s, id) else s
  }

  lemma DeletedRandom(e: Env, s: State, id: Id)
    requires RandomOk(s) && id in s.info
    ensures RandomOk(Deleted(e, s, id))
  {
    hide Swapped;
    SwappedToBack(s, id);
    SwappedRandom(s, s.info[id].randomPos, |s.random| - 1);
    var s1 := Swapped(s, s.info[id].randomPos, |s.random| - 1);
    PoppedRandom(e, s1, id);
  }

  lemma PoppedRandom(e: Env, s: State, id: Id)
    requires RandomOk(s) && id in s.info && s.info[id].randomPos == |s.random| - 1
    ensures RandomOk(Popped(e, s, id))
  {
  }

  /** The ids still to be looked at exist and are distinct. */
  ghost predicate Pending(s: State, order: seq<Id>) {
    && (forall k :: 0 <= k < |order| ==> order[k] in s.info)
    && (forall i, j :: 0 <= i < j < |order| ==> order[i] != order[j])
  }

  lemma PruneOneReady(e: Env, s: State, order: seq<Id>)
    requires RandomOk(s) && Pending(s, order) && order != []
    ensures RandomOk(PruneOne(e, s, order[0])) && Pending(PruneOne(e, s, order[0]), order[1..])
  {
    hide RandomOk, Deleted;
    DeletedRandom(e, s, order[0]);
    DeletedEffect(e, s, order[0]);
  }

  /** Drop every entry that is in neither table. */
  function Pruned(e: Env, s: State, order: seq<Id>): State
    requires RandomOk(s) && Pending(s, order)
    decreases |order|
  {
    if order == [] then s
    else
      PruneOneReady(e, s, order);
      Pruned(e, PruneOne(e, s, order[0]), order[1..])
  }

  // ---------- Reading a whole file ----------

  function Rows(f: File): nat {
    var n := if f.format >= V1_DETERMINISTIC then Flip30(f.bucketWord) else f.bucketWord;
    if n < 0 then 0 else n
  }

  predicate Restores(e: Env, f: File) {
    Rows(f) == NEW_BUCKET_COUNT && (if f.format >= V2_ASMAP then f.asmap else 0) == e.asmapVersion
  }

  /** The header is acceptable and the stream is not cut short. */
  predicate Readable(f: File) {
    && INCOMPATIBILITY_BASE <= f.compat <= INCOMPATIBILITY_BASE + FILE_FORMAT
    && 0 <= f.nNew <= NEW_BUCKET_COUNT * BUCKET_SIZE
    && 0 <= f.nTried <= TRIED_BUCKET_COUNT * BUCKET_SIZE
    && |f.newEntries| >= f.nNew && |f.triedEntries| >= f.nTried && |f.buckets| >= Rows(f)
  }

  /** Exactly the ids below the counter, each listed once. */
  ghost predicate Counted(s: State, n: nat) {
    && (forall id :: id in s.info <==> 0 <= id < n)
    && RandomOk(s)
  }

  lemma WithEntryCounted(e: Env, s: State, n: nat, d: Disk, inTried: bool)
    requires Counted(s, n)
    ensures Counted(WithEntry(e, s, n, d, inTried), n + 1)
  {
  }

  lemma {:induction false} LoadNewCounted(e: Env, s: State, ds: seq<Disk>)
    requires Counted(s, 0)
    ensures Counted(LoadNew(e, s, ds), |ds|) && LoadNew(e, s, ds).idCount == s.idCount
  {
    hide Counted, WithEntry;
    if ds != [] {
      var n := |ds| - 1;
      LoadNewCounted(e, s, ds[..n]);
      WithEntryCounted(e, LoadNew(e, s, ds[..n]), n, ds[n], false);
      WithEntryId(e, LoadNew(e, s, ds[..n]), n, ds[n], false);
    }
  }

  lemma WithEntryId(e: Env, s: State, id: Id, d: Disk, inTried: bool)
    ensures WithEntry(e, s, id, d, inTried).idCount == s.idCount
  {
  }

  lemma LoadOneTriedCounted(e: Env, s: State, d: Disk)
    requires Counted(s, s.idCount)
    ensures var s' := LoadOneTried(e, s, d).0; Counted(s', s'.idCount) && s'.idCount >= s.idCount
  {
    WithEntryCounted(e, s, s.idCount, d, true);
  }

  lemma {:induction false} LoadTriedCounted(e: Env, s: State, ds: seq<Disk>)
    requires Counted(s, s.idCount)
    ensures var s' := LoadTried(e, s, ds).0; Counted(s', s'.idCount) && s'.idCount >= s.idCount
  {
    hide Counted, LoadOneTried;
    if ds != [] {
      var n := |ds| - 1;
      LoadTriedCounted(e, s, ds[..n]);
      LoadOneTriedCounted(e, LoadTried(e, s, ds[..n]).0, ds[n]);
    }
  }

  lemma {:induction false} PlaceAllCounted(e: Env, s: State, xs: seq<Entry>, restore: bool, n: nat)
    requires Counted(s, n) && Known(s, xs)
    ensures Counted(PlaceAll(e, s, xs, restore), n)
  {
    if xs != [] {
      PlaceAllCounted(e, s, xs[..|xs| - 1], restore, n);
      var s1 := PlaceAll(e, s, xs[..|xs| - 1], restore);
      RandomFrame(s1, PlaceOne(e, s1, xs[|xs| - 1], restore));
    }
  }

  lemma {:induction false} RowEntriesInRange(row: seq<int>, b: nat, nNew: int)
    ensures forall k :: 0 <= k < |RowEntries(row, b, nNew)| ==>
      0 <= RowEntries(row, b, nNew)[k].index < nNew && RowEntries(row, b, nNew)[k].bucket == b
  {
    if row != [] {
      RowEntriesInRange(row[..|row| - 1], b, nNew);
    }
  }

  lemma {:induction false} EntriesInRange(buckets: seq<seq<int>>, nNew: int)
    ensures forall k :: 0 <= k < |Entries(buckets, nNew)| ==>
      0 <= Entries(buckets, nNew)[k].index < nNew && Entries(buckets, nNew)[k].bucket < |buckets|
  {
    if buckets != [] {
      var n := |buckets| - 1;
      EntriesInRange(buckets[..n], nNew);
      RowEntriesInRange(buckets[n], n, nNew);
    }
  }

  /** Every place of every bucket list that names a record of the new section is an entry, in
    * order, and nothing else is.
    */
  lemma {:induction false} EntriesExact(buckets: seq<seq<int>>, nNew: int, x: Entry)
    ensures x in Entries(buckets, nNew) <==> x.bucket < |buckets| && 0 <= x.index < nNew && x.index in buckets[x.bucket]
  {
    hide RowEntries;
    if buckets != [] {
      var n := |buckets| - 1;
      EntriesExact(buckets[..n], nNew, x);
      RowExact(buckets[n], n, nNew, x);
    }
  }

  lemma {:induction false} RowExact(row: seq<int>, b: nat, nNew: int, x: Entry)
    ensures x in RowEntries(row, b, nNew) <==> x.bucket == b && 0 <= x.index < nNew && x.index in row
  {
    if row != [] {
      var n := |row| - 1;
      RowExact(row[..n], b, nNew, x);
      assert row == row[..n] + [row[n]];
    }
  }

  function StartState(f: File): State {
    EmptyState(f.key).(nNew := f.nNew, nTried := f.nTried)
  }

  /** Both sections entered, no table filled but the tried one. */
  function Entered(e: Env, f: File): State
    requires Readable(f)
  {
    var s1 := LoadNew(e, StartState(f), f.newEntries[..f.nNew]).(idCount := f.nNew);
    var r := LoadTried(e, s1, f.triedEntries[..f.nTried]);
    r.0.(nTried := r.0.nTried - r.1)
  }

  lemma EnteredCounted(e: Env, f: File)
    requires Readable(f)
    ensures Counted(Entered(e, f), Entered(e, f).idCount) && Entered(e, f).idCount >= f.nNew
  {
    var s0 := LoadNew(e, StartState(f), f.newEntries[..f.nNew]);
    LoadNewCounted(e, StartState(f), f.newEntries[..f.nNew]);
    CountedFrame(s0, s0.(idCount := f.nNew), f.nNew);
    LoadTriedCounted(e, s0.(idCount := f.nNew), f.triedEntries[..f.nTried]);
    var r := LoadTried(e, s0.(idCount := f.nNew), f.triedEntries[..f.nTried]);
    CountedFrame(r.0, Entered(e, f), r.0.idCount);
  }

  lemma CountedFrame(s: State, s': State, n: nat)
    requires Counted(s, n) && s'.info == s.info && s'.random == s.random
    ensures Counted(s', n)
  {
  }

  lemma EntriesKnown(e: Env, f: File)
    requires Readable(f)
    ensures var xs := Entries(f.buckets[..Rows(f)], f.nNew);
      Known(Entered(e, f), xs) && forall k :: 0 <= k < |xs| ==> xs[k].bucket < Rows(f)
  {
    EnteredCounted(e, f);
    EntriesInRange(f.buckets[..Rows(f)], f.nNew);
  }

  /** The new table filled as far as possible. */
  function Bucketed(e: Env, f: File): (s: State)
    requires Readable(f)
    ensures RandomOk(s)
  {
    EntriesKnown(e, f);
    EnteredCounted(e, f);
    PlaceAllCounted(e, Entered(e, f), Entries(f.buckets[..Rows(f)], f.nNew), Restores(e, f), Entered(e, f).idCount);
    PlaceAll(e, Entered(e, f), Entries(f.buckets[..Rows(f)], f.nNew), Restores(e, f))
  }

  /** What reading a file gives, before the final consistency check. */
  function Restored(e: Env, f: File, order: seq<Id>): State
    requires Readable(f) && Pending(Bucketed(e, f), order)
  {
    Pruned(e, Bucketed(e, f), order)
  }

  // ---------- The reader ----------

  method EnterRecord(m: AddrMan, id: Id, d: Disk, inTried: bool)
    requires m.Shaped()
    modifies m
    ensures m.S() == WithEntry(m.e, old(m.S()), id, d, inTried)
  {
    hide TableOf;
    m.mapInfo := m.mapInfo[id := FromDisk(d, |m.vRandom|, inTried)];
    m.mapAddr := m.mapAddr[d.address.service := id];
    m.vRandom := m.vRandom + [id];
    var net := m.e.networkOf(d.address.service.ip);
    var c := m.CountsFor(net);
    m.networkCounts := m.networkCounts[net := if inTried then Counts(c.nNew, c.nTried + 1) else Counts(c.nNew + 1, c.nTried)];
  }

  method ReadNew(m: AddrMan, ds: seq<Disk>)
    requires m.Shaped()
    modifies m
    ensures m.S() == LoadNew(m.e, old(m.S()), ds).(idCount := |ds|)
  {
    hide TableOf, WithEntry;
    ghost var s := m.S();
    var n := 0;
    assert ds[..0] == [];
    while n < |ds|
      invariant 0 <= n <= |ds|
      invariant m.S() == LoadNew(m.e, s, ds[..n])
    {
      assert ds[..n + 1][..n] == ds[..n];
      EnterRecord(m, n, ds[n], false);
      n := n + 1;
    }
    assert ds[..n] == ds;
    m.nIdCount := |ds|;
  }

  method ReadTried(m: AddrMan, ds: seq<Disk>)
    requires m.Shaped()
    modifies m, m.vvTried
    ensures var r := LoadTried(m.e, old(m.S()), ds); m.S() == r.0.(nTried := r.0.nTried - r.1)
  {
    hide TableOf, WithEntry, LoadOneTried;
    ghost var s := m.S();
    var nLost := 0;
    var n := 0;
    assert ds[..0] == [];
    while n < |ds|
      invariant 0 <= n <= |ds|
      invariant (m.S(), nLost) == LoadTried(m.e, s, ds[..n])
    {
      assert ds[..n + 1][..n] == ds[..n];
      var kept := ReadOneTried(m, ds[n]);
      nLost := nLost + if kept then 0 else 1;
      n := n + 1;
    }
    assert ds[..n] == ds;
    m.nTried := m.nTried - nLost;
  }

  method ReadOneTried(m: AddrMan, d: Disk) returns (kept: bool)
    requires m.Shaped()
    modifies m, m.vvTried
    ensures (m.S(), kept) == LoadOneTried(m.e, old(m.S()), d)
  {
    hide TableOf, WithEntry;
    var bucket := m.e.triedBucket(m.nKey, d.address.service);
    var home := Slot(bucket, m.e.position(m.nKey, false, bucket, d.address.service));
    kept := m.e.valid(d.address.service.ip) && m.vvTried[home.bucket, home.pos] == EMPTY;
    if kept {
      WithEntryTables(m.e, m.S(), m.nIdCount, d, true);
      EnterRecord(m, m.nIdCount, d, true);
      Store(m.vvTried, home, m.nIdCount);
      m.nIdCount := m.nIdCount + 1;
    }
  }

  lemma WithEntryTables(e: Env, s: State, id: Id, d: Disk, inTried: bool)
    ensures var s' := WithEntry(e, s, id, d, inTried); s'.triedTable == s.triedTable && s'.idCount == s.idCount
  {
  }

  method ReadBuckets(buckets: seq<seq<int>>, nNew: int) returns (xs: seq<Entry>)
    ensures xs == Entries(buckets, nNew)
  {
    xs := [];
    var b := 0;
    while b < |buckets|
      invariant 0 <= b <= |buckets|
      invariant xs == Entries(buckets[..b], nNew)
    {
      ghost var before := xs;
      var row := buckets[b];
      var n := 0;
      while n < |row|
        invariant 0 <= n <= |row|
        invariant xs == before + RowEntries(row[..n], b, nNew)
      {
        assert row[..n + 1][..n] == row[..n];
        if 0 <= row[n] < nNew {
          xs := xs + [Entry(b, row[n])];
        }
        n := n + 1;
      }
      assert row[..n] == row;
      assert buckets[..b + 1][..b] == buckets[..b];
      b := b + 1;
    }
    assert buckets[..b] == buckets;
  }

  method PlaceEntry(m: AddrMan, x: Entry, restore: bool)
    requires m.Shaped() && x.index in m.mapInfo && x.index != EMPTY && (restore ==> x.bucket < NEW_BUCKET_COUNT)
    modifies m`mapInfo, m.vvNew
    ensures m.S() == PlaceOne(m.e, old(m.S()), x, restore)
  {
    hide TableOf;
    var i := m.mapInfo[x.index];
    if !m.e.valid(i.Service().ip) { return; }
    if i.refCount >= NEW_BUCKETS_PER_ADDRESS { return; }
    var slot := Slot(x.bucket, m.e.position(m.nKey, true, x.bucket, i.Service()));
    if restore && m.vvNew[slot.bucket, slot.pos] == EMPTY {
      Store(m.vvNew, slot, x.index);
      m.mapInfo := m.mapInfo[x.index := i.(refCount := i.refCount + 1)];
    } else {
      var bucket := m.e.newBucket(m.nKey, i.Service(), i.source);
      slot := Slot(bucket, m.e.position(m.nKey, true, bucket, i.Service()));
      if m.vvNew[slot.bucket, slot.pos] == EMPTY {
        Store(m.vvNew, slot, x.index);
        m.mapInfo := m.mapInfo[x.index := i.(refCount := i.refCount + 1)];
      }
    }
  }

  method PlaceEntries(m: AddrMan, xs: seq<Entry>, restore: bool)
    requires m.Shaped() && Known(m.S(), xs)
    requires forall k :: 0 <= k < |xs| ==> xs[k].index != EMPTY && (restore ==> xs[k].bucket < NEW_BUCKET_COUNT)
    modifies m`mapInfo, m.vvNew
    ensures m.S() == PlaceAll(m.e, old(m.S()), xs, restore)
  {
    hide TableOf, PlaceOne;
    ghost var s := m.S();
    var n := 0;
    assert xs[..0] == [];
    while n < |xs|
      invariant 0 <= n <= |xs|
      invariant m.S() == PlaceAll(m.e, s, xs[..n], restore)
    {
      assert xs[..n + 1][..n] == xs[..n];
      assert xs[n].index in s.info.Keys;
      PlaceEntry(m, xs[n], restore);
      n := n + 1;
    }
    assert xs[..n] == xs;
  }

  method Prune(m: AddrMan, order: seq<Id>)
    requires m.Shaped() && RandomOk(m.S()) && Pending(m.S(), order)
    modifies m
    ensures m.S() == Pruned(m.e, old(m.S()), order)
  {
    hide TableOf, RandomOk, Pending, PruneOne;
    ghost var s := m.S();
    var k := 0;
    assert order[0..] == order;
    while k < |order|
      invariant 0 <= k <= |order|
      invariant RandomOk(m.S()) && Pending(m.S(), order[k..])
      invariant Pruned(m.e, m.S(), order[k..]) == Pruned(m.e, s, order)
    {
      assert order[k..][0] == order[k] && order[k..][1..] == order[k + 1..];
      PruneOneReady(m.e, m.S(), order[k..]);
      PendingHead(m.S(), order[k..]);
      PruneEntry(m, order[k]);
      k := k + 1;
    }
    assert order[k..] == [];
  }

  lemma PendingHead(s: State, order: seq<Id>)
    requires Pending(s, order) && order != []
    ensures order[0] in s.info
  {
  }

  method PruneEntry(m: AddrMan, id: Id)
    requires m.Shaped() && RandomOk(m.S()) && id in m.mapInfo
    modifies m
    ensures m.S() == PruneOne(m.e, old(m.S()), id)
  {
    hide TableOf, Deleted;
    if m.mapInfo[id].inTried == false && m.mapInfo[id].refCount == 0 {
      m.Delete(id);
    }
  }

  datatype Outcome = Loaded | Corrupt | Unsupported

  /** The orders in which the reader and the final check walk the maps. */
  ghost predicate WalksOk(e: Env, f: File, pruneOrder: seq<Id>, idOrder: seq<Id>, netOrder: seq<Network>)
    requires Readable(f)
  {
    && Pending(Bucketed(e, f), pruneOrder) && Enumerates(pruneOrder, Bucketed(e, f).info.Keys)
    && Enumerates(idOrder, Restored(e, f, pruneOrder).info.Keys)
    && Enumerates(netOrder, Restored(e, f, pruneOrder).counts.Keys)
  }

  /** Read a file into an empty manager. No stream of records makes an internal assertion
    * fail, and a file is accepted exactly when the restored state passes the check.
    */
  method Unserialize(m: AddrMan, f: File, pruneOrder: seq<Id>, idOrder: seq<Id>, netOrder: seq<Network>) returns (r: Outcome)
    requires m.Shaped() && m.S() == EmptyState(m.nKey)
    requires Readable(f) ==> WalksOk(m.e, f, pruneOrder, idOrder, netOrder)
    modifies m, m.vvNew, m.vvTried
    ensures r == Unsupported <==> f.compat > 36
    ensures r == Loaded <==> Readable(f) && Checked(m.e, Restored(m.e, f, pruneOrder))
    ensures r == Loaded ==> m.S() == Restored(m.e, f, pruneOrder)
  {
    hide TableOf, RandomOk, Pending, LoadNew, LoadTried, PlaceAll, Pruned, Checked, Enumerates, Entries, Known;
    assert m.vRandom == [];
    if f.compat < INCOMPATIBILITY_BASE { return Corrupt; }
    if f.compat - INCOMPATIBILITY_BASE > FILE_FORMAT { return Unsupported; }
    m.nKey, m.nNew, m.nTried := f.key, f.nNew, f.nTried;
    if f.nNew > NEW_BUCKET_COUNT * BUCKET_SIZE || f.nNew < 0 { return Corrupt; }
    if f.nTried > TRIED_BUCKET_COUNT * BUCKET_SIZE || f.nTried < 0 { return Corrupt; }
    if |f.newEntries| < f.nNew || |f.triedEntries| < f.nTried || |f.buckets| < Rows(f) { return Corrupt; }
    assert m.S() == StartState(f);
    ReadNew(m, f.newEntries[..f.nNew]);
    ReadTried(m, f.triedEntries[..f.nTried]);
    assert m.S() == Entered(m.e, f);
    var xs := ReadBuckets(f.buckets[..Rows(f)], f.nNew);
    EntriesKnown(m.e, f);
    EntriesInRange(f.buckets[..Rows(f)], f.nNew);
    PlaceEntries(m, xs, Restores(m.e, f));
    assert m.S() == Bucketed(m.e, f);
    Prune(m, pruneOrder);
    assert m.S() == Restored(m.e, f, pruneOrder);
    var code := CheckAddrman(m, idOrder, netOrder);
    if code != 0 { return Corrupt; }
    return Loaded;
  }
}
