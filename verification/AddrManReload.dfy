/** What is left of a peers file when it is read: for every readable file, which records
  * find a place, which slot they get, and who is lost to whom; and that a manager written
  * under one bucketing and read under another keeps its invariant.
  */
module AddrManReload {
  import opened AddrManTypes
  import opened AddrManInvariant
  import opened AddrManOps
  import opened AddrManRuns
  import opened AddrManCheck
  import opened AddrManFile
  import opened AddrManRoundTrip

  // ---------- The tried section ----------

  /** Record `k` is valid, and no valid record before it has the same home. */
  ghost predicate First(e: Env, key: Key, ds: seq<Disk>, k: nat)
    requires k < |ds|
  {
    && e.valid(ds[k].address.service.ip)
    && (forall j :: 0 <= j < k && e.valid(ds[j].address.service.ip) ==>
          e.Home(key, ds[j].address.service) != e.Home(key, ds[k].address.service))
  }

  /** The records of the tried section that find their home free. */
  ghost function Kept(e: Env, key: Key, ds: seq<Disk>): (r: seq<Disk>)
    ensures |r| <= |ds|
  {
    if ds == [] then []
    else var n := |ds| - 1; Kept(e, key, ds[..n]) + if First(e, key, ds, n) then [ds[n]] else []
  }

  /** Exactly the first valid record of each home is kept. */
  lemma {:induction false} KeptExact(e: Env, key: Key, ds: seq<Disk>)
    ensures Lodgeable(e, key, Kept(e, key, ds))
    ensures forall k :: 0 <= k < |ds| && First(e, key, ds, k) ==> ds[k] in Kept(e, key, ds)
    ensures forall d :: d in Kept(e, key, ds) ==> exists k :: 0 <= k < |ds| && ds[k] == d && First(e, key, ds, k)
  {
    if ds != [] {
      var n := |ds| - 1;
      var r := Kept(e, key, ds[..n]);
      KeptExact(e, key, ds[..n]);
      forall k | 0 <= k < n ensures First(e, key, ds, k) <==> First(e, key, ds[..n], k) {}
      forall i | 0 <= i < |r| ensures exists k :: 0 <= k < n && ds[k] == r[i] && First(e, key, ds, k) {
        assert r[i] in r;
        var k :| 0 <= k < n && ds[..n][k] == r[i] && First(e, key, ds[..n], k);
        assert First(e, key, ds, k);
      }
      forall d | d in Kept(e, key, ds) ensures exists k :: 0 <= k < |ds| && ds[k] == d && First(e, key, ds, k) {
        if d in r {
          var i :| 0 <= i < |r| && r[i] == d;
        } else {
          assert First(e, key, ds, n);
        }
      }
    }
  }

  /** The homes of the valid records are the homes of the kept ones. */
  lemma {:induction false} KeptHomes(e: Env, key: Key, ds: seq<Disk>, k: nat)
    requires k < |ds| && e.valid(ds[k].address.service.ip)
    ensures exists d :: d in Kept(e, key, ds) && e.Home(key, d.address.service) == e.Home(key, ds[k].address.service)
    decreases k
  {
    KeptExact(e, key, ds);
    if !First(e, key, ds, k) {
      var j :| 0 <= j < k && e.valid(ds[j].address.service.ip)
               && e.Home(key, ds[j].address.service) == e.Home(key, ds[k].address.service);
      KeptHomes(e, key, ds, j);
    }
  }

  /** Slots that are homes of the given records. */
  ghost predicate IsHome(e: Env, key: Key, ds: seq<Disk>, slot: Slot) {
    exists i :: 0 <= i < |ds| && slot == e.Home(key, ds[i].address.service)
  }

  lemma FirstIsFree(e: Env, key: Key, ds: seq<Disk>, n: nat)
    requires n == |ds| - 1
    ensures First(e, key, ds, n) <==>
      && e.valid(ds[n].address.service.ip)
      && !IsHome(e, key, Kept(e, key, ds[..n]), e.Home(key, ds[n].address.service))
  {
    var r, home := Kept(e, key, ds[..n]), e.Home(key, ds[n].address.service);
    KeptExact(e, key, ds[..n]);
    if IsHome(e, key, r, home) {
      var i :| 0 <= i < |r| && home == e.Home(key, r[i].address.service);
      assert r[i] in r;
    } else {
      forall j | 0 <= j < n && e.valid(ds[j].address.service.ip) ensures e.Home(key, ds[j].address.service) != home {
        KeptHomes(e, key, ds[..n], j);
      }
    }
  }

  /** Reading the tried section is reading its kept records; the others are counted as lost. */
  lemma {:induction false} LoadTriedKept(e: Env, s: State, ds: seq<Disk>)
    requires s.triedTable == map[]
    ensures var q, r := LoadTried(e, s, ds), Kept(e, s.key, ds);
      && q == (LoadTried(e, s, r).0, |ds| - |r|) && q.0.key == s.key
      && (forall slot :: slot in q.0.triedTable <==> IsHome(e, s.key, r, slot))
  {
    hide WithEntry, First, IsHome, LoadOneTried, LoadTried;
    if ds == [] {
      NoHome(e, s.key);
      LoadTriedNone(e, s);
    } else {
      var n := |ds| - 1;
      var r0, r := Kept(e, s.key, ds[..n]), Kept(e, s.key, ds);
      LoadTriedKept(e, s, ds[..n]);
      FirstIsFree(e, s.key, ds, n);
      LoadTriedUnfold(e, s, ds);
      LoadOneTriedTable(e, LoadTried(e, s, ds[..n]).0, ds[n]);
      if First(e, s.key, ds, n) {
        assert r[..|r| - 1] == r0;
        LoadTriedUnfold(e, s, r);
        LastHome(e, s.key, r);
      } else {
        assert r == r0;
      }
    }
  }

  lemma NoHome(e: Env, key: Key)
    ensures forall slot :: !IsHome(e, key, [], slot)
  {
  }

  lemma LastHome(e: Env, key: Key, ds: seq<Disk>)
    requires ds != []
    ensures forall slot :: IsHome(e, key, ds, slot) <==>
      IsHome(e, key, ds[..|ds| - 1], slot) || slot == e.Home(key, ds[|ds| - 1].address.service)
  {
    var n := |ds| - 1;
    forall slot | IsHome(e, key, ds, slot) ensures IsHome(e, key, ds[..n], slot) || slot == e.Home(key, ds[n].address.service) {
      var i :| 0 <= i < |ds| && slot == e.Home(key, ds[i].address.service);
      assert i < n ==> ds[..n][i] == ds[i];
    }
    forall slot | IsHome(e, key, ds[..n], slot) ensures IsHome(e, key, ds, slot) {
      var i :| 0 <= i < n && slot == e.Home(key, ds[..n][i].address.service);
      assert ds[..n][i] == ds[i];
    }
    assert IsHome(e, key, ds, e.Home(key, ds[n].address.service));
  }

  lemma LoadOneTriedTable(e: Env, s: State, d: Disk)
    ensures var r, home := LoadOneTried(e, s, d), e.Home(s.key, d.address.service);
      && r.0.key == s.key
      && (r.1 <==> e.valid(d.address.service.ip) && home !in s.triedTable)
      && r.0.triedTable == (if r.1 then s.triedTable[home := s.idCount] else s.triedTable)
      && (!r.1 ==> r.0 == s)
  {
  }

  // ---------- Both sections ----------

  /** The state after both sections: new records first, tried records after them, each tried
    * one at home, and the new table still empty.
    */
  ghost predicate Sections(e: Env, s: State, newDs: seq<Disk>, ds: seq<Disk>) {
    && Counted(s, |newDs| + |ds|) && |s.random| == s.idCount == |newDs| + |ds|
    && Holds(s, newDs, 0, false) && Holds(s, ds, |newDs|, true)
    && s.newTable == map[]
    && (forall slot :: slot in s.triedTable <==> IsHome(e, s.key, ds, slot))
    && (forall i :: 0 <= i < |ds| ==>
          var home := e.Home(s.key, ds[i].address.service); home in s.triedTable && s.triedTable[home] == |newDs| + i)
  }

  lemma HoldsNext(s: State, s': State, ds: seq<Disk>, base: nat, inTried: bool)
    requires ds != [] && Holds(s, ds[..|ds| - 1], base, inTried)
    requires var n := |ds| - 1; s'.info == s.info[base + n := FromDisk(ds[n], base + n, inTried)]
    ensures Holds(s', ds, base, inTried)
  {
    var n := |ds| - 1;
    forall k | 0 <= k < |ds| ensures HeldAs(s', base + k, ds[k], inTried) {
      assert k < n ==> ds[..n][k] == ds[k] && HeldAs(s, base + k, ds[k], inTried);
    }
  }

  lemma HoldsStill(s: State, s': State, ds: seq<Disk>, id: Id, i: Info)
    requires Holds(s, ds, 0, false) && id >= |ds| && s'.info == s.info[id := i]
    ensures Holds(s', ds, 0, false)
  {
  }

  lemma {:induction false} LoadNewHolds(e: Env, s: State, ds: seq<Disk>)
    requires s.info == map[] && s.random == [] && s.newTable == map[] && s.triedTable == map[]
    ensures var s' := LoadNew(e, s, ds);
      && Holds(s', ds, 0, false) && |s'.random| == |ds| && s'.newTable == map[] && s'.triedTable == map[] && s'.key == s.key
  {
    if ds != [] {
      LoadNewHolds(e, s, ds[..|ds| - 1]);
      HoldsNext(LoadNew(e, s, ds[..|ds| - 1]), LoadNew(e, s, ds), ds, 0, false);
    }
  }

  lemma LoadedOne(e: Env, s: State, newDs: seq<Disk>, ds: seq<Disk>)
    requires ds != [] && Sections(e, s, newDs, ds[..|ds| - 1]) && e.valid(ds[|ds| - 1].address.service.ip)
    requires !IsHome(e, s.key, ds[..|ds| - 1], e.Home(s.key, ds[|ds| - 1].address.service))
    ensures Sections(e, LoadOneTried(e, s, ds[|ds| - 1]).0, newDs, ds)
  {
    hide Counted, IsHome, Holds;
    var n, d := |ds| - 1, ds[|ds| - 1];
    var s', id := LoadOneTried(e, s, d).0, s.idCount;
    LoadOneTriedCounted(e, s, d);
    LastHome(e, s.key, ds);
    HoldsNext(s, s', ds, |newDs|, true);
    HoldsStill(s, s', newDs, id, FromDisk(d, id, true));
    forall i | 0 <= i < |ds|
      ensures e.Home(s'.key, ds[i].address.service) in s'.triedTable
      ensures s'.triedTable[e.Home(s'.key, ds[i].address.service)] == |newDs| + i
    {
      assert i < n ==> ds[..n][i] == ds[i];
    }
  }

  lemma {:induction false} LoadTriedHolds(e: Env, s: State, newDs: seq<Disk>, ds: seq<Disk>)
    requires Sections(e, s, newDs, []) && Lodgeable(e, s.key, ds)
    ensures var s' := LoadTried(e, s, ds).0;
      Sections(e, s', newDs, ds) && s'.key == s.key && s'.collisions == s.collisions && s'.lastGood == s.lastGood
  {
    hide Sections, LoadTried, IsHome;
    if ds == [] {
      LoadTriedNone(e, s);
    } else {
      var n := |ds| - 1;
      var s1 := LoadTried(e, s, ds[..n]).0;
      LoadTriedHolds(e, s, newDs, ds[..n]);
      LoadTriedUnfold(e, s, ds);
      LodgeableFresh(e, s.key, ds);
      LoadedOne(e, s1, newDs, ds);
    }
  }

  lemma LodgeableFresh(e: Env, key: Key, ds: seq<Disk>)
    requires ds != [] && Lodgeable(e, key, ds)
    ensures !IsHome(e, key, ds[..|ds| - 1], e.Home(key, ds[|ds| - 1].address.service))
  {
    var n := |ds| - 1;
    forall i | 0 <= i < n ensures e.Home(key, ds[..n][i].address.service) != e.Home(key, ds[n].address.service) {
      assert ds[..n][i] == ds[i];
    }
  }

  function NewPart(f: File): (r: seq<Disk>)
    requires Readable(f)
    ensures |r| == f.nNew
  {
    f.newEntries[..f.nNew]
  }

  ghost function TriedPart(e: Env, f: File): (r: seq<Disk>)
    requires Readable(f)
    ensures |r| <= f.nTried
  {
    Kept(e, f.key, f.triedEntries[..f.nTried])
  }

  function ListedPart(f: File): seq<Entry>
    requires Readable(f)
  {
    Entries(f.buckets[..Rows(f)], f.nNew)
  }

  /** What is in the manager when both sections of a file have been read. */
  lemma EnteredSections(e: Env, f: File)
    requires Readable(f)
    ensures var t := Entered(e, f);
      && Sections(e, t, NewPart(f), TriedPart(e, f))
      && t.key == f.key && t.nNew == f.nNew && t.nTried == |TriedPart(e, f)| && t.collisions == {} && t.lastGood == 1
  {
    hide LoadNew, LoadTried, Kept, Counted, Holds, IsHome;
    var ds := f.triedEntries[..f.nTried];
    var s0 := LoadNew(e, StartState(f), NewPart(f));
    var s1 := s0.(idCount := f.nNew);
    EmptyCounted(StartState(f));
    LoadNewHolds(e, StartState(f), NewPart(f));
    LoadNewCounted(e, StartState(f), NewPart(f));
    LoadNewTotals(e, StartState(f), NewPart(f));
    LoadNewRest(e, StartState(f), NewPart(f));
    CountedFrame(s0, s1, f.nNew);
    NoHome(e, f.key);
    HoldsNothing(s0, s1, NewPart(f));
    LoadTriedKept(e, s1, ds);
    KeptExact(e, f.key, ds);
    LoadTriedTotals(e, s1, ds);
    LoadTriedHolds(e, s1, NewPart(f), TriedPart(e, f));
    var r := LoadTried(e, s1, ds).0;
    SectionsFrame(e, r, Entered(e, f), NewPart(f), TriedPart(e, f));
  }

  lemma EmptyCounted(s: State)
    requires s.info == map[] && s.random == []
    ensures Counted(s, 0)
  {
  }

  lemma HoldsNothing(s: State, s': State, ds: seq<Disk>)
    requires s'.info == s.info && Holds(s, ds, 0, false)
    ensures Holds(s', ds, 0, false) && Holds(s', [], |ds|, true)
  {
  }

  lemma {:induction false} LoadNewRest(e: Env, s: State, ds: seq<Disk>)
    ensures LoadNew(e, s, ds).collisions == s.collisions && LoadNew(e, s, ds).lastGood == s.lastGood
  {
    if ds != [] {
      LoadNewRest(e, s, ds[..|ds| - 1]);
    }
  }

  lemma SectionsFrame(e: Env, s: State, s': State, newDs: seq<Disk>, ds: seq<Disk>)
    requires Sections(e, s, newDs, ds) && s' == s.(nTried := s'.nTried)
    ensures Sections(e, s', newDs, ds)
  {
    hide IsHome;
  }

  // ---------- The bucket lists ----------

  /** The slot a bucket list names for an entry. */
  function OldSlot(e: Env, s: State, x: Entry): Slot
    requires x.index in s.info
  {
    Slot(x.bucket, e.position(s.key, true, x.bucket, s.info[x.index].Service()))
  }

  /** An entry is in a slot only if it is valid and listed, and the slot is its default one or,
    * when the buckets are kept, a listed one.
    */
  ghost predicate Justified(e: Env, t: State, xs: seq<Entry>, restore: bool, slot: Slot, id: Id) {
    && id in t.info && e.valid(t.info[id].Service().ip)
    && (exists j :: 0 <= j < |xs| && xs[j].index == id && (slot == DefaultSlot(e, t, id) || (restore && slot == OldSlot(e, t, xs[j]))))
  }

  /** What listing number `j` has brought: when buckets are kept, its slot is taken unless the
    * entry has all its references; in any case the entry has a slot or its default slot is
    * taken, by an entry listed no later when buckets are not kept.
    */
  ghost predicate Served(e: Env, t: State, q: State, xs: seq<Entry>, restore: bool, j: nat)
    requires j < |xs| && xs[j].index in t.info && xs[j].index in q.info
  {
    var id := xs[j].index;
    && (restore ==> OldSlot(e, t, xs[j]) in q.newTable || q.info[id].refCount == 8)
    && (q.info[id].refCount > 0 || DefaultSlot(e, t, id) in q.newTable)
    && (!restore ==>
          && DefaultSlot(e, t, id) in q.newTable
          && exists i :: 0 <= i <= j && xs[i].index == q.newTable[DefaultSlot(e, t, id)])
  }

  /** The new table after the bucket entries `xs`. */
  ghost predicate Placing(e: Env, t: State, q: State, xs: seq<Entry>, restore: bool) {
    && q == t.(info := q.info, newTable := q.newTable) && q.info.Keys == t.info.Keys
    && (forall id :: id in t.info ==> q.info[id] == t.info[id].(refCount := q.info[id].refCount))
    && NewTableOk(e, q) && RefsOk(q, q.info.Keys)
    && (forall slot :: slot in q.newTable ==> Justified(e, t, xs, restore, slot, q.newTable[slot]))
    && (forall j :: 0 <= j < |xs| ==> xs[j].index in t.info)
    && (forall j :: 0 <= j < |xs| && e.valid(t.info[xs[j].index].Service().ip) ==> Served(e, t, q, xs, restore, j))
  }

  lemma MorePending(s: State, p: set<Id>, p': set<Id>)
    requires RefsOk(s, p) && p <= p'
    ensures RefsOk(s, p')
  {
  }

  lemma JustifiedLonger(e: Env, t: State, xs: seq<Entry>, x: Entry, restore: bool, slot: Slot, id: Id)
    requires forall j :: 0 <= j < |xs| ==> xs[j].index in t.info
    requires x.index in t.info && Justified(e, t, xs, restore, slot, id)
    ensures Justified(e, t, xs + [x], restore, slot, id)
  {
    var j :| 0 <= j < |xs| && xs[j].index == id && (slot == DefaultSlot(e, t, id) || (restore && slot == OldSlot(e, t, xs[j])));
    assert (xs + [x])[j] == xs[j];
  }

  /** A listing stays served while the table grows. */
  lemma ServedStill(e: Env, t: State, q: State, q': State, xs: seq<Entry>, x: Entry, restore: bool, j: nat)
    requires j < |xs| && xs[j].index in t.info && xs[j].index in q.info && Served(e, t, q, xs, restore, j)
    requires forall slot :: slot in q.newTable ==> slot in q'.newTable && q'.newTable[slot] == q.newTable[slot]
    requires xs[j].index in q'.info && q.info[xs[j].index].refCount <= q'.info[xs[j].index].refCount <= 8
    ensures Served(e, t, q', xs + [x], restore, j)
  {
    assert (xs + [x])[j] == xs[j];
    if !restore {
      var i :| 0 <= i <= j && xs[i].index == q.newTable[DefaultSlot(e, t, xs[j].index)];
      assert (xs + [x])[i] == xs[i];
    }
  }

  /** An entry put into a free slot. */
  lemma PlacingPlaced(e: Env, t: State, q: State, xs: seq<Entry>, restore: bool, x: Entry, slot: Slot)
    requires Placing(e, t, q, xs, restore) && x.index in t.info && e.valid(t.info[x.index].Service().ip)
    requires !t.info[x.index].inTried && q.info[x.index].refCount < 8 && slot !in q.newTable && InNewRange(slot)
    requires slot == DefaultSlot(e, t, x.index) || (restore && slot == OldSlot(e, t, x))
    requires restore ==> slot == OldSlot(e, t, x) || OldSlot(e, t, x) in q.newTable
    ensures Placing(e, t, Placed(q, slot, x.index), xs + [x], restore)
  {
    hide NewTableOk, RefsOk, Served, Justified;
    var q', ys := Placed(q, slot, x.index), xs + [x];
    PlacedNewTable(e, q, slot, x.index);
    PlacedRefs(q, q.info.Keys, slot, x.index);
    MorePending(q', q.info.Keys - {x.index}, q'.info.Keys);
    RefsBound(q', q'.info.Keys);
    RefsBound(q, q.info.Keys);
    PlacedJustified(e, t, q, xs, restore, x, slot);
    ServedNow(e, t, q', ys, restore, slot);
    PlacingGrows(e, t, q, q', xs, restore, x);
  }

  lemma PlacedJustified(e: Env, t: State, q: State, xs: seq<Entry>, restore: bool, x: Entry, slot: Slot)
    requires x.index in t.info && x.index in q.info && e.valid(t.info[x.index].Service().ip)
    requires forall s :: s in q.newTable ==> Justified(e, t, xs, restore, s, q.newTable[s])
    requires forall j :: 0 <= j < |xs| ==> xs[j].index in t.info
    requires slot == DefaultSlot(e, t, x.index) || (restore && slot == OldSlot(e, t, x))
    ensures var q' := Placed(q, slot, x.index);
      forall s :: s in q'.newTable ==> Justified(e, t, xs + [x], restore, s, q'.newTable[s])
  {
    var q', ys := Placed(q, slot, x.index), xs + [x];
    assert ys[|xs|] == x;
    assert Justified(e, t, ys, restore, slot, x.index);
    hide Justified;
    forall s | s in q'.newTable ensures Justified(e, t, ys, restore, s, q'.newTable[s]) {
      if s != slot {
        JustifiedLonger(e, t, xs, x, restore, s, q.newTable[s]);
      }
    }
  }

  /** One more listing, when the table has grown and the listing is served. */
  lemma PlacingGrows(e: Env, t: State, q: State, q': State, xs: seq<Entry>, restore: bool, x: Entry)
    requires Placing(e, t, q, xs, restore) && x.index in t.info
    requires q' == t.(info := q'.info, newTable := q'.newTable) && q'.info.Keys == t.info.Keys
    requires forall id :: id in t.info ==>
      q'.info[id] == t.info[id].(refCount := q'.info[id].refCount) && q.info[id].refCount <= q'.info[id].refCount <= 8
    requires NewTableOk(e, q') && RefsOk(q', q'.info.Keys)
    requires forall slot :: slot in q.newTable ==> slot in q'.newTable && q'.newTable[slot] == q.newTable[slot]
    requires forall slot :: slot in q'.newTable ==> Justified(e, t, xs + [x], restore, slot, q'.newTable[slot])
    requires e.valid(t.info[x.index].Service().ip) ==> Served(e, t, q', xs + [x], restore, |xs|)
    ensures Placing(e, t, q', xs + [x], restore)
  {
    hide NewTableOk, RefsOk, Served, Justified;
    var ys := xs + [x];
    assert ys[|xs|] == x && ys[..|xs|] == xs;
    forall j | 0 <= j < |xs| && e.valid(t.info[xs[j].index].Service().ip) ensures Served(e, t, q', ys, restore, j) {
      ServedStill(e, t, q, q', xs, x, restore, j);
    }
  }

  /** When buckets are not kept, an entry has at most its default slot. */
  lemma OneSlot(e: Env, t: State, q: State, xs: seq<Entry>, id: Id)
    requires Placing(e, t, q, xs, false) && id in t.info
    ensures q.info[id].refCount <= 1
    ensures q.info[id].refCount > 0 <==> DefaultSlot(e, t, id) in q.newTable && q.newTable[DefaultSlot(e, t, id)] == id
  {
    hide NewTableOk, Served;
    var slots, d := SlotsOf(q.newTable, id), DefaultSlot(e, t, id);
    assert forall slot :: slot in slots ==> slot == d;
    if d in slots {
      assert slots == {d};
    } else {
      assert slots == {};
    }
  }

  /** An entry that is not put anywhere. */
  lemma PlacingSkipped(e: Env, t: State, q: State, xs: seq<Entry>, restore: bool, x: Entry)
    requires Placing(e, t, q, xs, restore) && x.index in t.info
    requires e.valid(t.info[x.index].Service().ip) ==>
      || q.info[x.index].refCount >= 8
      || ((restore ==> OldSlot(e, t, x) in q.newTable) && DefaultSlot(e, t, x.index) in q.newTable)
    ensures Placing(e, t, q, xs + [x], restore)
  {
    hide NewTableOk, RefsOk;
    var ys := xs + [x];
    assert ys[|xs|] == x;
    RefsBound(q, q.info.Keys);
    if !restore { OneSlot(e, t, q, xs, x.index); }
    forall slot | slot in q.newTable ensures Justified(e, t, ys, restore, slot, q.newTable[slot]) {
      JustifiedLonger(e, t, xs, x, restore, slot, q.newTable[slot]);
    }
    if e.valid(t.info[x.index].Service().ip) {
      var d := DefaultSlot(e, t, x.index);
      if !restore {
        var i :| 0 <= i < |xs| && xs[i].index == q.newTable[d];
        assert ys[i] == xs[i];
      }
      assert Served(e, t, q, ys, restore, |xs|);
    }
    PlacingGrows(e, t, q, q, xs, restore, x);
  }

  lemma PlacingOne(e: Env, t: State, q: State, xs: seq<Entry>, restore: bool, x: Entry)
    requires Placing(e, t, q, xs, restore) && x.index in t.info && !t.info[x.index].inTried
    requires restore ==> x.bucket < NEW_BUCKET_COUNT
    ensures x.index in q.info && Placing(e, t, PlaceOne(e, q, x, restore), xs + [x], restore)
  {
    var i, d, old' := t.info[x.index], DefaultSlot(e, t, x.index), OldSlot(e, t, x);
    assert q.info[x.index] == i.(refCount := q.info[x.index].refCount);
    assert DefaultSlot(e, q, x.index) == d && OldSlot(e, q, x) == old' && InNewRange(d);
    hide Placing;
    if !e.valid(i.Service().ip) || q.info[x.index].refCount >= 8 {
      PlacingSkipped(e, t, q, xs, restore, x);
    } else if restore && old' !in q.newTable {
      PlacingPlaced(e, t, q, xs, restore, x, old');
    } else if d !in q.newTable {
      PlacingPlaced(e, t, q, xs, restore, x, d);
    } else {
      PlacingSkipped(e, t, q, xs, restore, x);
    }
  }

  lemma {:induction false} PlacingAll(e: Env, t: State, xs: seq<Entry>, restore: bool)
    requires Placing(e, t, t, [], restore) && Known(t, xs)
    requires forall k :: 0 <= k < |xs| ==> !t.info[xs[k].index].inTried && (restore ==> xs[k].bucket < NEW_BUCKET_COUNT)
    ensures Placing(e, t, PlaceAll(e, t, xs, restore), xs, restore)
  {
    hide Placing, PlaceOne;
    if xs != [] {
      var n := |xs| - 1;
      PlacingAll(e, t, xs[..n], restore);
      PlacingOne(e, t, PlaceAll(e, t, xs[..n], restore), xs[..n], restore, xs[n]);
      assert xs[..n] + [xs[n]] == xs;
    }
  }

  lemma RefsBound(s: State, p: set<Id>)
    requires RefsOk(s, p)
    ensures forall id :: id in s.info ==> 0 <= s.info[id].refCount <= 8
  {
  }

  lemma ServedNow(e: Env, t: State, q: State, xs: seq<Entry>, restore: bool, slot: Slot)
    requires var j := |xs| - 1; j >= 0 && xs[j].index in t.info && xs[j].index in q.info
    requires var x := xs[|xs| - 1];
      && slot in q.newTable && q.newTable[slot] == x.index && q.info[x.index].refCount > 0
      && (restore ==> OldSlot(e, t, x) in q.newTable) && (!restore ==> slot == DefaultSlot(e, t, x.index))
    ensures Served(e, t, q, xs, restore, |xs| - 1)
  {
  }

  lemma SectionsStart(e: Env, t: State, newDs: seq<Disk>, ds: seq<Disk>, restore: bool)
    requires Sections(e, t, newDs, ds)
    ensures Placing(e, t, t, [], restore)
    ensures forall k :: 0 <= k < |newDs| ==> !t.info[k].inTried
  {
    hide IsHome, RandomOk;
    forall id | id in t.info ensures t.info[id].refCount == 0 && (id < |newDs| ==> !t.info[id].inTried) {
      SectionsInfo(e, t, newDs, ds, id);
    }
    forall id ensures SlotsOf(t.newTable, id) == {} {}
  }

  /** Every id is that of a record. */
  lemma SectionsInfo(e: Env, t: State, newDs: seq<Disk>, ds: seq<Disk>, id: Id)
    requires Sections(e, t, newDs, ds) && id in t.info
    ensures if id < |newDs| then 0 <= id && HeldAs(t, id, newDs[id], false)
            else id < |newDs| + |ds| && HeldAs(t, id, ds[id - |newDs|], true)
  {
    hide IsHome, RandomOk, HeldAs;
    if id < |newDs| {
      assert HeldAs(t, 0 + id, newDs[id], false);
    } else {
      assert HeldAs(t, |newDs| + (id - |newDs|), ds[id - |newDs|], true);
    }
  }

  lemma BucketedPlacing(e: Env, f: File)
    requires Readable(f)
    ensures Placing(e, Entered(e, f), Bucketed(e, f), ListedPart(f), Restores(e, f))
  {
    hide Sections, Placing, Entered, Entries, PlaceAll;
    EnteredSections(e, f);
    EntriesKnown(e, f);
    EntriesInRange(f.buckets[..Rows(f)], f.nNew);
    SectionsStart(e, Entered(e, f), NewPart(f), TriedPart(e, f), Restores(e, f));
    PlacingAll(e, Entered(e, f), ListedPart(f), Restores(e, f));
  }

  // ---------- Pruning ----------

  /** Pruning removes exactly the listed entries without a place, and moves nothing. */
  lemma {:induction false} PrunedEffect(e: Env, s: State, order: seq<Id>)
    requires RandomOk(s) && Pending(s, order)
    ensures var s' := Pruned(e, s, order);
      && s'.newTable == s.newTable && s'.triedTable == s.triedTable && Slim(s, s')
      && (forall x :: x in s.info ==> (x in s'.info <==> x !in order || s.info[x].inTried || s.info[x].refCount != 0))
      && (forall x :: x in s'.info ==> s'.info[x] == s.info[x].(randomPos := s'.info[x].randomPos))
    decreases |order|
  {
    hide RandomOk, Deleted, Pending;
    if order != [] {
      PruneOneReady(e, s, order);
      PendingHead(s, order);
      PendingOnce(s, order);
      DeletedEffect(e, s, order[0]);
      PrunedEffect(e, PruneOne(e, s, order[0]), order[1..]);
      assert order == [order[0]] + order[1..];
    }
  }

  lemma PendingOnce(s: State, order: seq<Id>)
    requires Pending(s, order) && order != []
    ensures order[0] !in order[1..]
  {
  }

  // ---------- What is left of a file ----------

  /** An order in which the pruning walks all entries. */
  ghost predicate Walk(e: Env, f: File, order: seq<Id>)
    requires Readable(f)
  {
    Pending(Bucketed(e, f), order) && Enumerates(order, Bucketed(e, f).info.Keys)
  }

  /** The restored state, from the state `t` with both sections in and the state `q` with the
    * new table filled.
    */
  lemma RestoredIs(e: Env, f: File, order: seq<Id>)
    requires Readable(f) && Walk(e, f, order)
    ensures var t, q, s := Entered(e, f), Bucketed(e, f), Restored(e, f, order);
      && Sections(e, t, NewPart(f), TriedPart(e, f)) && Placing(e, t, q, ListedPart(f), Restores(e, f))
      && t.key == f.key && s.key == f.key && s.collisions == {} && s.lastGood == 1
      && s.newTable == q.newTable && s.triedTable == t.triedTable
      && (forall x :: x in t.info ==> (x in s.info <==> t.info[x].inTried || q.info[x].refCount != 0))
      && (forall x :: x in s.info ==> x in t.info && s.info[x] == q.info[x].(randomPos := s.info[x].randomPos))
  {
    hide Sections, Entered, Bucketed, Pruned, NewTableOk, RefsOk, Justified, Served;
    EnteredSections(e, f);
    BucketedPlacing(e, f);
    PrunedEffect(e, Bucketed(e, f), order);
  }

  /** For every readable file: a record of the new section survives exactly when it has a slot
    * in the end; it has as many references as slots; it is valid and listed; its slots are
    * its default one or listed ones, and only its default one when buckets cannot be kept.
    * A listed valid record is lost only to another holder of its default slot.
    */
  lemma ReloadedNew(e: Env, f: File, order: seq<Id>, n: nat)
    requires Readable(f) && Walk(e, f, order) && n < f.nNew
    ensures var s, d, xs := Restored(e, f, order), f.newEntries[n], ListedPart(f);
      var slot := e.NewSlot(f.key, d.address.service, d.source);
      var valid := e.valid(d.address.service.ip);
      && (n in s.info <==> SlotsOf(s.newTable, n) != {})
      && (n in s.info ==>
            && s.info[n] == FromDisk(d, s.info[n].randomPos, false).(refCount := |SlotsOf(s.newTable, n)|)
            && valid && IsListed(xs, n))
      && (n !in s.info && valid && IsListed(xs, n) ==>
            slot in s.newTable && s.newTable[slot] != n)
      && (n in s.info && !Restores(e, f) ==> SlotsOf(s.newTable, n) == {slot})
  {
    hide Sections, Placing, Entered, Bucketed, Restored, Restores, ListedPart, SlotsOf, Walk;
    var t, q := Entered(e, f), Bucketed(e, f);
    RestoredIs(e, f, order);
    SectionsAt(e, t, NewPart(f), TriedPart(e, f), n);
    PlacedEnd(e, t, q, ListedPart(f), Restores(e, f), n, f.newEntries[n]);
  }

  ghost predicate IsListed(xs: seq<Entry>, n: Id) {
    exists j :: 0 <= j < |xs| && xs[j].index == n
  }

  lemma PlacedEnd(e: Env, t: State, q: State, xs: seq<Entry>, restore: bool, n: Id, d: Disk)
    requires Placing(e, t, q, xs, restore) && HeldAs(t, n, d, false)
    ensures var slot := e.NewSlot(t.key, d.address.service, d.source);
      && n in q.info && q.info[n] == FromDisk(d, n, false).(refCount := |SlotsOf(q.newTable, n)|)
      && (q.info[n].refCount != 0 <==> SlotsOf(q.newTable, n) != {})
      && (q.info[n].refCount != 0 ==> e.valid(d.address.service.ip) && IsListed(xs, n))
      && (q.info[n].refCount == 0 && e.valid(d.address.service.ip) && IsListed(xs, n) ==>
            slot in q.newTable && q.newTable[slot] != n)
      && (q.info[n].refCount != 0 && !restore ==> SlotsOf(q.newTable, n) == {slot})
  {
    hide Placing, IsListed, SlotsOf;
    var slot := e.NewSlot(t.key, d.address.service, d.source);
    EndRefs(e, t, q, xs, restore, n);
    if q.info[n].refCount != 0 {
      EndHeld(e, t, q, xs, restore, n);
      if !restore {
        OnlySlot(e, t, q, xs, n);
      }
    } else if e.valid(d.address.service.ip) && IsListed(xs, n) {
      EndLost(e, t, q, xs, restore, n);
    }
  }

  lemma EndRefs(e: Env, t: State, q: State, xs: seq<Entry>, restore: bool, n: Id)
    requires Placing(e, t, q, xs, restore) && n in t.info
    ensures n in q.info && q.info[n] == t.info[n].(refCount := |SlotsOf(q.newTable, n)|)
    ensures q.info[n].refCount != 0 <==> SlotsOf(q.newTable, n) != {}
  {
    hide NewTableOk, Justified, Served;
  }

  lemma EndHeld(e: Env, t: State, q: State, xs: seq<Entry>, restore: bool, n: Id)
    requires Placing(e, t, q, xs, restore) && SlotsOf(q.newTable, n) != {}
    ensures n in t.info && e.valid(t.info[n].Service().ip) && IsListed(xs, n)
  {
    hide NewTableOk, RefsOk, Served;
    var x :| x in SlotsOf(q.newTable, n);
    assert Justified(e, t, xs, restore, x, n);
  }

  lemma EndLost(e: Env, t: State, q: State, xs: seq<Entry>, restore: bool, n: Id)
    requires Placing(e, t, q, xs, restore) && n in t.info && q.info[n].refCount == 0
    requires e.valid(t.info[n].Service().ip) && IsListed(xs, n)
    ensures var slot := DefaultSlot(e, t, n); slot in q.newTable && q.newTable[slot] != n
  {
    hide NewTableOk, Justified;
    var j :| 0 <= j < |xs| && xs[j].index == n;
    assert Served(e, t, q, xs, restore, j);
    var slots, slot := SlotsOf(q.newTable, n), DefaultSlot(e, t, n);
    assert slots == {};
    assert slot !in slots;
  }

  lemma OnlySlot(e: Env, t: State, q: State, xs: seq<Entry>, n: Id)
    requires Placing(e, t, q, xs, false) && n in t.info && q.info[n].refCount != 0
    ensures SlotsOf(q.newTable, n) == {DefaultSlot(e, t, n)}
  {
    hide NewTableOk, RefsOk, Served;
    EndRefs(e, t, q, xs, false, n);
    var slots := SlotsOf(q.newTable, n);
    forall x | x in slots ensures x == DefaultSlot(e, t, n) {
      assert Justified(e, t, xs, false, x, n);
    }
    var x :| x in slots;
  }

  lemma SectionsAt(e: Env, t: State, newDs: seq<Disk>, ds: seq<Disk>, n: nat)
    requires Sections(e, t, newDs, ds) && n < |newDs|
    ensures HeldAs(t, n, newDs[n], false)
  {
    hide IsHome, RandomOk, HeldAs;
    assert HeldAs(t, 0 + n, newDs[n], false);
  }

  /** For every readable file and every bucket entry of a valid record: when buckets are kept
    * its slot is taken in the end, unless the record has eight references; when they are
    * not, its default slot belongs to a record listed no later.
    */
  lemma ReloadedListing(e: Env, f: File, order: seq<Id>, j: nat)
    requires Readable(f) && Walk(e, f, order) && j < |ListedPart(f)|
    ensures var s, xs := Restored(e, f, order), ListedPart(f);
      && 0 <= xs[j].index < f.nNew
      && var d := f.newEntries[xs[j].index];
      && (e.valid(d.address.service.ip) && Restores(e, f) ==>
            || Slot(xs[j].bucket, e.position(f.key, true, xs[j].bucket, d.address.service)) in s.newTable
            || (xs[j].index in s.info && s.info[xs[j].index].refCount == 8))
      && (e.valid(d.address.service.ip) && !Restores(e, f) ==>
            var slot := e.NewSlot(f.key, d.address.service, d.source);
            slot in s.newTable && exists i :: 0 <= i <= j && xs[i].index == s.newTable[slot])
  {
    hide Sections, Entered, Bucketed, Restored, Restores, Walk, Entries, NewTableOk, RefsOk, Justified;
    var t, q, xs := Entered(e, f), Bucketed(e, f), ListedPart(f);
    RestoredIs(e, f, order);
    EntriesInRange(f.buckets[..Rows(f)], f.nNew);
    var n := xs[j].index;
    SectionsAt(e, t, NewPart(f), TriedPart(e, f), n);
    if e.valid(f.newEntries[n].address.service.ip) {
      assert Served(e, t, q, xs, Restores(e, f), j);
    }
  }

  /** For every readable file the tried table holds exactly the first valid record of each
    * home.
    */
  lemma ReloadedTried(e: Env, f: File, order: seq<Id>, k: nat)
    requires Readable(f) && Walk(e, f, order) && k < f.nTried
    ensures var s, d, ds := Restored(e, f, order), f.triedEntries[k], f.triedEntries[..f.nTried];
      var home := e.Home(f.key, d.address.service);
      && (First(e, f.key, ds, k) ==>
            && home in s.triedTable && s.triedTable[home] in s.info
            && s.info[s.triedTable[home]] == FromDisk(d, s.info[s.triedTable[home]].randomPos, true))
      && (forall slot :: slot in s.triedTable ==>
            exists i :: 0 <= i < |ds| && First(e, f.key, ds, i) && slot == e.Home(f.key, ds[i].address.service))
  {
    hide Entered, Bucketed, Restored, Pending, Enumerates, Placing, Sections, First, Kept;
    var t, ds := Entered(e, f), f.triedEntries[..f.nTried];
    RestoredIs(e, f, order);
    SectionsHomes(e, t, NewPart(f), ds);
    if First(e, f.key, ds, k) {
      SectionsTried(e, t, NewPart(f), ds, k);
      EndTried(e, t, Bucketed(e, f), ListedPart(f), Restores(e, f), t.triedTable[e.Home(f.key, ds[k].address.service)]);
    }
  }

  lemma SectionsTried(e: Env, t: State, newDs: seq<Disk>, ds: seq<Disk>, k: nat)
    requires Sections(e, t, newDs, Kept(e, t.key, ds)) && k < |ds| && First(e, t.key, ds, k)
    ensures var home := e.Home(t.key, ds[k].address.service); home in t.triedTable && HeldAs(t, t.triedTable[home], ds[k], true)
  {
    hide First, Kept, Counted, IsHome, HeldAs;
    var kept := Kept(e, t.key, ds);
    KeptExact(e, t.key, ds);
    var i :| 0 <= i < |kept| && kept[i] == ds[k];
    assert HeldAs(t, |newDs| + i, kept[i], true);
  }

  lemma SectionsHomes(e: Env, t: State, newDs: seq<Disk>, ds: seq<Disk>)
    requires Sections(e, t, newDs, Kept(e, t.key, ds))
    ensures forall slot :: slot in t.triedTable ==>
      exists i :: 0 <= i < |ds| && First(e, t.key, ds, i) && slot == e.Home(t.key, ds[i].address.service)
  {
    hide First, Kept, Counted, Holds;
    var kept := Kept(e, t.key, ds);
    KeptExact(e, t.key, ds);
    forall slot | slot in t.triedTable
      ensures exists i :: 0 <= i < |ds| && First(e, t.key, ds, i) && slot == e.Home(t.key, ds[i].address.service)
    {
      assert IsHome(e, t.key, kept, slot);
      var i :| 0 <= i < |kept| && slot == e.Home(t.key, kept[i].address.service);
      assert kept[i] in kept;
    }
  }

  lemma EndTried(e: Env, t: State, q: State, xs: seq<Entry>, restore: bool, id: Id)
    requires Placing(e, t, q, xs, restore) && id in t.info && t.info[id].inTried && t.info[id].refCount == 0
    ensures id in q.info && q.info[id] == t.info[id]
  {
    hide NewTableOk, Justified, Served;
  }

  // ---------- The invariant after reading ----------

  lemma EnteredWeak(e: Env, f: File)
    requires Readable(f) && DistinctServices(NewPart(f) + f.triedEntries[..f.nTried])
    ensures Weak(e, Entered(e, f), FirstIds(f.nNew), {})
  {
    hide Weak, LoadNew, LoadTried, Kept, First;
    var newDs, ds := NewPart(f), f.triedEntries[..f.nTried];
    var s1 := LoadNew(e, StartState(f), newDs).(idCount := f.nNew);
    KeptDistinct(e, f.key, newDs, ds);
    assert forall k :: 0 <= k < |newDs| ==> (newDs + ds)[k] == newDs[k];
    AfterNewOk(e, StartState(f), newDs);
    LoadNewTotals(e, StartState(f), newDs);
    assert s1.(nTried := 0) == AfterNew(e, StartState(f), newDs);
    CountedKeys(AfterNew(e, StartState(f), newDs), |newDs|);
    KeptExact(e, f.key, ds);
    AfterTriedOk(e, s1, newDs, Kept(e, f.key, ds), FirstIds(|newDs|));
    LoadTriedKept(e, s1, ds);
    LoadTriedTotals(e, s1, ds);
    assert Entered(e, f) == AfterTried(e, s1, Kept(e, f.key, ds));
  }

  lemma KeptDistinct(e: Env, key: Key, newDs: seq<Disk>, ds: seq<Disk>)
    requires DistinctServices(newDs + ds)
    ensures DistinctServices(newDs + Kept(e, key, ds))
  {
    hide First;
    var r, all := Kept(e, key, ds), newDs + ds;
    KeptExact(e, key, ds);
    forall i, j | 0 <= i < |newDs| && 0 <= j < |r| ensures newDs[i].address.service != r[j].address.service {
      assert r[j] in r;
      var k :| 0 <= k < |ds| && ds[k] == r[j];
      assert all[i] == newDs[i] && all[|newDs| + k] == ds[k];
    }
    assert forall i, j :: 0 <= i < j < |newDs| ==> all[i] == newDs[i] && all[j] == newDs[j];
  }

  lemma PlaceOneWeak(e: Env, q: State, x: Entry, restore: bool, p: set<Id>)
    requires Weak(e, q, p, {}) && x.index in q.info && !q.info[x.index].inTried
    requires restore ==> x.bucket < NEW_BUCKET_COUNT
    ensures Weak(e, PlaceOne(e, q, x, restore), p, {})
  {
    hide Weak;
    var i := q.info[x.index];
    var slot := if restore && OldSlot(e, q, x) !in q.newTable then OldSlot(e, q, x) else DefaultSlot(e, q, x.index);
    if e.valid(i.Service().ip) && i.refCount < 8 && slot !in q.newTable {
      PlacedKeeps(e, q, p, {}, slot, x.index);
      WeakerPending(e, Placed(q, slot, x.index), p - {x.index}, p, {});
    }
  }

  lemma {:induction false} PlaceAllWeak(e: Env, t: State, xs: seq<Entry>, restore: bool, p: set<Id>)
    requires Weak(e, t, p, {}) && Placing(e, t, t, [], restore) && Known(t, xs)
    requires forall k :: 0 <= k < |xs| ==> !t.info[xs[k].index].inTried && (restore ==> xs[k].bucket < NEW_BUCKET_COUNT)
    ensures Weak(e, PlaceAll(e, t, xs, restore), p, {})
  {
    hide Weak, PlaceOne, NewTableOk, RefsOk, Justified, Served;
    if xs != [] {
      var n := |xs| - 1;
      PlaceAllWeak(e, t, xs[..n], restore, p);
      PlacingAll(e, t, xs[..n], restore);
      PlaceOneWeak(e, PlaceAll(e, t, xs[..n], restore), xs[n], restore, p);
    }
  }

  lemma {:induction false} PrunedWeak(e: Env, s: State, order: seq<Id>, p: set<Id>)
    requires Weak(e, s, p, {}) && RandomOk(s) && Pending(s, order)
    ensures Weak(e, Pruned(e, s, order), p, {})
    decreases |order|
  {
    hide Weak, RandomOk, Pending, Deleted;
    if order != [] {
      PruneOneReady(e, s, order);
      PendingHead(s, order);
      var id := order[0];
      if !s.info[id].inTried && s.info[id].refCount == 0 {
        DeletedKeeps(e, s, p, {}, id);
        WeakerPending(e, Deleted(e, s, id), p - {id}, p, {});
      }
      PrunedWeak(e, PruneOne(e, s, id), order[1..], p);
    }
  }

  /** A file whose records are of distinct addresses, and whose tried records tell of a
    * success, is read into a manager that satisfies the invariant, whatever its bucket lists
    * say and whatever is lost.
    */
  lemma ReloadedInv(e: Env, f: File, order: seq<Id>)
    requires Readable(f) && Walk(e, f, order) && f.key != 0
    requires DistinctServices(NewPart(f) + f.triedEntries[..f.nTried])
    requires forall k :: 0 <= k < f.nNew ==> f.newEntries[k].lastSuccess >= 0
    requires forall k :: 0 <= k < f.nTried ==> f.triedEntries[k].lastSuccess > 0
    ensures Inv(e, Restored(e, f, order))
  {
    hide IndexOk, RandomOk, NewTableOk, TriedTableOk, CountsOk, Entered, Placing, Sections, Entries, PlaceAll, Pruned, Pending, Enumerates, First;
    var t, q, s, p := Entered(e, f), Bucketed(e, f), Restored(e, f, order), FirstIds(f.nNew);
    RestoredIs(e, f, order);
    EnteredWeak(e, f);
    EntriesKnown(e, f);
    EntriesInRange(f.buckets[..Rows(f)], f.nNew);
    SectionsStart(e, t, NewPart(f), TriedPart(e, f), Restores(e, f));
    PlaceAllWeak(e, t, ListedPart(f), Restores(e, f), p);
    WalkPending(e, f, order);
    PrunedWeak(e, q, order, p);
    forall id | id in s.info
      ensures s.info[id].lastTry == 0 && s.info[id].lastSuccess >= 0 && (s.info[id].inTried ==> s.info[id].lastSuccess > 0)
      ensures !s.info[id].inTried ==> s.info[id].refCount != 0
    {
      RestoredTimes(e, f, order, id);
    }
  }

  lemma WalkPending(e: Env, f: File, order: seq<Id>)
    requires Readable(f) && Walk(e, f, order)
    ensures Pending(Bucketed(e, f), order)
  {
  }

  lemma RestoredTimes(e: Env, f: File, order: seq<Id>, id: Id)
    requires Readable(f) && Walk(e, f, order) && id in Restored(e, f, order).info
    requires forall k :: 0 <= k < f.nNew ==> f.newEntries[k].lastSuccess >= 0
    requires forall k :: 0 <= k < f.nTried ==> f.triedEntries[k].lastSuccess > 0
    ensures var i := Restored(e, f, order).info[id];
      && i.lastTry == 0 && i.lastSuccess >= 0 && (i.inTried ==> i.lastSuccess > 0)
      && (!i.inTried ==> i.refCount != 0)
  {
    hide Sections, Placing, Entered, Bucketed, Restored, Walk, Kept, First;
    var t, ds, kept := Entered(e, f), f.triedEntries[..f.nTried], TriedPart(e, f);
    RestoredIs(e, f, order);
    EndRefs(e, t, Bucketed(e, f), ListedPart(f), Restores(e, f), id);
    SectionsInfo(e, t, NewPart(f), kept, id);
    if id >= f.nNew {
      KeptExact(e, f.key, ds);
      assert kept[id - f.nNew] in kept;
    }
  }

  // ---------- Another bucketing ----------

  /** Under another version of the asmap nothing of a written manager is put back where it was. */
  lemma WrittenElsewhere(e: Env, e': Env, s: State, order: seq<Id>)
    requires Inv(e, s) && Enumerates(order, s.info.Keys) && Writable(s, order) && e'.asmapVersion != e.asmapVersion
    ensures var f := Written(e, s, order);
      && Readable(f) && !Restores(e', f) && f.key == s.key && s.key != 0
      && NewPart(f) == Disks(s, News(s, order)) && f.triedEntries[..f.nTried] == Disks(s, Trieds(s, order))
      && ListedPart(f) == Entries(BucketLists(s.newTable, News(s, order), NEW_BUCKET_COUNT), |News(s, order)|)
  {
    hide Weak, CollisionsOk, News, Trieds, BucketLists, Entries;
    WrittenReadable(e, s, order);
    SectionsCount(e, s, order);
  }

  lemma WrittenTimes(e: Env, s: State, order: seq<Id>)
    requires Inv(e, s) && Enumerates(order, s.info.Keys)
    ensures forall k :: 0 <= k < |News(s, order)| ==> Disks(s, News(s, order))[k].lastSuccess >= 0
    ensures forall k :: 0 <= k < |Trieds(s, order)| ==> Disks(s, Trieds(s, order))[k].lastSuccess > 0
  {
    hide Weak, CollisionsOk, News, Trieds;
    NewsListed(s, order);
    var news, trieds := News(s, order), Trieds(s, order);
    forall k | 0 <= k < |news| ensures Disks(s, news)[k].lastSuccess >= 0 {
      var id := news[k];
      assert id in s.info && s.info[id].lastSuccess >= 0;
    }
    forall k | 0 <= k < |trieds| ensures Disks(s, trieds)[k].lastSuccess > 0 {
      var id := trieds[k];
      assert id in s.info && s.info[id].inTried && s.info[id].lastSuccess > 0;
    }
  }

  lemma RebucketedInv(e: Env, e': Env, s: State, order: seq<Id>, walk: seq<Id>)
    requires Inv(e, s) && Enumerates(order, s.info.Keys) && Writable(s, order) && e'.asmapVersion != e.asmapVersion
    requires Readable(Written(e, s, order)) && Walk(e', Written(e, s, order), walk)
    ensures Inv(e', Restored(e', Written(e, s, order), walk)) && Checked(e', Restored(e', Written(e, s, order), walk))
  {
    hide Weak, TimesOk, CollisionsOk, News, Trieds, BucketLists, Entries, Disks, Bucketed, Pruned, DistinctServices, Checked,
         Enumerates, Pending;
    var f := Written(e, s, order);
    WrittenElsewhere(e, e', s, order);
    WrittenTimes(e, s, order);
    SectionsDistinct(e, s, order);
    DisksLength(s, order);
    assert forall k :: 0 <= k < f.nNew ==> f.newEntries[k] == NewPart(f)[k];
    assert forall k :: 0 <= k < f.nTried ==> f.triedEntries[k] == f.triedEntries[..f.nTried][k];
    ReloadedInv(e', f, walk);
    TablesInRange(e', Restored(e', f, walk));
    CheckExact(e', Restored(e', f, walk));
  }

  /** No other valid tried entry has the same home. */
  ghost predicate AloneAtHome(e: Env, s: State, id: Id)
    requires id in s.info
  {
    && e.valid(s.info[id].Service().ip)
    && (forall x :: x in s.info && s.info[x].inTried && x != id && e.valid(s.info[x].Service().ip) ==>
          s.HomeOf(e, x) != s.HomeOf(e, id))
  }

  /** No other valid new entry has the same default slot. */
  ghost predicate AloneByDefault(e: Env, s: State, id: Id)
    requires id in s.info
  {
    && e.valid(s.info[id].Service().ip)
    && (forall x :: x in s.info && !s.info[x].inTried && x != id && e.valid(s.info[x].Service().ip) ==>
          DefaultSlot(e, s, x) != DefaultSlot(e, s, id))
  }

  /** The entry is back, at home. */
  ghost predicate BackHome(e: Env, s: State, t: State, id: Id)
    requires id in s.info
  {
    var home := s.HomeOf(e, id);
    && home in t.triedTable && t.triedTable[home] in t.info
    && t.info[t.triedTable[home]] == FromDisk(ToDisk(s.info[id]), t.info[t.triedTable[home]].randomPos, true)
  }

  /** The entry is back, at its default slot only. */
  ghost predicate BackByDefault(e: Env, s: State, t: State, id: Id)
    requires id in s.info
  {
    var slot := DefaultSlot(e, s, id);
    && slot in t.newTable && t.newTable[slot] in t.info
    && t.info[t.newTable[slot]] == FromDisk(ToDisk(s.info[id]), t.info[t.newTable[slot]].randomPos, false).(refCount := 1)
    && SlotsOf(t.newTable, t.newTable[slot]) == {slot}
  }

  lemma RebucketedTried(e: Env, e': Env, s: State, order: seq<Id>, walk: seq<Id>, id: Id)
    requires Inv(e, s) && Enumerates(order, s.info.Keys) && Writable(s, order) && e'.asmapVersion != e.asmapVersion
    requires Readable(Written(e, s, order)) && Walk(e', Written(e, s, order), walk)
    requires id in s.info && s.info[id].inTried && AloneAtHome(e', s, id)
    ensures BackHome(e', s, Restored(e', Written(e, s, order), walk), id)
  {
    hide Inv, News, Trieds, BucketLists, Entries, Bucketed, Pruned, Enumerates, Pending;
    var f, trieds := Written(e, s, order), Trieds(s, order);
    WrittenElsewhere(e, e', s, order);
    EverySection(e, s, order, id);
    WalkedIn(s, order);
    SectionsExact(s, order);
    NewsListed(s, order);
    var k, ds := IndexOf(trieds, id), f.triedEntries[..f.nTried];
    forall j | 0 <= j < k && e'.valid(ds[j].address.service.ip)
      ensures e'.Home(s.key, ds[j].address.service) != e'.Home(s.key, ds[k].address.service)
    {
      assert trieds[j] != id && trieds[j] in s.info && s.info[trieds[j]].inTried;
    }
    assert First(e', f.key, ds, k);
    ReloadedTried(e', f, walk, k);
  }

  lemma WalkedIn(s: State, order: seq<Id>)
    requires Enumerates(order, s.info.Keys)
    ensures (forall k :: 0 <= k < |order| ==> order[k] in s.info) && Distinct(order)
  {
  }

  /** Every new entry is in the bucket lists. */
  lemma WrittenLists(e: Env, s: State, order: seq<Id>, id: Id)
    requires Inv(e, s) && Enumerates(order, s.info.Keys) && Writable(s, order) && id in s.info && !s.info[id].inTried
    ensures id in News(s, order)
    ensures IsListed(Entries(BucketLists(s.newTable, News(s, order), NEW_BUCKET_COUNT), |News(s, order)|), IndexOf(News(s, order), id))
  {
    hide IndexOk, RandomOk, TriedTableOk, CountsOk, TimesOk, CollisionsOk, News, Trieds, BucketLists, Entries, TableSlots, IndexOf;
    var news, slots := News(s, order), TableSlots(s.newTable, NEW_BUCKET_COUNT);
    EverySection(e, s, order, id);
    TableNames(s.newTable, news, NEW_BUCKET_COUNT);
    TableSlotsExact(s.newTable, NEW_BUCKET_COUNT);
    assert |SlotsOf(s.newTable, id)| > 0;
    var slot :| slot in SlotsOf(s.newTable, id);
    assert slot in slots;
    var i :| 0 <= i < |slots| && slots[i] == slot;
  }

  lemma RebucketedNew(e: Env, e': Env, s: State, order: seq<Id>, walk: seq<Id>, id: Id)
    requires Inv(e, s) && Enumerates(order, s.info.Keys) && Writable(s, order) && e'.asmapVersion != e.asmapVersion
    requires Readable(Written(e, s, order)) && Walk(e', Written(e, s, order), walk)
    requires id in s.info && !s.info[id].inTried && AloneByDefault(e', s, id)
    ensures BackByDefault(e', s, Restored(e', Written(e, s, order), walk), id)
  {
    hide Inv, News, Trieds, BucketLists, Entries, Bucketed, Restored, Enumerates, Pending, IsListed, Restores, Written;
    var f, news := Written(e, s, order), News(s, order);
    WrittenElsewhere(e, e', s, order);
    WrittenLists(e, s, order, id);
    var n := IndexOf(news, id);
    var j := ListingOf(ListedPart(f), n);
    ReloadedListing(e', f, walk, j);
    var t, slot := Restored(e', f, walk), DefaultSlot(e', s, id);
    assert f.newEntries[n] == NewPart(f)[n] == ToDisk(s.info[id]);
    var m := t.newTable[slot];
    EntriesInRange(f.buckets[..Rows(f)], f.nNew);
    assert slot in SlotsOf(t.newTable, m);
    ReloadedNew(e', f, walk, m);
    NewsKind(e, s, order, m);
    assert f.newEntries[m] == NewPart(f)[m] == ToDisk(s.info[news[m]]);
  }

  lemma ListingOf(xs: seq<Entry>, n: Id) returns (j: nat)
    requires IsListed(xs, n)
    ensures j < |xs| && xs[j].index == n
  {
    j :| 0 <= j < |xs| && xs[j].index == n;
  }

  /** A manager written under one version of the asmap and read under any other is accepted
    * and satisfies the invariant of the other bucketing. Every tried entry that shares its
    * home with no other is back there, and every new entry that shares its default slot with
    * no other is back there, once.
    */
  lemma Rebucketed(e: Env, e': Env, s: State, order: seq<Id>, walk: seq<Id>)
    requires Inv(e, s) && Enumerates(order, s.info.Keys) && e'.asmapVersion != e.asmapVersion
    requires Writable(s, order) && Readable(Written(e, s, order)) ==> Walk(e', Written(e, s, order), walk)
    ensures Writable(s, order) && Readable(Written(e, s, order))
    ensures var t := Restored(e', Written(e, s, order), walk);
      && Inv(e', t) && Checked(e', t)
      && (forall id :: id in s.info && s.info[id].inTried && AloneAtHome(e', s, id) ==> BackHome(e', s, t, id))
      && (forall id :: id in s.info && !s.info[id].inTried && AloneByDefault(e', s, id) ==> BackByDefault(e', s, t, id))
  {
    hide Inv, Checked, Enumerates, Pending, Bucketed, Pruned, Written, AloneAtHome, AloneByDefault, BackHome, BackByDefault;
    ValidWritable(e, s, order);
    WrittenElsewhere(e, e', s, order);
    RebucketedInv(e, e', s, order, walk);
    var t := Restored(e', Written(e, s, order), walk);
    forall id | id in s.info && s.info[id].inTried && AloneAtHome(e', s, id) ensures BackHome(e', s, t, id) {
      RebucketedTried(e, e', s, order, walk, id);
    }
    forall id | id in s.info && !s.info[id].inTried && AloneByDefault(e', s, id) ensures BackByDefault(e', s, t, id) {
      RebucketedNew(e, e', s, order, walk, id);
    }
  }
}
