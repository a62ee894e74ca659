/** Writing the manager out and reading it back loses nothing: the same addresses in the
  * same slots of both tables with the same reference counts, up to new ids.
  */
module AddrManRoundTrip {
  import opened AddrManTypes
  import opened AddrManInvariant
  import opened AddrManOps
  import opened AddrManRuns
  import opened AddrManCheck
  import opened AddrManFile

  // ---------- The new section ----------

  /** The first `k` records entered, with the totals they stand for. */
  ghost function AfterNew(e: Env, s0: State, ds: seq<Disk>): State {
    LoadNew(e, s0, ds).(nNew := |ds|, nTried := 0, idCount := |ds|)
  }

  lemma AfterNewStep(e: Env, s0: State, ds: seq<Disk>)
    requires ds != []
    ensures var n := |ds| - 1; var d := ds[n];
      AfterNew(e, s0, ds) ==
        Touched(Created(e, AfterNew(e, s0, ds[..n]), d.address, d.source), n,
                FromDisk(d, |AfterNew(e, s0, ds[..n]).random|, false))
  {
  }

  ghost predicate HeldAs(s: State, id: Id, d: Disk, inTried: bool) {
    id in s.info && s.info[id] == FromDisk(d, id, inTried)
  }

  /** The entries of a state are the records of a section, under their places in it. */
  ghost predicate Holds(s: State, ds: seq<Disk>, base: nat, inTried: bool) {
    forall k :: 0 <= k < |ds| ==> HeldAs(s, base + k, ds[k], inTried)
  }

  ghost predicate DistinctServices(ds: seq<Disk>) {
    forall i, j :: 0 <= i < j < |ds| ==> ds[i].address.service != ds[j].address.service
  }

  lemma CreatedTouchedKeeps(e: Env, s: State, p: set<Id>, a: Address, source: NetAddr, i: Info)
    requires Weak(e, s, p, {}) && a.service !in s.addr
    requires SameEntry(FreshInfo(a, source, |s.random|), i)
    ensures Weak(e, Touched(Created(e, s, a, source), s.idCount, i), p + {s.idCount}, {})
  {
    hide IndexOk, RandomOk, NewTableOk, TriedTableOk, RefsOk, CountsOk;
    CreatedKeeps(e, s, p, {}, a, source);
    TouchedKeeps(e, Created(e, s, a, source), p + {s.idCount}, {}, s.idCount, i);
  }

  /** What is known after the sections have been entered: everything but the new table. */
  ghost predicate Settled(e: Env, s: State, n: nat, p: set<Id>) {
    && Weak(e, s, p, {})
    && Counted(s, n) && s.idCount == n && |s.random| == n
    && s.newTable == map[]
    && s.collisions == {}
  }

  lemma ServiceFresh(e: Env, s: State, p: set<Id>, ds: seq<Disk>, a: Service)
    requires Settled(e, s, |ds|, p) && Holds(s, ds, 0, false)
    requires forall k :: 0 <= k < |ds| ==> ds[k].address.service != a
    ensures a !in s.addr
  {
    hide RandomOk, NewTableOk, TriedTableOk, RefsOk, CountsOk;
    forall id | id in s.info ensures s.info[id].Service() != a {
      assert s.info[0 + id] == FromDisk(ds[id], id, false);
    }
  }

  ghost predicate Blank(s0: State) {
    s0 == EmptyState(s0.key).(nNew := s0.nNew, nTried := s0.nTried)
  }

  lemma {:induction false} AfterNewOk(e: Env, s0: State, ds: seq<Disk>)
    requires Blank(s0) && DistinctServices(ds)
    ensures var s := AfterNew(e, s0, ds);
      && Settled(e, s, |ds|, s.info.Keys)
      && Holds(s, ds, 0, false)
      && s.triedTable == map[] && s.key == s0.key && s.lastGood == 1
    decreases |ds|, 1
  {
    if ds == [] {
      EmptyWeak(e, s0.key);
    } else {
      AfterNewInduct(e, s0, ds);
    }
  }

  lemma EmptyWeak(e: Env, key: Key)
    ensures Weak(e, EmptyState(key), {}, {})
  {
    var s := EmptyState(key);
    assert Members(s, {}, InNew) == {} && Members(s, {}, InTried) == {};
    forall net ensures MembersOn(e, s, {}, InNew, net) == {} && MembersOn(e, s, {}, InTried, net) == {} {}
  }

  lemma {:induction false} AfterNewInduct(e: Env, s0: State, ds: seq<Disk>)
    requires Blank(s0) && DistinctServices(ds) && ds != []
    ensures var s := AfterNew(e, s0, ds);
      && Settled(e, s, |ds|, s.info.Keys)
      && Holds(s, ds, 0, false)
      && s.triedTable == map[] && s.key == s0.key && s.lastGood == 1
    decreases |ds|, 0
  {
    hide IndexOk, RandomOk, NewTableOk, TriedTableOk, RefsOk, CountsOk, LoadNew;
    var n := |ds| - 1;
    var d, s1, s := ds[n], AfterNew(e, s0, ds[..n]), AfterNew(e, s0, ds);
    AfterNewOk(e, s0, ds[..n]);
    AfterNewStep(e, s0, ds);
    ServiceFresh(e, s1, s1.info.Keys, ds[..n], d.address.service);
    CreatedTouchedKeeps(e, s1, s1.info.Keys, d.address, d.source, FromDisk(d, n, false));
    assert s.info.Keys == s1.info.Keys + {n};
    forall k | 0 <= k < |ds| ensures 0 + k in s.info && s.info[0 + k] == FromDisk(ds[k], 0 + k, false) {
      assert k < n ==> ds[..n][k] == ds[k] && 0 + k in s1.info;
    }
  }

  // ---------- The tried section ----------

  ghost function AfterTried(e: Env, s1: State, ds: seq<Disk>): State {
    LoadTried(e, s1, ds).0.(nTried := |ds|)
  }

  /** Distinct homes and valid addresses: nothing of the tried section is lost. */
  ghost predicate Lodgeable(e: Env, key: Key, ds: seq<Disk>) {
    && (forall k :: 0 <= k < |ds| ==> e.valid(ds[k].address.service.ip))
    && (forall i, j :: 0 <= i < j < |ds| ==> e.Home(key, ds[i].address.service) != e.Home(key, ds[j].address.service))
  }

  /** Entering a tried record is creating it, taking it out of the new count and promoting it. */
  ghost function Lodged(e: Env, s: State, d: Disk): State {
    var id := s.idCount;
    var s2 := Touched(Created(e, s, d.address, d.source), id, FromDisk(d, |s.random|, false));
    Promoted(e, Count(e, s2, id, -1, 0), id)
  }

  lemma LodgedIsEntry(e: Env, b: State, n: int, d: Disk)
    ensures Lodged(e, b.(nTried := n), d) ==
      WithEntry(e, b, b.idCount, d, true).(
        triedTable := b.triedTable[e.Home(b.key, d.address.service) := b.idCount],
        idCount := b.idCount + 1, nTried := n + 1)
  {
    var s := b.(nTried := n);
    assert Lodged(e, s, d).counts == WithEntry(e, b, b.idCount, d, true).counts;
    assert Lodged(e, s, d).info == WithEntry(e, b, b.idCount, d, true).info;
  }

  lemma AfterTriedStep(e: Env, s1: State, ds: seq<Disk>)
    requires ds != [] && LoadTried(e, s1, ds[..|ds| - 1]).1 == 0
    requires var d, s := ds[|ds| - 1], AfterTried(e, s1, ds[..|ds| - 1]);
      e.valid(d.address.service.ip) && e.Home(s.key, d.address.service) !in s.triedTable
    ensures AfterTried(e, s1, ds) == Lodged(e, AfterTried(e, s1, ds[..|ds| - 1]), ds[|ds| - 1])
    ensures LoadTried(e, s1, ds).1 == 0
  {
    hide LoadTried, Lodged, WithEntry;
    var n := |ds| - 1;
    LoadTriedUnfold(e, s1, ds);
    LodgedIsEntry(e, LoadTried(e, s1, ds[..n]).0, n, ds[n]);
  }

  lemma LoadTriedUnfold(e: Env, s1: State, ds: seq<Disk>)
    requires ds != []
    ensures var n := |ds| - 1;
      var before := LoadTried(e, s1, ds[..n]);
      var r := LoadOneTried(e, before.0, ds[n]);
      LoadTried(e, s1, ds) == (r.0, before.1 + if r.1 then 0 else 1)
  {
    hide LoadOneTried;
  }

  lemma LodgedKeeps(e: Env, s: State, p: set<Id>, d: Disk)
    requires Weak(e, s, p, {}) && d.address.service !in s.addr && s.idCount !in p
    requires e.Home(s.key, d.address.service) !in s.triedTable
    ensures Weak(e, Lodged(e, s, d), p, {})
  {
    hide IndexOk, RandomOk, NewTableOk, TriedTableOk, RefsOk, CountsOk;
    var id := s.idCount;
    var s2 := Touched(Created(e, s, d.address, d.source), id, FromDisk(d, |s.random|, false));
    CreatedTouchedKeeps(e, s, p, d.address, d.source, FromDisk(d, |s.random|, false));
    CountKeeps(e, s2, p + {id}, {}, id, false);
    PromotedKeeps(e, Count(e, s2, id, -1, 0), p + {id}, {} + {id}, id);
    assert p + {id} - {id} == p && {} + {id} - {id} == {};
  }

  /** Both sections are in: new entries first, tried entries after them. */
  ghost predicate BothIn(e: Env, s: State, newDs: seq<Disk>, ds: seq<Disk>, p: set<Id>) {
    && Settled(e, s, |newDs| + |ds|, p)
    && Holds(s, newDs, 0, false)
    && Holds(s, ds, |newDs|, true)
  }

  /** A record that differs from all present finds its service and its home free. */
  lemma RoomFor(e: Env, s: State, newDs: seq<Disk>, ds: seq<Disk>, p: set<Id>, d: Disk)
    requires BothIn(e, s, newDs, ds, p)
    requires forall k :: 0 <= k < |newDs| ==> newDs[k].address.service != d.address.service
    requires forall k :: 0 <= k < |ds| ==> ds[k].address.service != d.address.service
    requires forall k :: 0 <= k < |ds| ==> e.Home(s.key, ds[k].address.service) != e.Home(s.key, d.address.service)
    ensures d.address.service !in s.addr && e.Home(s.key, d.address.service) !in s.triedTable
  {
    hide RandomOk, NewTableOk, RefsOk, CountsOk;
    var n := |newDs|;
    forall id | id in s.info
      ensures s.info[id].Service() != d.address.service
      ensures s.info[id].inTried ==> s.HomeOf(e, id) != e.Home(s.key, d.address.service)
    {
      if id < n {
        assert s.info[0 + id] == FromDisk(newDs[id], id, false);
      } else {
        assert s.info[n + (id - n)] == FromDisk(ds[id - n], id, true);
      }
    }
    if d.address.service in s.addr { AddrMeans(s, d.address.service); assert false; }
    if e.Home(s.key, d.address.service) in s.triedTable { TriedMeans(e, s, e.Home(s.key, d.address.service)); assert false; }
  }

  lemma AddrMeans(s: State, a: Service)
    requires IndexOk(s) && a in s.addr
    ensures exists id :: id in s.info && s.info[id].Service() == a
  {
    var id := s.addr[a];
    assert id in s.info && s.info[id].Service() == a;
  }

  lemma TriedMeans(e: Env, s: State, home: Slot)
    requires TriedTableOk(e, s) && home in s.triedTable
    ensures exists id :: id in s.info && s.info[id].inTried && s.HomeOf(e, id) == home
  {
    var id := s.triedTable[home];
    assert id in s.info && s.info[id].inTried && s.HomeOf(e, id) == home;
  }

  lemma LodgedHolds(e: Env, s: State, newDs: seq<Disk>, ds: seq<Disk>, p: set<Id>)
    requires ds != [] && BothIn(e, s, newDs, ds[..|ds| - 1], p)
    requires Weak(e, Lodged(e, s, ds[|ds| - 1]), p, {})
    ensures BothIn(e, Lodged(e, s, ds[|ds| - 1]), newDs, ds, p)
  {
    hide IndexOk, RandomOk, NewTableOk, TriedTableOk, RefsOk, CountsOk;
    var n, d := |ds| - 1, ds[|ds| - 1];
    var s' := Lodged(e, s, d);
    var id := |newDs| + n;
    assert s'.info == s.info[id := FromDisk(d, id, true)];
    forall k | 0 <= k < |newDs| ensures 0 + k in s'.info && s'.info[0 + k] == FromDisk(newDs[k], 0 + k, false) {
      assert 0 + k in s.info;
    }
    forall k | 0 <= k < |ds| ensures |newDs| + k in s'.info && s'.info[|newDs| + k] == FromDisk(ds[k], |newDs| + k, true) {
      assert k < n ==> ds[..n][k] == ds[k] && |newDs| + k in s.info;
    }
  }

  lemma {:induction false} AfterTriedOk(e: Env, s1: State, newDs: seq<Disk>, ds: seq<Disk>, p: set<Id>)
    requires BothIn(e, s1.(nTried := 0), newDs, [], p) && (forall id :: id in p ==> id < |newDs|)
    requires DistinctServices(newDs + ds) && Lodgeable(e, s1.key, ds)
    ensures BothIn(e, AfterTried(e, s1, ds), newDs, ds, p)
    ensures LoadTried(e, s1, ds).1 == 0
    ensures var s := AfterTried(e, s1, ds); s.key == s1.key && s.lastGood == s1.lastGood && s.nNew == s1.nNew
  {
    hide Weak, Lodged, LoadTried;
    if ds == [] {
      LoadTriedNone(e, s1);
    } else {
      var n, d := |ds| - 1, ds[|ds| - 1];
      var all, fewer := newDs + ds, newDs + ds[..n];
      assert forall k :: 0 <= k < |fewer| ==> fewer[k] == all[k];
      AfterTriedOk(e, s1, newDs, ds[..n], p);
      var s := AfterTried(e, s1, ds[..n]);
      assert forall k :: 0 <= k < |newDs| ==> newDs[k] == all[k];
      assert forall k :: 0 <= k < n ==> ds[..n][k] == ds[k] && ds[k] == all[|newDs| + k];
      assert d == all[|newDs| + n];
      RoomFor(e, s, newDs, ds[..n], p, d);
      AfterTriedStep(e, s1, ds);
      LodgedKeeps(e, s, p, d);
      LodgedHolds(e, s, newDs, ds, p);
      LodgedRest(e, s, d);
    }
  }

  lemma LodgedRest(e: Env, s: State, d: Disk)
    ensures var s' := Lodged(e, s, d); s'.key == s.key && s'.lastGood == s.lastGood && s'.nNew == s.nNew
  {
  }

  lemma LoadTriedNone(e: Env, s1: State)
    ensures LoadTried(e, s1, []) == (s1, 0)
  {
  }

  // ---------- The bucket lists ----------

  /** The entries read back name the occupied slots one by one, in order. */
  ghost predicate Names(t: Table, news: seq<Id>, xs: seq<Entry>, slots: seq<Slot>) {
    && |xs| == |slots|
    && (forall i :: 0 <= i < |slots| ==>
          slots[i] in t && t[slots[i]] in news && xs[i] == Entry(slots[i].bucket, IndexOf(news, t[slots[i]])))
  }

  lemma {:induction false} RowNames(t: Table, news: seq<Id>, b: nat, p: nat)
    requires forall slot :: slot in t ==> t[slot] in news
    ensures Names(t, news, RowEntries(RowIndexes(t, news, b, p), b, |news|), RowSlots(t, b, p))
  {
    if p != 0 {
      RowNames(t, news, b, p - 1);
      if Slot(b, p - 1) in t {
        var row := RowIndexes(t, news, b, p);
        assert row[..|row| - 1] == RowIndexes(t, news, b, p - 1);
      } else {
        assert RowIndexes(t, news, b, p) == RowIndexes(t, news, b, p - 1);
        assert RowSlots(t, b, p) == RowSlots(t, b, p - 1);
      }
    }
  }

  lemma {:induction false} TableNames(t: Table, news: seq<Id>, b: nat)
    requires forall slot :: slot in t ==> t[slot] in news
    ensures Names(t, news, Entries(BucketLists(t, news, b), |news|), TableSlots(t, b)) && |BucketLists(t, news, b)| == b
  {
    hide RowSlots, RowIndexes, RowEntries;
    if b != 0 {
      TableNames(t, news, b - 1);
      RowNames(t, news, b - 1, BUCKET_SIZE);
      var lists := BucketLists(t, news, b);
      assert lists[..b - 1] == BucketLists(t, news, b - 1);
    }
  }

  lemma {:induction false} RowSlotsExact(t: Table, b: nat, p: nat)
    ensures forall slot :: slot in RowSlots(t, b, p) <==> slot in t && slot.bucket == b && slot.pos < p
    ensures forall i, j :: 0 <= i < j < |RowSlots(t, b, p)| ==> RowSlots(t, b, p)[i] != RowSlots(t, b, p)[j]
    ensures |RowSlots(t, b, p)| <= p
  {
    if p != 0 {
      RowSlotsExact(t, b, p - 1);
      assert forall slot: Slot :: slot.bucket == b && slot.pos == p - 1 <==> slot == Slot(b, p - 1);
    }
  }

  lemma {:induction false} TableSlotsExact(t: Table, b: nat)
    requires forall slot :: slot in t ==> slot.pos < BUCKET_SIZE
    ensures forall slot :: slot in TableSlots(t, b) <==> slot in t && slot.bucket < b
    ensures forall i, j :: 0 <= i < j < |TableSlots(t, b)| ==> TableSlots(t, b)[i] != TableSlots(t, b)[j]
    ensures |TableSlots(t, b)| <= b * BUCKET_SIZE
  {
    hide RowSlots;
    if b != 0 {
      TableSlotsExact(t, b - 1);
      RowSlotsExact(t, b - 1, BUCKET_SIZE);
      var front, row := TableSlots(t, b - 1), RowSlots(t, b - 1, BUCKET_SIZE);
      forall i, j | 0 <= i < |front| && 0 <= j < |row| ensures front[i] != row[j] {
        assert front[i] in front && row[j] in row;
      }
    }
  }

  /** No more ids in a table than slots. */
  lemma {:induction false} OccupantsBound(t: Table, slots: seq<Slot>, c: set<Id>)
    requires forall i :: 0 <= i < |slots| ==> slots[i] in t
    requires forall id :: id in c ==> exists i :: 0 <= i < |slots| && t[slots[i]] == id
    ensures |c| <= |slots|
  {
    if slots == [] {
      forall id | id in c ensures false {}
    } else {
      var n := |slots| - 1;
      var c' := c - {t[slots[n]]};
      forall id | id in c' ensures exists i :: 0 <= i < n && t[slots[..n][i]] == id {
        var i :| 0 <= i < |slots| && t[slots[i]] == id;
        assert slots[..n][i] == slots[i];
      }
      OccupantsBound(t, slots[..n], c');
    }
  }

  // ---------- Filling the new table ----------

  /** The first `i` slots are filled with the new ids of their occupants, and nothing else
    * has changed since both sections were entered.
    */
  ghost predicate FilledUpTo(e: Env, s: State, news: seq<Id>, t: State, q: State, slots: seq<Slot>, i: nat, p: set<Id>)
    requires i <= |slots|
  {
    && Weak(e, q, p, {})
    && q == t.(info := q.info, newTable := q.newTable)
    && q.info.Keys == t.info.Keys
    && (forall id :: id in t.info ==> q.info[id] == t.info[id].(refCount := q.info[id].refCount))
    && (forall slot :: slot in q.newTable <==> slot in slots[..i])
    && (forall j :: 0 <= j < i ==> slots[j] in q.newTable && slots[j] in s.newTable && s.newTable[slots[j]] in news
                                   && q.newTable[slots[j]] == IndexOf(news, s.newTable[slots[j]]))
  }

  /** What the entries of `t` owe to the ids of `s` in the new section. */
  ghost predicate Mirrors(s: State, news: seq<Id>, t: State) {
    && t.key == s.key
    && Distinct(news)
    && (forall k :: 0 <= k < |news| ==>
          news[k] in s.info && k in t.info && !t.info[k].inTried
          && t.info[k].Service() == s.info[news[k]].Service())
  }

  /** The slots an id has got so far are some of its old ones, the next one not among them. */
  lemma RefsBelow(e: Env, s: State, news: seq<Id>, t: State, q: State, slots: seq<Slot>, i: nat, p: set<Id>, idx: nat)
    requires i < |slots| && FilledUpTo(e, s, news, t, q, slots, i, p)
    requires slots[i] in s.newTable && s.newTable[slots[i]] in news && idx == IndexOf(news, s.newTable[slots[i]])
    requires forall a, b :: 0 <= a < b < |slots| ==> slots[a] != slots[b]
    ensures slots[i] !in q.newTable
    ensures |SlotsOf(q.newTable, idx)| < |SlotsOf(s.newTable, s.newTable[slots[i]])|
  {
    hide Weak;
    var id, slot := s.newTable[slots[i]], slots[i];
    assert slot !in slots[..i];
    forall x | x in SlotsOf(q.newTable, idx) ensures x in SlotsOf(s.newTable, id) && x != slot {
      assert x in slots[..i];
      var j :| 0 <= j < i && slots[j] == x;
      assert news[IndexOf(news, s.newTable[slots[j]])] == s.newTable[slots[j]];
    }
    assert slot in SlotsOf(s.newTable, id);
    SubsetSize(SlotsOf(q.newTable, idx) + {slot}, SlotsOf(s.newTable, id));
  }

  lemma PlaceIsPlaced(e: Env, s: State, news: seq<Id>, t: State, q: State, slots: seq<Slot>, i: nat, p: set<Id>, x: Entry)
    requires i < |slots| && FilledUpTo(e, s, news, t, q, slots, i, p) && Mirrors(s, news, t)
    requires slots[i] in s.newTable && s.newTable[slots[i]] in news
    requires x == Entry(slots[i].bucket, IndexOf(news, s.newTable[slots[i]]))
    requires forall a, b :: 0 <= a < b < |slots| ==> slots[a] != slots[b]
    requires NewTableOk(e, s) && RefsOk(s, {}) && (forall id :: id in s.info ==> e.valid(s.info[id].Service().ip))
    ensures x.index in q.info && !q.info[x.index].inTried && q.info[x.index].refCount < NEW_BUCKETS_PER_ADDRESS
    ensures slots[i] !in q.newTable && InNewRange(slots[i])
    ensures slots[i].pos == e.position(q.key, true, slots[i].bucket, q.info[x.index].Service())
    ensures PlaceOne(e, q, x, true) == Placed(q, slots[i], x.index)
  {
    hide IndexOk, RandomOk, TriedTableOk, CountsOk;
    RefsBelow(e, s, news, t, q, slots, i, p, x.index);
    assert x.index in t.info;
    assert s.newTable[slots[i]] == news[x.index];
  }

  lemma PlacedFills(e: Env, s: State, news: seq<Id>, t: State, q: State, slots: seq<Slot>, i: nat, p: set<Id>, idx: nat)
    requires i < |slots| && FilledUpTo(e, s, news, t, q, slots, i, p) && idx in q.info
    requires slots[i] in s.newTable && s.newTable[slots[i]] in news && idx == IndexOf(news, s.newTable[slots[i]])
    requires forall a, b :: 0 <= a < b < |slots| ==> slots[a] != slots[b]
    requires Weak(e, Placed(q, slots[i], idx), p, {})
    ensures FilledUpTo(e, s, news, t, Placed(q, slots[i], idx), slots, i + 1, p)
  {
    hide Weak, IndexOf;
    var q' := Placed(q, slots[i], idx);
    assert slots[..i + 1] == slots[..i] + [slots[i]];
    assert q'.info.Keys == q.info.Keys;
    assert forall id :: id in t.info ==> id in q.info.Keys;
  }

  lemma {:induction false} FillAll(e: Env, s: State, news: seq<Id>, t: State, slots: seq<Slot>, xs: seq<Entry>, i: nat, p: set<Id>)
    requires i <= |slots| && Names(s.newTable, news, xs, slots) && Mirrors(s, news, t) && Known(t, xs)
    requires forall a, b :: 0 <= a < b < |slots| ==> slots[a] != slots[b]
    requires NewTableOk(e, s) && RefsOk(s, {}) && (forall id :: id in s.info ==> e.valid(s.info[id].Service().ip))
    requires Weak(e, t, p, {}) && t.newTable == map[]
    ensures FilledUpTo(e, s, news, t, PlaceAll(e, t, xs[..i], true), slots, i, p)
    decreases i
  {
    hide NewTableOk, RefsOk, Weak, IndexOf, PlaceOne, Mirrors, FilledUpTo;
    if i == 0 {
      assert xs[..0] == [];
      FilledNothing(e, s, news, t, slots, p);
    } else {
      FillAll(e, s, news, t, slots, xs, i - 1, p);
      var q := PlaceAll(e, t, xs[..i - 1], true);
      assert xs[..i][..i - 1] == xs[..i - 1] && xs[..i][i - 1] == xs[i - 1];
      FillOne(e, s, news, t, q, slots, xs[i - 1], i - 1, p);
    }
  }

  lemma FilledNothing(e: Env, s: State, news: seq<Id>, t: State, slots: seq<Slot>, p: set<Id>)
    requires Weak(e, t, p, {}) && t.newTable == map[]
    ensures FilledUpTo(e, s, news, t, t, slots, 0, p)
  {
    hide Weak;
  }

  lemma FillOne(e: Env, s: State, news: seq<Id>, t: State, q: State, slots: seq<Slot>, x: Entry, i: nat, p: set<Id>)
    requires i < |slots| && FilledUpTo(e, s, news, t, q, slots, i, p) && Mirrors(s, news, t)
    requires slots[i] in s.newTable && s.newTable[slots[i]] in news
    requires x == Entry(slots[i].bucket, IndexOf(news, s.newTable[slots[i]]))
    requires forall a, b :: 0 <= a < b < |slots| ==> slots[a] != slots[b]
    requires NewTableOk(e, s) && RefsOk(s, {}) && (forall id :: id in s.info ==> e.valid(s.info[id].Service().ip))
    ensures FilledUpTo(e, s, news, t, PlaceOne(e, q, x, true), slots, i + 1, p)
  {
    hide NewTableOk, RefsOk, Weak, IndexOf, PlaceOne, Mirrors;
    PlaceIsPlaced(e, s, news, t, q, slots, i, p, x);
    PlacedKeeps(e, q, p, {}, slots[i], x.index);
    WeakerPending(e, Placed(q, slots[i], x.index), p - {x.index}, p, {});
    PlacedFills(e, s, news, t, q, slots, i, p, x.index);
  }

  // ---------- The file is readable ----------

  ghost predicate AllValid(e: Env, s: State) {
    forall id :: id in s.info ==> e.valid(s.info[id].Service().ip)
  }

  lemma NewFits(e: Env, s: State)
    requires Inv(e, s)
    ensures s.nNew <= NEW_BUCKET_COUNT * BUCKET_SIZE
  {
    hide IndexOk, RandomOk, TriedTableOk, TimesOk, CollisionsOk, TableSlots;
    var c, t := Members(s, {}, InNew), s.newTable;
    var slots := TableSlots(t, NEW_BUCKET_COUNT);
    TableSlotsExact(t, NEW_BUCKET_COUNT);
    forall id | id in c ensures exists i :: 0 <= i < |slots| && t[slots[i]] == id {
      assert |SlotsOf(t, id)| > 0;
      var slot :| slot in SlotsOf(t, id);
      assert slot in slots;
    }
    forall i | 0 <= i < |slots| ensures slots[i] in t { assert slots[i] in slots; }
    OccupantsBound(t, slots, c);
  }

  lemma TriedFits(e: Env, s: State)
    requires Inv(e, s)
    ensures s.nTried <= TRIED_BUCKET_COUNT * BUCKET_SIZE
  {
    hide IndexOk, RandomOk, NewTableOk, RefsOk, TimesOk, CollisionsOk, TableSlots;
    var c, t := Members(s, {}, InTried), s.triedTable;
    var slots := TableSlots(t, TRIED_BUCKET_COUNT);
    TableSlotsExact(t, TRIED_BUCKET_COUNT);
    forall id | id in c ensures exists i :: 0 <= i < |slots| && t[slots[i]] == id {
      assert s.HomeOf(e, id) in slots;
    }
    forall i | 0 <= i < |slots| ensures slots[i] in t { assert slots[i] in slots; }
    OccupantsBound(t, slots, c);
  }

  /** In every run there are at most 65536 new and 16384 tried entries. */
  lemma RunCapacity(e: Env, key: Key, ops: seq<Op>, states: seq<State>, i: nat)
    requires IsRun(e, key, ops, states) && i < |states|
    ensures 0 <= states[i].nNew <= 65536 && 0 <= states[i].nTried <= 16384
  {
    hide IsRun, IndexOk, RandomOk, NewTableOk, TriedTableOk, RefsOk;
    RunInv(e, key, ops, states, i);
    NewFits(e, states[i]);
    TriedFits(e, states[i]);
  }

  lemma WrittenReadable(e: Env, s: State, order: seq<Id>)
    requires Inv(e, s) && Enumerates(order, s.info.Keys) && Writable(s, order)
    ensures var f := Written(e, s, order);
      && Readable(f) && Rows(f) == NEW_BUCKET_COUNT && Restores(e, f)
      && f.newEntries[..f.nNew] == Disks(s, News(s, order))
      && f.triedEntries[..f.nTried] == Disks(s, Trieds(s, order))
      && f.buckets[..Rows(f)] == BucketLists(s.newTable, News(s, order), NEW_BUCKET_COUNT)
  {
    hide Inv, News, Trieds, BucketLists, IndexOf;
    NewFits(e, s);
    TriedFits(e, s);
    SectionsCount(e, s, order);
    TableNames(s.newTable, News(s, order), NEW_BUCKET_COUNT);
  }

  /** The header of a written file, and that its sections are as long as it says. */
  lemma WrittenForm(e: Env, s: State, order: seq<Id>)
    requires Inv(e, s) && Enumerates(order, s.info.Keys) && Writable(s, order)
    ensures var f := Written(e, s, order);
      && f.format == 4 && f.compat == 36 && f.bucketWord == 1073742848 && f.asmap == e.asmapVersion && f.key == s.key
      && f.nNew == s.nNew == |f.newEntries| && f.nTried == s.nTried == |f.triedEntries| && |f.buckets| == 1024
  {
    hide Inv, News, Trieds, BucketLists, IndexOf;
    SectionsCount(e, s, order);
    TableNames(s.newTable, News(s, order), NEW_BUCKET_COUNT);
  }

  // ---------- The sections fit ----------

  lemma SectionsFit(e: Env, s: State, order: seq<Id>)
    requires Inv(e, s) && Enumerates(order, s.info.Keys) && AllValid(e, s)
    ensures DistinctServices(Disks(s, News(s, order)) + Disks(s, Trieds(s, order)))
    ensures Lodgeable(e, s.key, Disks(s, Trieds(s, order)))
  {
    hide Inv, AllValid, DistinctServices, Lodgeable, Disks, News, Trieds;
    SectionsDistinct(e, s, order);
    TriedsLodge(e, s, order);
  }

  lemma SectionsDistinct(e: Env, s: State, order: seq<Id>)
    requires Inv(e, s) && Enumerates(order, s.info.Keys)
    ensures DistinctServices(Disks(s, News(s, order)) + Disks(s, Trieds(s, order)))
  {
    hide RandomOk, NewTableOk, TriedTableOk, CountsOk, TimesOk, CollisionsOk, News, Trieds;
    var news, trieds := News(s, order), Trieds(s, order);
    SectionsExact(s, order);
    forall k | 0 <= k < |news| ensures s.info[news[k]].refCount != 0 { assert news[k] in news; }
    forall k | 0 <= k < |trieds| ensures s.info[trieds[k]].inTried { assert trieds[k] in trieds; }
    var ids := news + trieds;
    forall i, j | 0 <= i < j < |ids| ensures ids[i] in s.info && ids[j] in s.info && s.info[ids[i]].Service() != s.info[ids[j]].Service() {
      assert ids[i] != ids[j];
    }
  }

  lemma TriedsLodge(e: Env, s: State, order: seq<Id>)
    requires Inv(e, s) && Enumerates(order, s.info.Keys) && AllValid(e, s)
    ensures Lodgeable(e, s.key, Disks(s, Trieds(s, order)))
  {
    hide RandomOk, NewTableOk, CountsOk, TimesOk, CollisionsOk, News, Trieds;
    var trieds := Trieds(s, order);
    SectionsExact(s, order);
    forall k | 0 <= k < |trieds| ensures s.info[trieds[k]].inTried { assert trieds[k] in trieds; }
    forall i, j | 0 <= i < j < |trieds| ensures s.HomeOf(e, trieds[i]) != s.HomeOf(e, trieds[j]) {
      assert trieds[i] != trieds[j];
    }
  }

  lemma {:induction false} LoadTriedTotals(e: Env, s1: State, ds: seq<Disk>)
    ensures LoadTried(e, s1, ds).0.nTried == s1.nTried && LoadTried(e, s1, ds).0.nNew == s1.nNew
  {
    if ds != [] {
      LoadTriedTotals(e, s1, ds[..|ds| - 1]);
    }
  }

  /** Both sections of a written file enter completely. */
  lemma EnteredBoth(e: Env, s: State, order: seq<Id>)
    requires Inv(e, s) && Enumerates(order, s.info.Keys) && Writable(s, order) && AllValid(e, s)
    requires Readable(Written(e, s, order))
    ensures var t, news, trieds := Entered(e, Written(e, s, order)), News(s, order), Trieds(s, order);
      && BothIn(e, t, Disks(s, news), Disks(s, trieds), FirstIds(|news|))
      && t.key == s.key && t.nNew == s.nNew && t.nTried == s.nTried && t.lastGood == 1
  {
    hide Inv, Weak, News, Trieds, BucketLists, LoadNew, LoadTried, Disks;
    var f := Written(e, s, order);
    var newDs, triedDs := Disks(s, News(s, order)), Disks(s, Trieds(s, order));
    WrittenReadable(e, s, order);
    SectionsFit(e, s, order);
    SectionsCount(e, s, order);
    DisksLength(s, order);
    assert forall k :: 0 <= k < |newDs| ==> (newDs + triedDs)[k] == newDs[k];
    AfterNewOk(e, StartState(f), newDs);
    var s1 := LoadNew(e, StartState(f), newDs).(idCount := f.nNew);
    LoadNewTotals(e, StartState(f), newDs);
    assert s1.(nTried := 0) == AfterNew(e, StartState(f), newDs);
    var p := FirstIds(|newDs|);
    CountedKeys(AfterNew(e, StartState(f), newDs), |newDs|);
    AfterTriedOk(e, s1, newDs, triedDs, p);
    LoadTriedTotals(e, s1, triedDs);
  }

  ghost function FirstIds(n: nat): (r: set<Id>)
    ensures forall k :: k in r <==> 0 <= k < n
  {
    if n == 0 then {} else FirstIds(n - 1) + {n - 1}
  }

  lemma DisksLength(s: State, order: seq<Id>)
    requires forall k :: 0 <= k < |order| ==> order[k] in s.info
    ensures |Disks(s, News(s, order))| == |News(s, order)| && |Disks(s, Trieds(s, order))| == |Trieds(s, order)|
  {
  }

  lemma CountedKeys(s: State, n: nat)
    requires Counted(s, n)
    ensures s.info.Keys == FirstIds(n)
  {
    var t := FirstIds(n);
    assert forall id :: id in s.info.Keys ==> id in t;
    assert forall id :: id in t ==> id in s.info.Keys;
    assert t <= s.info.Keys;
    assert s.info.Keys <= t;
  }

  lemma {:induction false} LoadNewTotals(e: Env, s0: State, ds: seq<Disk>)
    ensures LoadNew(e, s0, ds).nNew == s0.nNew && LoadNew(e, s0, ds).nTried == s0.nTried
  {
    if ds != [] {
      LoadNewTotals(e, s0, ds[..|ds| - 1]);
    }
  }

  lemma EnteredMirrors(e: Env, s: State, order: seq<Id>, t: State, p: set<Id>)
    requires Inv(e, s) && Enumerates(order, s.info.Keys) && t.key == s.key
    requires BothIn(e, t, Disks(s, News(s, order)), Disks(s, Trieds(s, order)), p)
    ensures Mirrors(s, News(s, order), t)
  {
    hide Inv, Weak, News, Trieds;
    var news := News(s, order);
    SectionsExact(s, order);
    forall k | 0 <= k < |news|
      ensures news[k] in s.info && k in t.info && !t.info[k].inTried && t.info[k].Service() == s.info[news[k]].Service()
    {
      assert t.info[0 + k] == FromDisk(Disks(s, news)[k], 0 + k, false);
    }
  }

  /** The bucket lists of a written file put every new slot back. */
  lemma BucketedFilled(e: Env, s: State, order: seq<Id>)
    requires Inv(e, s) && Enumerates(order, s.info.Keys) && Writable(s, order) && AllValid(e, s)
    requires Readable(Written(e, s, order))
    ensures var f, news, slots := Written(e, s, order), News(s, order), TableSlots(s.newTable, NEW_BUCKET_COUNT);
      FilledUpTo(e, s, news, Entered(e, f), Bucketed(e, f), slots, |slots|, FirstIds(|news|))
  {
    hide IndexOk, RandomOk, NewTableOk, TriedTableOk, RefsOk, CountsOk, TimesOk, CollisionsOk,
         News, Trieds, BucketLists, LoadNew, LoadTried, Disks, TableSlots, Entries, Entered, Known, PlaceAll, FilledUpTo, Mirrors, AllValid, IndexOf, Holds;
    var f, news, slots := Written(e, s, order), News(s, order), TableSlots(s.newTable, NEW_BUCKET_COUNT);
    var p := FirstIds(|news|);
    WrittenReadable(e, s, order);
    EnteredBoth(e, s, order);
    EnteredMirrors(e, s, order, Entered(e, f), p);
    TableNames(s.newTable, news, NEW_BUCKET_COUNT);
    NewTableRange(e, s);
    TableSlotsExact(s.newTable, NEW_BUCKET_COUNT);
    EntriesKnown(e, f);
    SectionsCount(e, s, order);
    var xs := Entries(f.buckets[..Rows(f)], f.nNew);
    assert xs[..|slots|] == xs;
    AllValidMeans(e, s);
    FillAll(e, s, news, Entered(e, f), slots, xs, |slots|, p);
  }

  lemma NewTableRange(e: Env, s: State)
    requires NewTableOk(e, s)
    ensures forall slot :: slot in s.newTable ==> slot.pos < BUCKET_SIZE
  {
  }

  lemma AllValidMeans(e: Env, s: State)
    requires AllValid(e, s)
    ensures forall id :: id in s.info ==> e.valid(s.info[id].Service().ip)
  {
  }

  // ---------- Nothing is lost ----------

  /** Where an id goes: its place in the file. */
  ghost function NewIdOf(s: State, order: seq<Id>, id: Id): Id
    requires Enumerates(order, s.info.Keys) && id in s.info
    requires id in News(s, order) || id in Trieds(s, order)
  {
    if id in News(s, order) then IndexOf(News(s, order), id)
    else |News(s, order)| + IndexOf(Trieds(s, order), id)
  }

  lemma EverySection(e: Env, s: State, order: seq<Id>, id: Id)
    requires Inv(e, s) && Enumerates(order, s.info.Keys) && id in s.info
    ensures if s.info[id].inTried then id in Trieds(s, order) && id !in News(s, order) else id in News(s, order)
  {
    hide IndexOk, RandomOk, NewTableOk, TriedTableOk, CountsOk, TimesOk, CollisionsOk, News, Trieds;
    SectionsExact(s, order);
    assert id in s.info.Keys && id in order;
  }

  /** The slots of a restored id are those of the id it stands for. */
  lemma FilledSlots(e: Env, s: State, news: seq<Id>, t: State, q: State, slots: seq<Slot>, p: set<Id>, k: nat)
    requires FilledUpTo(e, s, news, t, q, slots, |slots|, p) && k < |news| && Distinct(news)
    requires forall slot :: slot in slots <==> slot in s.newTable
    ensures SlotsOf(q.newTable, k) == SlotsOf(s.newTable, news[k])
  {
    hide Weak;
    assert slots[..|slots|] == slots;
    IndexOfDistinct(news, k);
    forall slot | slot in SlotsOf(q.newTable, k) ensures slot in SlotsOf(s.newTable, news[k]) {
      var j :| 0 <= j < |slots| && slots[j] == slot;
    }
    forall slot | slot in SlotsOf(s.newTable, news[k]) ensures slot in SlotsOf(q.newTable, k) {
      var j :| 0 <= j < |slots| && slots[j] == slot;
    }
  }

  /** The record of an id after the round trip. */
  ghost function Reborn(i: Info, newId: Id): Info {
    i.(lastTry := 0, lastCountAttempt := 0, randomPos := newId)
  }

  /** The same addresses in the same slots, up to the renaming of ids. */
  ghost predicate SameUpToIds(s: State, order: seq<Id>, t: State)
    requires Enumerates(order, s.info.Keys)
    requires forall id :: id in s.info ==> id in News(s, order) || id in Trieds(s, order)
  {
    && t.key == s.key && t.nNew == s.nNew && t.nTried == s.nTried
    && |t.info| == |s.info|
    && (forall id :: id in s.info ==>
          NewIdOf(s, order, id) in t.info && t.info[NewIdOf(s, order, id)] == Reborn(s.info[id], NewIdOf(s, order, id)))
    && t.newTable.Keys == s.newTable.Keys
    && (forall slot :: slot in s.newTable ==> s.newTable[slot] in s.info && t.newTable[slot] == NewIdOf(s, order, s.newTable[slot]))
    && t.triedTable.Keys == s.triedTable.Keys
    && (forall slot :: slot in s.triedTable ==> s.triedTable[slot] in s.info && t.triedTable[slot] == NewIdOf(s, order, s.triedTable[slot]))
  }

  /** What the bucketed state `q` is, seen from the state `s` that was written. */
  ghost predicate Rebuilt(e: Env, s: State, order: seq<Id>, t: State, q: State)
    requires Enumerates(order, s.info.Keys)
  {
    var news, trieds, slots := News(s, order), Trieds(s, order), TableSlots(s.newTable, NEW_BUCKET_COUNT);
    && BothIn(e, t, Disks(s, news), Disks(s, trieds), FirstIds(|news|))
    && FilledUpTo(e, s, news, t, q, slots, |slots|, FirstIds(|news|))
    && t.key == s.key && t.nNew == s.nNew && t.nTried == s.nTried && t.lastGood == 1
  }

  lemma RebuiltNew(e: Env, s: State, order: seq<Id>, t: State, q: State, k: nat)
    requires Inv(e, s) && Enumerates(order, s.info.Keys) && Rebuilt(e, s, order, t, q) && k < |News(s, order)|
    ensures var id := News(s, order)[k];
      k in q.info && q.info[k] == Reborn(s.info[id], k) && !q.info[k].inTried && q.info[k].refCount > 0
  {
    hide IndexOk, RandomOk, TriedTableOk, CountsOk, TimesOk, CollisionsOk, News, Trieds, TableSlots;
    var news, slots := News(s, order), TableSlots(s.newTable, NEW_BUCKET_COUNT);
    SectionsExact(s, order);
    TableSlotsExact(s.newTable, NEW_BUCKET_COUNT);
    NewsKind(e, s, order, k);
    FilledSlots(e, s, news, t, q, slots, FirstIds(|news|), k);
    assert t.info[0 + k] == FromDisk(Disks(s, news)[k], 0 + k, false);
  }

  lemma NewsKind(e: Env, s: State, order: seq<Id>, k: nat)
    requires Inv(e, s) && Enumerates(order, s.info.Keys) && k < |News(s, order)|
    ensures var id := News(s, order)[k]; id in s.info && !s.info[id].inTried && s.info[id].refCount > 0
  {
    hide IndexOk, RandomOk, NewTableOk, TriedTableOk, CountsOk, TimesOk, CollisionsOk;
    NewsListed(s, order);
  }

  lemma RebuiltTried(e: Env, s: State, order: seq<Id>, t: State, q: State, k: nat)
    requires Inv(e, s) && Enumerates(order, s.info.Keys) && Rebuilt(e, s, order, t, q) && k < |Trieds(s, order)|
    ensures var id, k' := Trieds(s, order)[k], |News(s, order)| + k;
      k' in q.info && q.info[k'] == Reborn(s.info[id], k') && q.info[k'].inTried
  {
    hide IndexOk, RandomOk, NewTableOk, TriedTableOk, CountsOk, TimesOk, CollisionsOk, TableSlots;
    NewsListed(s, order);
    var news, trieds := News(s, order), Trieds(s, order);
    assert t.info[|news| + k] == FromDisk(Disks(s, trieds)[k], |news| + k, true);
  }

  /** Every restored id is in exactly one table. */
  lemma RebuiltCovered(e: Env, s: State, order: seq<Id>, t: State, q: State, id: Id)
    requires Inv(e, s) && Enumerates(order, s.info.Keys) && Rebuilt(e, s, order, t, q) && id in q.info
    ensures q.info[id].inTried || q.info[id].refCount > 0
    ensures q.info[id].lastTry == 0 && q.info[id].lastSuccess >= 0 && (q.info[id].inTried ==> q.info[id].lastSuccess > 0)
  {
    hide IndexOk, RandomOk, NewTableOk, TriedTableOk, CountsOk, CollisionsOk, TableSlots, News, Trieds;
    var n := |News(s, order)|;
    RebuiltSize(e, s, order, t, q, id);
    if id < n {
      RebuiltNew(e, s, order, t, q, id);
    } else {
      RebuiltTried(e, s, order, t, q, id - n);
    }
  }

  lemma RebuiltSize(e: Env, s: State, order: seq<Id>, t: State, q: State, id: Id)
    requires Inv(e, s) && Enumerates(order, s.info.Keys) && Rebuilt(e, s, order, t, q) && id in q.info
    ensures 0 <= id < |News(s, order)| + |Trieds(s, order)|
    ensures |q.info| == |s.info|
  {
    hide IndexOk, NewTableOk, TriedTableOk, RefsOk, TimesOk, CollisionsOk, TableSlots, News, Trieds;
    assert id in t.info.Keys;
    SectionsCount(e, s, order);
    MembersSplit(s);
    RandomSize(t);
  }

  /** With every id in a table there is nothing to prune. */
  lemma {:induction false} PrunedNothing(e: Env, s: State, order: seq<Id>)
    requires RandomOk(s) && Pending(s, order)
    requires forall id :: id in s.info ==> s.info[id].inTried || s.info[id].refCount > 0
    ensures Pruned(e, s, order) == s
    decreases |order|
  {
    if order != [] {
      PruneOneReady(e, s, order);
      PrunedNothing(e, s, order[1..]);
    }
  }

  lemma RebuiltInv(e: Env, s: State, order: seq<Id>, t: State, q: State)
    requires Inv(e, s) && Enumerates(order, s.info.Keys) && Rebuilt(e, s, order, t, q)
    ensures Inv(e, q)
    ensures forall id :: id in q.info ==> q.info[id].inTried || q.info[id].refCount > 0
  {
    hide IndexOk, RandomOk, NewTableOk, TriedTableOk, CountsOk, TableSlots, News, Trieds;
    forall id | id in q.info
      ensures q.info[id].inTried || q.info[id].refCount > 0
      ensures q.info[id].lastTry == 0 && q.info[id].lastSuccess >= 0 && (q.info[id].inTried ==> q.info[id].lastSuccess > 0)
    {
      RebuiltCovered(e, s, order, t, q, id);
    }
  }

  lemma RebuiltNewTable(e: Env, s: State, order: seq<Id>, t: State, q: State)
    requires Inv(e, s) && Enumerates(order, s.info.Keys) && Rebuilt(e, s, order, t, q)
    ensures q.newTable.Keys == s.newTable.Keys
    ensures forall slot :: slot in s.newTable ==>
      s.newTable[slot] in s.info && s.newTable[slot] in News(s, order) && q.newTable[slot] == NewIdOf(s, order, s.newTable[slot])
  {
    hide IndexOk, RandomOk, TriedTableOk, RefsOk, CountsOk, TimesOk, CollisionsOk, TableSlots, News, Trieds, IndexOf;
    var slots := TableSlots(s.newTable, NEW_BUCKET_COUNT);
    TableSlotsExact(s.newTable, NEW_BUCKET_COUNT);
    assert slots[..|slots|] == slots;
    forall slot | slot in s.newTable
      ensures slot in q.newTable && s.newTable[slot] in s.info && s.newTable[slot] in News(s, order)
      ensures q.newTable[slot] == NewIdOf(s, order, s.newTable[slot])
    {
      assert slot in slots;
      var j :| 0 <= j < |slots| && slots[j] == slot;
    }
  }

  lemma TriedForward(e: Env, s: State, order: seq<Id>, t: State, q: State, slot: Slot)
    requires Inv(e, s) && Enumerates(order, s.info.Keys) && Rebuilt(e, s, order, t, q) && TriedTableOk(e, q)
    requires slot in s.triedTable && q.key == s.key
    ensures slot in q.triedTable
    ensures var id := s.triedTable[slot];
      id in s.info && id in Trieds(s, order) && id !in News(s, order) && q.triedTable[slot] == NewIdOf(s, order, id)
  {
    hide IndexOk, RandomOk, NewTableOk, RefsOk, CountsOk, TimesOk, CollisionsOk, News, Trieds, Rebuilt;
    var id := s.triedTable[slot];
    EverySection(e, s, order, id);
    RebuiltTried(e, s, order, t, q, IndexOf(Trieds(s, order), id));
    assert q.HomeOf(e, NewIdOf(s, order, id)) == slot;
  }

  lemma TriedBackward(e: Env, s: State, order: seq<Id>, t: State, q: State, slot: Slot)
    requires Inv(e, s) && Enumerates(order, s.info.Keys) && Rebuilt(e, s, order, t, q) && TriedTableOk(e, q)
    requires slot in q.triedTable && q.key == s.key
    ensures slot in s.triedTable
  {
    hide IndexOk, RandomOk, NewTableOk, RefsOk, CountsOk, TimesOk, CollisionsOk, News, Trieds, Rebuilt;
    var id, n := q.triedTable[slot], |News(s, order)|;
    RebuiltSize(e, s, order, t, q, id);
    if id < n {
      RebuiltNew(e, s, order, t, q, id);
    } else {
      RebuiltTried(e, s, order, t, q, id - n);
      TriedsKind(s, order, id - n);
      assert s.HomeOf(e, Trieds(s, order)[id - n]) == slot;
    }
  }

  lemma TriedsKind(s: State, order: seq<Id>, k: nat)
    requires Enumerates(order, s.info.Keys) && k < |Trieds(s, order)|
    ensures Trieds(s, order)[k] in s.info && s.info[Trieds(s, order)[k]].inTried
  {
    NewsListed(s, order);
  }

  lemma RebuiltTriedTable(e: Env, s: State, order: seq<Id>, t: State, q: State)
    requires Inv(e, s) && Enumerates(order, s.info.Keys) && Rebuilt(e, s, order, t, q)
    ensures q.triedTable.Keys == s.triedTable.Keys
    ensures forall slot :: slot in s.triedTable ==>
      var id := s.triedTable[slot];
      id in s.info && id in Trieds(s, order) && id !in News(s, order) && q.triedTable[slot] == NewIdOf(s, order, id)
  {
    hide Inv, News, Trieds, Rebuilt, NewIdOf, TriedTableOk;
    RebuiltInv(e, s, order, t, q);
    RebuiltTotals(e, s, order, t, q);
    InvReady(e, q);
    forall slot | slot in s.triedTable
      ensures slot in q.triedTable
      ensures var id := s.triedTable[slot];
        id in s.info && id in Trieds(s, order) && id !in News(s, order) && q.triedTable[slot] == NewIdOf(s, order, id)
    {
      TriedForward(e, s, order, t, q, slot);
    }
    forall slot | slot in q.triedTable ensures slot in s.triedTable {
      TriedBackward(e, s, order, t, q, slot);
    }
  }

  lemma RebuiltRecord(e: Env, s: State, order: seq<Id>, t: State, q: State, id: Id)
    requires Inv(e, s) && Enumerates(order, s.info.Keys) && Rebuilt(e, s, order, t, q) && id in s.info
    ensures id in News(s, order) || id in Trieds(s, order)
    ensures NewIdOf(s, order, id) in q.info && q.info[NewIdOf(s, order, id)] == Reborn(s.info[id], NewIdOf(s, order, id))
  {
    hide Inv, News, Trieds, Rebuilt;
    EverySection(e, s, order, id);
    if id in News(s, order) {
      RebuiltNew(e, s, order, t, q, IndexOf(News(s, order), id));
    } else {
      RebuiltTried(e, s, order, t, q, IndexOf(Trieds(s, order), id));
    }
  }

  /** Serialize then Unserialize, for any order the maps are walked in: the file is readable,
    * the restored manager satisfies the whole invariant, passes the check, and holds the
    * same addresses in the same slots with the same reference counts.
    */
  lemma RoundTrip(e: Env, s: State, order: seq<Id>, pruneOrder: seq<Id>)
    requires Inv(e, s) && Enumerates(order, s.info.Keys) && AllValid(e, s)
    requires Writable(s, order) && Readable(Written(e, s, order)) ==> Pending(Bucketed(e, Written(e, s, order)), pruneOrder)
    ensures Writable(s, order) && Readable(Written(e, s, order))
    ensures forall id :: id in s.info ==> id in News(s, order) || id in Trieds(s, order)
    ensures var t := Restored(e, Written(e, s, order), pruneOrder);
      Inv(e, t) && Checked(e, t) && SameUpToIds(s, order, t)
  {
    hide Weak, TimesOk, CollisionsOk, News, Trieds, Enumerates, Pending, Checked, Written, Bucketed, Entered, NewIdOf,
         Pruned, TableSlots, BothIn, FilledUpTo;
    ValidWritable(e, s, order);
    WrittenReadable(e, s, order);
    EnteredBoth(e, s, order);
    BucketedFilled(e, s, order);
    var f := Written(e, s, order);
    var t, q := Entered(e, f), Bucketed(e, f);
    assert Rebuilt(e, s, order, t, q);
    FinishTrip(e, s, order, t, q, pruneOrder);
  }

  lemma FinishTrip(e: Env, s: State, order: seq<Id>, t: State, q: State, pruneOrder: seq<Id>)
    requires Inv(e, s) && Enumerates(order, s.info.Keys) && Rebuilt(e, s, order, t, q)
    requires RandomOk(q) && Pending(q, pruneOrder)
    ensures Pruned(e, q, pruneOrder) == q && Inv(e, q) && Checked(e, q)
    ensures forall id :: id in s.info ==> id in News(s, order) || id in Trieds(s, order)
    ensures SameUpToIds(s, order, q)
  {
    hide Weak, TimesOk, CollisionsOk, News, Trieds, Pending, Checked, NewIdOf, Pruned, Rebuilt, RandomOk;
    RebuiltInv(e, s, order, t, q);
    PrunedNothing(e, q, pruneOrder);
    TablesInRange(e, q);
    CheckExact(e, q);
    RebuiltNewTable(e, s, order, t, q);
    RebuiltTriedTable(e, s, order, t, q);
    forall id | id in s.info
      ensures id in News(s, order) || id in Trieds(s, order)
      ensures NewIdOf(s, order, id) in q.info && q.info[NewIdOf(s, order, id)] == Reborn(s.info[id], NewIdOf(s, order, id))
    {
      RebuiltRecord(e, s, order, t, q, id);
    }
    RebuiltTotals(e, s, order, t, q);
  }

  lemma TablesInRange(e: Env, s: State)
    requires Inv(e, s)
    ensures InRange(s)
  {
  }

  lemma RebuiltTotals(e: Env, s: State, order: seq<Id>, t: State, q: State)
    requires Inv(e, s) && Enumerates(order, s.info.Keys) && Rebuilt(e, s, order, t, q)
    ensures q.key == s.key && q.nNew == s.nNew && q.nTried == s.nTried && |q.info| == |s.info|
  {
    hide IndexOk, NewTableOk, TriedTableOk, RefsOk, TimesOk, CollisionsOk, TableSlots, News, Trieds;
    SectionsCount(e, s, order);
    MembersSplit(s);
    RandomSize(t);
  }
}
