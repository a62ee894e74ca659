/** The address manager itself: the fields and methods of the program, each method proved
  * to do what the corresponding function on snapshots says.
  */
module AddrManClass {
  import opened AddrManTypes
  import opened AddrManInvariant
  import opened AddrManOps
  import opened AddrManRuns

  const EMPTY: Id := -1

  ghost function SlotSet(buckets: nat, size: nat): (r: set<Slot>)
    ensures forall slot: Slot :: slot in r <==> slot.bucket < buckets && slot.pos < size
  {
    set b: nat, p: nat | b < buckets && p < size :: Slot(b, p)
  }

  /** The occupied slots of a table stored as an array. */
  ghost function TableOf(a: array2<Id>): (t: Table)
    reads a
    ensures forall slot: Slot :: slot in t <==> slot.bucket < a.Length0 && slot.pos < a.Length1 && a[slot.bucket, slot.pos] != EMPTY
    ensures forall slot: Slot :: slot in t ==> t[slot] == a[slot.bucket, slot.pos]
  {
    map slot: Slot | slot in SlotSet(a.Length0, a.Length1) && a[slot.bucket, slot.pos] != EMPTY :: a[slot.bucket, slot.pos]
  }

  method Store(a: array2<Id>, slot: Slot, id: Id)
    requires slot.bucket < a.Length0 && slot.pos < a.Length1
    modifies a
    ensures TableOf(a) == if id == EMPTY then old(TableOf(a)) - {slot} else old(TableOf(a))[slot := id]
  {
    a[slot.bucket, slot.pos] := id;
  }

  class AddrMan {
    const e: Env
    const vvNew: array2<Id>
    const vvTried: array2<Id>
    var nKey: Key
    var nIdCount: nat
    var mapInfo: map<Id, Info>
    var mapAddr: map<Service, Id>
    var vRandom: seq<Id>
    var nNew: int
    var nTried: int
    var networkCounts: map<Network, Counts>
    var lastGood: int
    var triedCollisions: set<Id>

    ghost predicate Shaped()
    {
      && vvNew.Length0 == NEW_BUCKET_COUNT && vvNew.Length1 == BUCKET_SIZE
      && vvTried.Length0 == TRIED_BUCKET_COUNT && vvTried.Length1 == BUCKET_SIZE
      && vvNew != vvTried
    }

    /** The snapshot of all fields. */
    ghost function S(): State
      reads this, vvNew, vvTried
    {
      State(nKey, nIdCount, mapInfo, mapAddr, vRandom, nNew, nTried, TableOf(vvNew), TableOf(vvTried),
            networkCounts, lastGood, triedCollisions)
    }

    constructor (env: Env, key: Key)
      ensures Shaped() && e == env && S() == EmptyState(key) && fresh(vvNew) && fresh(vvTried)
    {
      e := env;
      vvNew := new Id[NEW_BUCKET_COUNT, BUCKET_SIZE]((_, _) => EMPTY);
      vvTried := new Id[TRIED_BUCKET_COUNT, BUCKET_SIZE]((_, _) => EMPTY);
      nKey, nIdCount, mapInfo, mapAddr, vRandom := key, 0, map[], map[], [];
      nNew, nTried, networkCounts, lastGood, triedCollisions := 0, 0, map[], 1, {};
      new;
      assert TableOf(vvNew) == map[] && TableOf(vvTried) == map[];
    }

    function CountsFor(net: Network): Counts
      reads this
    {
      if net in networkCounts then networkCounts[net] else Counts(0, 0)
    }

    /** Add to the totals and to the counters of an id's network. */
    method Tally(id: Id, dNew: int, dTried: int)
      requires Shaped() && id in mapInfo
      modifies this`nNew, this`nTried, this`networkCounts
      ensures S() == Count(e, old(S()), id, dNew, dTried)
    {
      nNew, nTried := nNew + dNew, nTried + dTried;
      var net := e.networkOf(mapInfo[id].Service().ip);
      var c := CountsFor(net);
      networkCounts := networkCounts[net := Counts(c.nNew + dNew, c.nTried + dTried)];
    }

    method Create(a: Address, source: NetAddr) returns (id: Id)
      requires Shaped()
      modifies this
      ensures S() == Created(e, old(S()), a, source) && id == old(nIdCount)
    {
      hide Count, TableOf;
      id := nIdCount;
      nIdCount := nIdCount + 1;
      mapInfo := mapInfo[id := FreshInfo(a, source, -1)];
      mapAddr := mapAddr[a.service := id];
      mapInfo := mapInfo[id := mapInfo[id].(randomPos := |vRandom|)];
      vRandom := vRandom + [id];
      assert S() == old(S()).(idCount := id + 1, info := old(mapInfo)[id := FreshInfo(a, source, |old(vRandom)|)],
                              addr := old(mapAddr)[a.service := id], random := old(vRandom) + [id]);
      Tally(id, 1, 0);
    }

    method SwapRandom(pos1: nat, pos2: nat)
      requires Shaped() && RandomOk(S()) && pos1 < |vRandom| && pos2 < |vRandom|
      modifies this`mapInfo, this`vRandom
      ensures S() == Swapped(old(S()), pos1, pos2)
    {
      if pos1 == pos2 { return; }
      assert pos1 < |vRandom| && pos2 < |vRandom|;
      var id1, id2 := vRandom[pos1], vRandom[pos2];
      assert id1 in mapInfo;
      assert id2 in mapInfo;
      mapInfo := mapInfo[id1 := mapInfo[id1].(randomPos := pos2)];
      mapInfo := mapInfo[id2 := mapInfo[id2].(randomPos := pos1)];
      vRandom := vRandom[pos1 := id2];
      vRandom := vRandom[pos2 := id1];
    }

    method Delete(id: Id)
      requires Shaped() && RandomOk(S()) && id in mapInfo && !mapInfo[id].inTried && mapInfo[id].refCount == 0
      modifies this
      ensures S() == Deleted(e, old(S()), id)
    {
      SwapRandom(mapInfo[id].randomPos, |vRandom| - 1);
      Tally(id, -1, 0);
      vRandom := vRandom[..|vRandom| - 1];
      mapAddr := mapAddr - {mapInfo[id].Service()};
      mapInfo := mapInfo - {id};
    }

    method ClearNew(slot: Slot)
      requires Shaped() && InNewRange(slot) && RandomOk(S()) && NewTableOk(e, S())
      requires RefsOk(S(), mapInfo.Keys)
      modifies this, vvNew
      ensures S() == ClearedNew(e, old(S()), slot)
    {
      if vvNew[slot.bucket, slot.pos] != EMPTY {
        var id := vvNew[slot.bucket, slot.pos];
        assert id in mapInfo && mapInfo[id].refCount > 0 by { OccupantCounted(e, S(), slot); }
        ghost var s := S();
        DroppedRandom(s, slot);
        mapInfo := mapInfo[id := mapInfo[id].(refCount := mapInfo[id].refCount - 1)];
        Store(vvNew, slot, EMPTY);
        assert S() == Dropped(s, slot);
        if mapInfo[id].refCount == 0 {
          Delete(id);
        }
      }
    }

    /** Empty a slot if it holds `id`, and count the reference down. */
    method Strike(id: Id, slot: Slot) returns (hit: bool)
      requires Shaped() && id in mapInfo && id != EMPTY && InNewRange(slot)
      requires mapInfo[id].refCount == |SlotsOf(TableOf(vvNew), id)|
      modifies this`mapInfo, vvNew
      ensures var t := old(TableOf(vvNew));
        hit == (slot in t && t[slot] == id) && TableOf(vvNew) == if hit then t - {slot} else t
      ensures id in mapInfo && mapInfo == old(mapInfo)[id := old(mapInfo[id]).(refCount := mapInfo[id].refCount)]
      ensures mapInfo[id].refCount == |SlotsOf(TableOf(vvNew), id)|
    {
      hit := vvNew[slot.bucket, slot.pos] == id;
      if hit {
        SlotRemoved(TableOf(vvNew), slot, id);
        Store(vvNew, slot, EMPTY);
        mapInfo := mapInfo[id := mapInfo[id].(refCount := mapInfo[id].refCount - 1)];
      }
    }

    /** Remove an id from the new buckets, walking them from its default bucket on and
      * stopping early when no reference is left.
      */
    method Withdraw(id: Id)
      requires Shaped() && NewTableOk(e, S()) && RefsOk(S(), mapInfo.Keys) && id in mapInfo && id != EMPTY
      modifies this`mapInfo, vvNew
      ensures mapInfo == old(mapInfo)[id := old(mapInfo[id]).(refCount := 0)]
      ensures TableOf(vvNew) == old(TableOf(vvNew)) - SlotsOf(old(TableOf(vvNew)), id)
    {
      hide RefsOk, NewTableOk, SlotsOf, Unvisited, TableOf;
      ghost var s := S();
      var i := mapInfo[id];
      var start := e.newBucket(nKey, i.Service(), i.source);
      UnvisitedAll(s, id, start);
      var n := 0;
      while n < NEW_BUCKET_COUNT
        invariant 0 <= n <= NEW_BUCKET_COUNT
        invariant id in mapInfo && mapInfo == s.info[id := i.(refCount := mapInfo[id].refCount)]
        invariant TableOf(vvNew) == Unvisited(s.newTable, id, start, n)
        invariant mapInfo[id].refCount == |SlotsOf(TableOf(vvNew), id)|
      {
        var bucket := (start + n) % NEW_BUCKET_COUNT;
        var slot := Slot(bucket, e.position(nKey, true, bucket, i.Service()));
        UnvisitedNext(e, s, id, start, n, slot);
        var hit := Strike(id, slot);
        n := n + 1;
        if hit && mapInfo[id].refCount == 0 { break; }
      }
      UnvisitedEnd(s, id, start, n);
    }

    /** Take an entry out of its tried slot. */
    method Demote(id: Id)
      requires Shaped() && id in mapInfo && mapInfo[id].inTried && id != EMPTY
      modifies this, vvTried
      ensures Shaped() && S() == Demoted(e, old(S()), id)
    {
      hide TableOf, Count;
      var i := mapInfo[id];
      var bucket := e.triedBucket(nKey, i.Service());
      var home := Slot(bucket, e.position(nKey, false, bucket, i.Service()));
      mapInfo := mapInfo[id := i.(inTried := false)];
      Store(vvTried, home, EMPTY);
      Tally(id, 0, -1);
    }

    /** Move the occupant of a tried slot back to its default slot of the new table. */
    method Evict(id: Id)
      requires Shaped() && RandomOk(S()) && NewTableOk(e, S()) && RefsOk(S(), mapInfo.Keys)
      requires id in mapInfo && mapInfo[id].inTried && id != EMPTY
      modifies this, vvNew, vvTried
      ensures S() == Evicted(e, old(S()), id)
    {
      hide RandomOk, NewTableOk, RefsOk, ClearedNew, TableOf, Count;
      ghost var s := S();
      var i := mapInfo[id];
      Demote(id);
      DemotedSame(e, s, id);
      DemotedReady(e, s, id);
      DemotedRefs(e, s, id);
      var nBucket := e.newBucket(nKey, i.Service(), i.source);
      var slot := Slot(nBucket, e.position(nKey, true, nBucket, i.Service()));
      ClearNew(slot);
      ClearedNewEffect(e, Demoted(e, s, id), slot);
      assert vvNew[slot.bucket, slot.pos] == EMPTY;
      mapInfo := mapInfo[id := mapInfo[id].(refCount := 1)];
      Store(vvNew, slot, id);
      Tally(id, 1, 0);
    }

    method MakeTried(id: Id)
      requires Shaped() && Weak(e, S(), {}, {}) && id in mapInfo && !mapInfo[id].inTried && id != EMPTY
      modifies this, vvNew, vvTried
      ensures S() == MadeTried(e, old(S()), id)
    {
      hide IndexOk, RandomOk, NewTableOk, TriedTableOk, RefsOk, CountsOk, SlotsOf, TableOf, Count, Evicted;
      ghost var s := S();
      var a := mapInfo[id].Service();
      RefsForAll(s);
      Withdraw(id);
      assert S() == Withdrawn(s, id);
      Tally(id, -1, 0);
      assert S() == Lifted(e, s, id);
      assert mapInfo[id].refCount == 0;
      LiftedReady(e, s, id);
      var bucket := e.triedBucket(nKey, a);
      var home := Slot(bucket, e.position(nKey, false, bucket, a));
      if vvTried[home.bucket, home.pos] != EMPTY {
        LiftedKeeps(e, s, id);
        RefsForAll(S());
        Evict(vvTried[home.bucket, home.pos]);
      }
      assert S() == Vacated(e, s, id);
      VacatedEffect(e, s, id);
      assert vvTried[home.bucket, home.pos] == EMPTY;
      Store(vvTried, home, id);
      mapInfo := mapInfo[id := mapInfo[id].(inTried := true)];
      Tally(id, 0, 1);
    }

    // ---------- Public operations ----------

    ghost predicate Valid()
      reads this, vvNew, vvTried
    {
      Shaped() && Inv(e, S())
    }

    method Find(a: Service) returns (id: Option<Id>)
      requires Valid()
      ensures id == if a in S().addr then Some(S().addr[a]) else None
      ensures id.Some? ==> id.value in mapInfo && mapInfo[id.value].Service() == a && id.value != EMPTY
    {
      if a in mapAddr {
        assert mapAddr[a] in mapInfo && mapAddr[a] >= 0;
        id := Some(mapAddr[a]);
      } else {
        id := None;
      }
    }

    /** Put an id into a new slot. */
    method Refer(slot: Slot, id: Id)
      requires Shaped() && InNewRange(slot) && id in mapInfo && id != EMPTY
      modifies this`mapInfo, vvNew
      ensures S() == Placed(old(S()), slot, id)
    {
      hide TableOf;
      mapInfo := mapInfo[id := mapInfo[id].(refCount := mapInfo[id].refCount + 1)];
      Store(vvNew, slot, id);
    }

    /** The common tail of AddSingle: find a slot for an id that has fewer than 8. */
    method Insert(id: Id, source: NetAddr, later: int, ghost p: set<Id>) returns (inserted: bool)
      requires Shaped() && Weak(e, S(), p, {}) && p <= {id} && id in mapInfo && id != EMPTY
      requires !mapInfo[id].inTried && mapInfo[id].refCount < NEW_BUCKETS_PER_ADDRESS
      modifies this, vvNew
      ensures (S(), inserted) == Inserted(e, old(S()), id, source, later)
    {
      hide IndexOk, RandomOk, NewTableOk, TriedTableOk, RefsOk, CountsOk, TableOf, ClearedNew, Deleted;
      ghost var s := S();
      RefsForAll(s);
      var bucket := e.newBucket(nKey, mapInfo[id].Service(), source);
      var slot := Slot(bucket, e.position(nKey, true, bucket, mapInfo[id].Service()));
      var occupant := vvNew[slot.bucket, slot.pos];
      inserted := occupant == EMPTY;
      if occupant != id {
        if !inserted {
          OccupantCounted(e, s, slot);
          if mapInfo[occupant].IsTerrible(later) || (mapInfo[occupant].refCount > 1 && mapInfo[id].refCount == 0) {
            inserted := true;
          }
        }
        if inserted {
          ClearedNewEffect(e, s, slot);
          ClearNew(slot);
          Refer(slot, id);
        } else if mapInfo[id].refCount == 0 {
          Delete(id);
        }
      }
    }

    /** Update the time and the flags of a known address. */
    method Refresh(id: Id, a: Address, penalty: int, now: int) returns (i: Info)
      requires id in mapInfo
      modifies this`mapInfo
      ensures S() == Touched(old(S()), id, i) && i == Refreshed(old(mapInfo[id]), a, penalty, now)
      ensures i.refCount == old(mapInfo[id]).refCount && i.inTried == old(mapInfo[id]).inTried
    {
      hide TableOf;
      var online := now - a.time < DAY;
      var interval := if online then HOUR else DAY;
      i := mapInfo[id];
      if i.address.time < a.time - interval - penalty {
        i := i.(address := i.address.(time := Max(0, a.time - penalty)));
      }
      i := i.(address := i.address.(flags := i.address.flags + a.flags));
      mapInfo := mapInfo[id := i];
    }

    method CreateNewcomer(a: Address, source: NetAddr, penalty: int) returns (id: Id)
      requires Shaped()
      modifies this
      ensures S() == Newcomer(e, old(S()), a, source, penalty) && id == old(nIdCount)
    {
      hide TableOf;
      id := Create(a, source);
      mapInfo := mapInfo[id := mapInfo[id].(address := a.(time := Max(0, a.time - penalty)))];
    }

    method AddSingle(a: Address, source: NetAddr, timePenalty: int, now: int, later: int, coin: bool) returns (inserted: bool)
      requires Valid()
      modifies this, vvNew
      ensures Valid() && (S(), inserted) == AddedSingle(e, old(S()), a, source, timePenalty, now, later, coin)
    {
      hide Weak, TimesOk, CollisionsOk, Inserted, TableOf, Newcomer, Refreshed, S;
      ghost var s := S();
      AddedSingleInv(e, s, a, source, timePenalty, now, later, coin);
      if !e.routable(a.service.ip) { return false; }
      var found := Find(a.service);
      var penalty := if a.service.ip == source then 0 else timePenalty;
      if found.Some? {
        var id := found.value;
        KnownFacts(e, s, a.service);
        RefreshedInv(e, s, id, a, penalty, now);
        Snapshot();
        var i := Refresh(id, a, penalty, now);
        Snapshot();
        if a.time <= i.address.time { return false; }
        if i.inTried { return false; }
        if i.refCount == NEW_BUCKETS_PER_ADDRESS { return false; }
        if i.refCount > 0 && !coin { return false; }
        inserted := Insert(id, source, later, {});
      } else {
        NewcomerWeak(e, s, a, source, penalty);
        NewcomerFrame(e, s, a, source, penalty);
        Snapshot();
        var id := CreateNewcomer(a, source, penalty);
        Snapshot();
        inserted := Insert(id, source, later, {id});
      }
    }

    /** Announce addresses in order; true when at least one changed the table. */
    method Add(anns: seq<Announcement>, source: NetAddr, timePenalty: int) returns (added: bool)
      requires Valid()
      modifies this, vvNew
      ensures Valid() && S() == AddedAll(e, old(S()), anns, source, timePenalty).0
      ensures added <==> AddedAll(e, old(S()), anns, source, timePenalty).1 > 0
    {
      hide Inv, AddedSingle, S;
      ghost var s := S();
      var n := 0;
      var i := 0;
      assert anns[..0] == [];
      while i < |anns|
        invariant 0 <= i <= |anns|
        invariant Valid()
        invariant (S(), n) == AddedAll(e, s, anns[..i], source, timePenalty)
      {
        assert anns[..i + 1][..i] == anns[..i];
        var inserted := AddSingle(anns[i].a, source, timePenalty, anns[i].now, anns[i].later, anns[i].coin);
        n := n + if inserted then 1 else 0;
        i := i + 1;
      }
      assert anns[..i] == anns;
      added := n > 0;
    }

    method Good(a: Service, testBeforeEvict: bool, time: int) returns (moved: bool)
      requires Valid() && time > 0
      modifies this, vvNew, vvTried
      ensures Valid() && (S(), moved) == GoodDone(e, old(S()), a, testBeforeEvict, time)
    {
      hide Weak, TimesOk, CollisionsOk, TableOf, MadeTried;
      ghost var s := S();
      GoodInv(e, s, a, testBeforeEvict, time);
      lastGood := time;
      if a !in mapAddr { return false; }
      KnownFacts(e, s, a);
      var id := mapAddr[a];
      ReachedInv(e, s, id, time);
      KnownId(e, s, a);
      mapInfo := mapInfo[id := mapInfo[id].(lastSuccess := time, lastTry := time, attempts := 0)];
      assert S() == Touched(s.(lastGood := time), id, Reached(s.info[id], time));
      if mapInfo[id].inTried { return false; }
      if !(mapInfo[id].refCount > 0) { return false; }
      var bucket := e.triedBucket(nKey, a);
      var home := Slot(bucket, e.position(nKey, false, bucket, a));
      if testBeforeEvict && vvTried[home.bucket, home.pos] != EMPTY {
        if |triedCollisions| < TRIED_COLLISION_SIZE {
          triedCollisions := triedCollisions + {id};
        }
        return false;
      } else {
        MakeTried(id);
        return true;
      }
    }

    method Attempt(a: Service, countFailure: bool, time: int)
      requires Valid() && time >= 0
      modifies this`mapInfo
      ensures Valid() && S() == Attempted(old(S()), a, countFailure, time)
    {
      hide RandomOk, NewTableOk, TriedTableOk, RefsOk, CountsOk, TimesOk, CollisionsOk, TableOf;
      AttemptedInv(e, S(), a, countFailure, time);
      if a !in mapAddr { return; }
      var i := mapInfo[mapAddr[a]];
      i := i.(lastTry := time);
      if countFailure && i.lastCountAttempt < lastGood {
        i := i.(lastCountAttempt := time, attempts := i.attempts + 1);
      }
      mapInfo := mapInfo[mapAddr[a] := i];
    }

    method Connected(a: Service, time: int)
      requires Valid()
      modifies this`mapInfo
      ensures Valid() && S() == ConnectedTo(old(S()), a, time)
    {
      hide RandomOk, NewTableOk, TriedTableOk, RefsOk, CountsOk, TimesOk, CollisionsOk, TableOf;
      ConnectedInv(e, S(), a, time);
      if a !in mapAddr { return; }
      var i := mapInfo[mapAddr[a]];
      if time - i.address.time > 20 * MINUTE {
        mapInfo := mapInfo[mapAddr[a] := i.(address := i.address.(time := time))];
      }
    }

    method SetServices(a: Service, flags: Flags)
      requires Valid()
      modifies this`mapInfo
      ensures Valid() && S() == ServicesSet(old(S()), a, flags)
    {
      hide RandomOk, NewTableOk, TriedTableOk, RefsOk, CountsOk, TimesOk, CollisionsOk, TableOf;
      ServicesSetInv(e, S(), a, flags);
      if a !in mapAddr { return; }
      var i := mapInfo[mapAddr[a]];
      mapInfo := mapInfo[mapAddr[a] := i.(address := i.address.(flags := flags))];
    }

    /** Decide about each remembered collision, in ascending order of id. */
    method ResolveCollisions(clock: seq<PositiveTime>) returns (ids: seq<Id>)
      requires Valid() && |clock| == |triedCollisions|
      modifies this, vvNew, vvTried
      ensures Ascending(ids, old(triedCollisions)) && |ids| == |clock|
      ensures Valid() && S() == Resolved(e, old(S()), ids, clock)
    {
      hide Inv, ResolvedOne, S, Ascending;
      ghost var s := S();
      Snapshot();
      CollisionsBounded(e, s);
      ids := AscendingIds(triedCollisions, nIdCount);
      var i := 0;
      while i < |ids|
        invariant 0 <= i <= |ids|
        invariant Valid()
        invariant Resolved(e, S(), ids[i..], clock[i..]) == Resolved(e, s, ids, clock)
      {
        assert ids[i..][0] == ids[i] && ids[i..][1..] == ids[i + 1..];
        assert clock[i..][0] == clock[i] && clock[i..][1..] == clock[i + 1..];
        ResolveOne(ids[i], clock[i]);
        i := i + 1;
      }
      assert ids[i..] == [];
    }

    method ResolveOne(id: Id, now: PositiveTime)
      requires Valid()
      modifies this, vvNew, vvTried
      ensures Valid() && S() == ResolvedOne(e, old(S()), id, now)
    {
      hide IndexOk, RandomOk, NewTableOk, RefsOk, CountsOk, TimesOk, CollisionsOk, TableOf, GoodDone;
      ghost var s := S();
      var erase := false;
      if id !in mapInfo {
        erase := true;
      } else {
        var a := mapInfo[id].Service();
        var bucket := e.triedBucket(nKey, a);
        var home := Slot(bucket, e.position(nKey, false, bucket, a));
        if !e.valid(a.ip) {
          erase := true;
        } else if vvTried[home.bucket, home.pos] != EMPTY {
          var prior := mapInfo[vvTried[home.bucket, home.pos]];
          if now - prior.lastSuccess < REPLACEMENT {
            erase := true;
          } else if now - prior.lastTry < REPLACEMENT {
            if now - prior.lastTry > 60 {
              var _ := Good(a, false, now);
              erase := true;
            }
          } else if now - mapInfo[id].lastSuccess > TEST_WINDOW {
            var _ := Good(a, false, now);
            erase := true;
          }
        } else {
          var _ := Good(a, false, now);
          erase := true;
        }
      }
      if erase {
        triedCollisions := triedCollisions - {id};
      }
      assert S() == ResolvedOne(e, s, id, now);
    }

    /** The tried entry standing in the way of the remembered id `pick`. */
    method SelectTriedCollision(pick: Id) returns (r: Option<Info>)
      requires Valid() && (triedCollisions != {} ==> pick in triedCollisions)
      modifies this`triedCollisions
      ensures Valid() && S() == SelectedTried(old(S()), pick)
      ensures mapInfo == old(mapInfo)
      ensures r.Some? <==> old(triedCollisions) != {} && pick in mapInfo
      ensures r.Some? ==> var home := S().HomeOf(e, pick);
        home in S().triedTable && S().triedTable[home] in mapInfo && r.value == mapInfo[S().triedTable[home]]
    {
      hide IndexOk, RandomOk, NewTableOk, RefsOk, CountsOk, TimesOk, TableOf;
      SelectedTriedInv(e, S(), pick);
      if |triedCollisions| == 0 { return None; }
      if pick !in mapInfo {
        triedCollisions := triedCollisions - {pick};
        return None;
      }
      var a := mapInfo[pick].Service();
      var bucket := e.triedBucket(nKey, a);
      var home := Slot(bucket, e.position(nKey, false, bucket, a));
      r := Some(mapInfo[vvTried[home.bucket, home.pos]]);
    }

    /** A random sample: shuffle vRandom from the front, and take what passes the filters
      * until enough have been taken.
      */
    method GetAddr(maxAddresses: nat, maxPct: nat, network: Option<Network>, filtered: bool, now: int)
      returns (addresses: seq<Address>)
      requires Valid()
      modifies this`mapInfo, this`vRandom
      ensures Valid() && OnlyReordered(old(S()), S())
      ensures |addresses| <= SampleLimit(|vRandom|, maxAddresses, maxPct)
      ensures Sampled(e, old(S()), addresses, Filter(network, filtered, now),
                      |addresses| < SampleLimit(|vRandom|, maxAddresses, maxPct))
    {
      hide Inv, S, OnlyReordered, Sampled, Collected;
      ghost var s := S();
      var f := Filter(network, filtered, now);
      var limit := SampleLimit(|vRandom|, maxAddresses, maxPct);
      addresses := [];
      var n := 0;
      ReorderedSelf(e, s);
      Snapshot();
      while n < |vRandom|
        invariant 0 <= n <= |vRandom| == |s.random|
        invariant Valid() && OnlyReordered(s, S()) && S().random == vRandom
        invariant Listed(s, vRandom) && addresses == Collected(e, s.info, vRandom[..n], f) && |addresses| <= limit
      {
        if |addresses| >= limit { break; }
        var pos :| n <= pos < |vRandom|;
        var i := Draw(n, pos, s);
        CollectedNext(e, s.info, vRandom, n, f);
        n := n + 1;
        if network.Some? && e.netClassOf(i.Service().ip) != network.value { continue; }
        if i.IsTerrible(now) && filtered { continue; }
        addresses := addresses + [i.address];
      }
      SampleDone(e, s, S(), n, f, |addresses| < limit);
    }

    /** Bring position `pos` of vRandom to position `n` and look at the entry there. */
    method Draw(n: nat, pos: nat, ghost s: State) returns (i: Info)
      requires Valid() && OnlyReordered(s, S()) && n <= pos < |vRandom|
      modifies this`mapInfo, this`vRandom
      ensures Valid() && OnlyReordered(s, S()) && S().random == vRandom && |vRandom| == |old(vRandom)| && vRandom[..n] == old(vRandom)[..n]
      ensures Listed(s, vRandom)
      ensures i == s.info[vRandom[n]].(randomPos := i.randomPos)
    {
      hide IndexOk, NewTableOk, TriedTableOk, RefsOk, CountsOk, TimesOk, CollisionsOk, TableOf, Swapped;
      ShuffleStep(e, s, S(), n, pos);
      SwapRandom(n, pos);
      var id := vRandom[n];
      assert id in mapInfo;
      i := mapInfo[id];
      assert id in s.info && i == s.info[id].(randomPos := i.randomPos);
    }

    /** The fields the snapshot is made of. */
    lemma Snapshot()
      ensures S().info == mapInfo && S().addr == mapAddr && S().idCount == nIdCount && S().key == nKey
      ensures S().collisions == triedCollisions && S().random == vRandom
    {
    }
  }

  // ---------- Sampling ----------

  datatype Filter = Filter(network: Option<Network>, filtered: bool, now: int)

  predicate Passes(e: Env, i: Info, f: Filter) {
    && (f.network.Some? ==> e.netClassOf(i.Service().ip) == f.network.value)
    && !(i.IsTerrible(f.now) && f.filtered)
  }

  /** How many addresses a sample of `n` may hold. Zero means no bound. */
  function SampleLimit(n: nat, maxAddresses: nat, maxPct: nat): nat {
    var byPct := if maxPct != 0 then (if maxPct < 100 then maxPct else 100) * n / 100 else n;
    if maxAddresses != 0 && maxAddresses < byPct then maxAddresses else byPct
  }

  /** The limit is the largest number within the count, the bound given and the percentage given. */
  lemma SampleLimitExact(n: nat, maxAddresses: nat, maxPct: nat, k: nat)
    ensures k <= SampleLimit(n, maxAddresses, maxPct) <==>
      k <= n && (maxAddresses != 0 ==> k <= maxAddresses) && (maxPct != 0 ==> 100 * k <= maxPct * n)
  {
    var pct := if maxPct < 100 then maxPct else 100;
    assert maxPct * n >= pct * n;
    assert pct * n <= 100 * n;
  }

  ghost function Collected(e: Env, info: map<Id, Info>, ids: seq<Id>, f: Filter): seq<Address>
    requires forall k :: 0 <= k < |ids| ==> ids[k] in info
  {
    if ids == [] then []
    else
      var n := |ids| - 1;
      Collected(e, info, ids[..n], f) + if Passes(e, info[ids[n]], f) then [info[ids[n]].address] else []
  }

  /** A sample holds entries that pass the filter, each at most once, and all of them when
    * it was not cut short.
    */
  ghost predicate Sampled(e: Env, s: State, addresses: seq<Address>, f: Filter, whole: bool) {
    && (forall i, j :: 0 <= i < j < |addresses| ==> addresses[i].service != addresses[j].service)
    && (forall a :: a in addresses ==> exists id :: id in s.info && s.info[id].address == a && Passes(e, s.info[id], f))
    && (whole ==> forall id :: id in s.info && Passes(e, s.info[id], f) ==> s.info[id].address in addresses)
  }

  /** What a sample holds: only the network asked for, no terrible entry if filtered, and, when
    * nothing is filtered and it was not cut short, every entry.
    */
  lemma SampledMeans(e: Env, s: State, addresses: seq<Address>, f: Filter, whole: bool)
    requires Sampled(e, s, addresses, f, whole)
    ensures f.network.Some? ==> forall a :: a in addresses ==> e.netClassOf(a.service.ip) == f.network.value
    ensures f.filtered ==> forall a :: a in addresses ==> exists id :: id in s.info && s.info[id].address == a && !s.info[id].IsTerrible(f.now)
    ensures whole && f.network.None? && !f.filtered ==> forall id :: id in s.info ==> s.info[id].address in addresses
    ensures whole && f.filtered ==> forall id :: id in s.info && s.info[id].address !in addresses ==>
      s.info[id].IsTerrible(f.now) || (f.network.Some? && e.netClassOf(s.info[id].Service().ip) != f.network.value)
  {
    forall a | a in addresses
      ensures f.network.Some? ==> e.netClassOf(a.service.ip) == f.network.value
      ensures f.filtered ==> exists id :: id in s.info && s.info[id].address == a && !s.info[id].IsTerrible(f.now)
    {
      var id :| id in s.info && s.info[id].address == a && Passes(e, s.info[id], f);
    }
  }

  lemma ShuffleStep(e: Env, s: State, t: State, n: nat, pos: nat)
    requires OnlyReordered(s, t) && Inv(e, t) && n <= pos < |t.random|
    ensures var t' := Swapped(t, n, pos);
      Inv(e, t') && OnlyReordered(s, t') && |t'.random| == |t.random| && t'.random[..n] == t.random[..n]
  {
    hide IndexOk, NewTableOk, TriedTableOk, RefsOk, CountsOk, TimesOk, CollisionsOk;
    SwappedReorders(t, n, pos);
    SwappedRandom(t, n, pos);
    ReorderedInv(e, t, Swapped(t, n, pos));
  }

  /** Every entry of a random order is a known id. */
  ghost predicate Listed(s: State, random: seq<Id>) {
    forall k :: 0 <= k < |random| ==> random[k] in s.info
  }

  lemma ReorderedSelf(e: Env, s: State)
    requires Inv(e, s)
    ensures OnlyReordered(s, s) && Listed(s, s.random)
    ensures forall f :: Collected(e, s.info, s.random[..0], f) == []
  {
  }

  lemma CollectedNext(e: Env, info: map<Id, Info>, ids: seq<Id>, n: nat, f: Filter)
    requires n < |ids| && forall k :: 0 <= k < |ids| ==> ids[k] in info
    ensures Collected(e, info, ids[..n + 1], f)
         == Collected(e, info, ids[..n], f) + if Passes(e, info[ids[n]], f) then [info[ids[n]].address] else []
  {
    assert ids[..n + 1][..n] == ids[..n];
  }

  /** Place `k` of the list is the entry collected as `a`. */
  ghost predicate TakenAt(e: Env, info: map<Id, Info>, ids: seq<Id>, f: Filter, a: Address, k: int) {
    0 <= k < |ids| && ids[k] in info && info[ids[k]].address == a && Passes(e, info[ids[k]], f)
  }

  lemma {:induction false} CollectedFrom(e: Env, s: State, ids: seq<Id>, f: Filter, a: Address) returns (k: int)
    requires Listed(s, ids) && a in Collected(e, s.info, ids, f)
    ensures TakenAt(e, s.info, ids, f, a, k)
  {
    hide Passes;
    var n := |ids| - 1;
    if a in Collected(e, s.info, ids[..n], f) {
      k := CollectedFrom(e, s, ids[..n], f, a);
    } else {
      k := n;
    }
  }

  lemma {:induction false} CollectedHas(e: Env, s: State, ids: seq<Id>, f: Filter, k: nat)
    requires Listed(s, ids) && k < |ids| && Passes(e, s.info[ids[k]], f)
    ensures s.info[ids[k]].address in Collected(e, s.info, ids, f)
  {
    hide Passes;
    var n := |ids| - 1;
    if k < n {
      CollectedHas(e, s, ids[..n], f, k);
    }
  }

  lemma {:induction false} CollectedDistinct(e: Env, s: State, ids: seq<Id>, f: Filter)
    requires IndexOk(s) && Listed(s, ids)
    requires forall i, j :: 0 <= i < j < |ids| ==> ids[i] != ids[j]
    ensures var r := Collected(e, s.info, ids, f); forall i, j :: 0 <= i < j < |r| ==> r[i].service != r[j].service
  {
    hide Passes;
    if ids != [] {
      var n := |ids| - 1;
      CollectedDistinct(e, s, ids[..n], f);
      var r := Collected(e, s.info, ids[..n], f);
      forall i | 0 <= i < |r| ensures r[i].service != s.info[ids[n]].Service() {
        var k := CollectedFrom(e, s, ids[..n], f, r[i]);
        assert ids[k] != ids[n];
      }
    }
  }

  lemma SampleDone(e: Env, s: State, t: State, n: nat, f: Filter, whole: bool)
    requires Inv(e, s) && Inv(e, t) && OnlyReordered(s, t) && Listed(s, t.random)
    requires n <= |t.random| && (whole ==> n == |t.random|)
    ensures Sampled(e, s, Collected(e, s.info, t.random[..n], f), f, whole)
  {
    hide NewTableOk, TriedTableOk, RefsOk, CountsOk, TimesOk, CollisionsOk, IndexOk, RandomOk, Collected;
    var ids := t.random[..n];
    RandomDistinct(t, n);
    InvIndex(e, s);
    CollectedDistinct(e, s, ids, f);
    forall a | a in Collected(e, s.info, ids, f)
      ensures exists id :: id in s.info && s.info[id].address == a && Passes(e, s.info[id], f)
    {
      CollectedSampled(e, s, ids, f, a);
    }
    if whole {
      assert ids == t.random;
      forall id | id in s.info && Passes(e, s.info[id], f) ensures s.info[id].address in Collected(e, s.info, ids, f) {
        RandomHas(t, id);
        var k := t.info[id].randomPos;
        assert ids[k] == id;
        CollectedHas(e, s, ids, f, k);
      }
    }
  }

  lemma InvIndex(e: Env, s: State)
    requires Inv(e, s)
    ensures IndexOk(s)
  {
  }

  lemma RandomDistinct(t: State, n: nat)
    requires RandomOk(t) && n <= |t.random|
    ensures forall i, j :: 0 <= i < j < n ==> t.random[..n][i] != t.random[..n][j]
  {
  }

  lemma RandomHas(t: State, id: Id)
    requires RandomOk(t) && id in t.info
    ensures 0 <= t.info[id].randomPos < |t.random| && t.random[t.info[id].randomPos] == id
  {
  }

  lemma CollectedSampled(e: Env, s: State, ids: seq<Id>, f: Filter, a: Address)
    requires Listed(s, ids) && a in Collected(e, s.info, ids, f)
    ensures exists id :: id in s.info && s.info[id].address == a && Passes(e, s.info[id], f)
  {
    hide Collected, Passes;
    var k := CollectedFrom(e, s, ids, f, a);
    var id := ids[k];
    assert id in s.info && s.info[id].address == a;
  }

  lemma CollisionsBounded(e: Env, s: State)
    requires Inv(e, s)
    ensures forall id :: id in s.collisions ==> 0 <= id < s.idCount
  {
  }

  lemma KnownId(e: Env, s: State, a: Service)
    requires Inv(e, s) && a in s.addr
    ensures s.addr[a] >= 0
  {
  }

  lemma RefsForAll(s: State)
    requires exists p :: RefsOk(s, p)
    ensures RefsOk(s, s.info.Keys)
  {
  }

  lemma DemotedRefs(e: Env, s: State, id: Id)
    requires NewTableOk(e, s) && RefsOk(s, s.info.Keys) && id in s.info && s.info[id].inTried
    ensures RefsOk(Demoted(e, s, id), s.info.Keys)
    ensures s.info[id].refCount == 0
    ensures forall slot :: slot in s.newTable ==> s.newTable[slot] != id
  {
  }

  // ---------- Walking the new buckets ----------

  /** What is left of a table once the first `n` buckets from `start` have lost `id`. */
  ghost function Unvisited(t: Table, id: Id, start: nat, n: nat): Table
    requires start < NEW_BUCKET_COUNT
  {
    t - (set slot | slot in SlotsOf(t, id) && (slot.bucket - start) % NEW_BUCKET_COUNT < n)
  }

  lemma UnvisitedAll(s: State, id: Id, start: nat)
    requires start < NEW_BUCKET_COUNT && RefsOk(s, s.info.Keys) && id in s.info
    ensures Unvisited(s.newTable, id, start, 0) == s.newTable
    ensures s.info[id].refCount == |SlotsOf(s.newTable, id)|
  {
  }

  lemma UnvisitedNext(e: Env, s: State, id: Id, start: nat, n: nat, slot: Slot)
    requires start < NEW_BUCKET_COUNT && n < NEW_BUCKET_COUNT && NewTableOk(e, s) && id in s.info
    requires slot.bucket == (start + n) % NEW_BUCKET_COUNT
    requires slot.pos == e.position(s.key, true, slot.bucket, s.info[id].Service())
    ensures var t, t' := Unvisited(s.newTable, id, start, n), Unvisited(s.newTable, id, start, n + 1);
      t' == if slot in t && t[slot] == id then t - {slot} else t
  {
    assert (slot.bucket - start) % NEW_BUCKET_COUNT == n;
    forall x | x in SlotsOf(s.newTable, id) && (x.bucket - start) % NEW_BUCKET_COUNT == n ensures x == slot {
      assert x.bucket == slot.bucket;
    }
  }

  /** The walk ends with nothing left, whether it stopped early or not. */
  lemma UnvisitedEnd(s: State, id: Id, start: nat, n: nat)
    requires start < NEW_BUCKET_COUNT
    requires n == NEW_BUCKET_COUNT || |SlotsOf(Unvisited(s.newTable, id, start, n), id)| == 0
    ensures Unvisited(s.newTable, id, start, n) == s.newTable - SlotsOf(s.newTable, id)
    ensures |SlotsOf(Unvisited(s.newTable, id, start, n), id)| == 0
  {
    var left := Unvisited(s.newTable, id, start, n);
    if n != NEW_BUCKET_COUNT {
      forall slot | slot in left ensures left[slot] != id {
        assert left[slot] == id ==> slot in SlotsOf(left, id);
      }
    } else {
      assert SlotsOf(left, id) == {};
    }
  }

  lemma OccupantCounted(e: Env, s: State, slot: Slot)
    requires slot in s.newTable && NewTableOk(e, s) && RefsOk(s, s.info.Keys)
    ensures s.newTable[slot] in s.info && s.info[s.newTable[slot]].refCount > 0
  {
    assert slot in SlotsOf(s.newTable, s.newTable[slot]);
  }
}
