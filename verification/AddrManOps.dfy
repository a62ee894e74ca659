/** The address manager's operations as functions on snapshots, and the theorem that
  * every run from the empty manager keeps the invariant. Randomness and the clock are
  * arguments.
  */
module AddrManOps {
  import opened AddrManTypes
  import opened AddrManInvariant

  // ---------- What settling a table may change ----------

  /** Ids may go; what stays keeps everything but its reference count, table and random position. */
  ghost predicate Slim(s: State, s': State) {
    && s'.key == s.key && s'.idCount == s.idCount && s'.lastGood == s.lastGood && s'.collisions == s.collisions
    && s'.info.Keys <= s.info.Keys
    && (forall x :: x in s'.info ==>
          s'.info[x] == s.info[x].(refCount := s'.info[x].refCount, inTried := s'.info[x].inTried,
                                   randomPos := s'.info[x].randomPos))
  }

  /** Only `id` may have entered the tried table. */
  ghost predicate OnlyPromotes(s: State, s': State, id: Id) {
    forall x :: x in s'.info && s'.info[x].inTried && x != id ==> x in s.info && s.info[x].inTried
  }

  lemma SlimTrans(s: State, t: State, s': State)
    requires Slim(s, t) && Slim(t, s')
    ensures Slim(s, s')
  {
  }

  lemma SlimTimes(s: State, s': State, id: Id)
    requires Slim(s, s') && OnlyPromotes(s, s', id) && TimesOk(s)
    requires id in s'.info ==> s'.info[id].lastSuccess > 0
    ensures TimesOk(s')
  {
  }

  lemma SlimCollisions(e: Env, s: State, s': State)
    requires Slim(s, s') && s.triedTable.Keys <= s'.triedTable.Keys && CollisionsOk(e, s)
    ensures CollisionsOk(e, s')
  {
  }

  // ---------- ClearNew and MakeTried ----------

  lemma DroppedRandom(s: State, slot: Slot)
    requires RandomOk(s) && slot in s.newTable && s.newTable[slot] in s.info
    ensures RandomOk(Dropped(s, slot))
  {
    RandomFrame(s, Dropped(s, slot));
  }

  /** Empty one new slot, and delete its occupant if that was its last. */
  function ClearedNew(e: Env, s: State, slot: Slot): State
    requires RandomOk(s) && NewTableOk(e, s)
  {
    if slot !in s.newTable then s
    else
      var id := s.newTable[slot];
      var s1 := Dropped(s, slot);
      DroppedRandom(s, slot);
      if s1.info[id].refCount == 0 then Deleted(e, s1, id) else s1
  }

  lemma DeletedEffect(e: Env, s: State, id: Id)
    requires RandomOk(s) && id in s.info
    ensures var s' := Deleted(e, s, id);
      && Slim(s, s') && OnlyPromotes(s, s', id) && s'.info.Keys == s.info.Keys - {id}
      && s'.newTable == s.newTable && s'.triedTable == s.triedTable && s'.addr == s.addr - {s.info[id].Service()}
      && (forall x :: x in s'.info ==> s'.info[x] == s.info[x].(randomPos := s'.info[x].randomPos))
  {
    hide Swapped;
    SwappedReorders(s, s.info[id].randomPos, |s.random| - 1);
  }

  lemma ClearedNewEffect(e: Env, s: State, slot: Slot)
    requires RandomOk(s) && NewTableOk(e, s)
    ensures var s' := ClearedNew(e, s, slot);
      && Slim(s, s') && s'.newTable == s.newTable - {slot} && s'.triedTable == s.triedTable
      && (forall x :: x in s.info && !(slot in s.newTable && s.newTable[slot] == x) ==>
            x in s'.info && s'.info[x] == s.info[x].(randomPos := s'.info[x].randomPos))
      && (forall x :: x in s'.info ==> s'.info[x].inTried == s.info[x].inTried)
  {
    if slot in s.newTable {
      DroppedRandom(s, slot);
      if Dropped(s, slot).info[s.newTable[slot]].refCount == 0 {
        DeletedEffect(e, Dropped(s, slot), s.newTable[slot]);
      }
    }
  }

  lemma WeakerPending(e: Env, s: State, p: set<Id>, p': set<Id>, u: set<Id>)
    requires Weak(e, s, p, u) && p <= p'
    ensures Weak(e, s, p', u)
  {
  }

  lemma ClearedNewKeeps(e: Env, s: State, p: set<Id>, u: set<Id>, slot: Slot)
    requires Weak(e, s, p, u) && (slot in s.newTable ==> s.newTable[slot] !in u)
    ensures Weak(e, ClearedNew(e, s, slot), p, u)
  {
    if slot in s.newTable {
      var id := s.newTable[slot];
      var s1 := Dropped(s, slot);
      DroppedKeeps(e, s, p, u, slot);
      if s1.info[id].refCount == 0 {
        assert !s1.info[id].inTried;
        hide IndexOk, RandomOk, NewTableOk, TriedTableOk, RefsOk, CountsOk;
        DeletedKeeps(e, s1, p + {id}, u, id);
        WeakerPending(e, Deleted(e, s1, id), p + {id} - {id}, p, u);
      }
    }
  }

  /** Where an id belongs in the new table by its first source. */
  function DefaultSlot(e: Env, s: State, id: Id): Slot
    requires id in s.info
  {
    e.NewSlot(s.key, s.info[id].Service(), s.info[id].source)
  }

  lemma DemotedReady(e: Env, s: State, id: Id)
    requires RandomOk(s) && NewTableOk(e, s) && id in s.info && s.info[id].inTried
    ensures var s1 := Demoted(e, s, id);
      && RandomOk(s1) && NewTableOk(e, s1) && id in s1.info
      && id in ClearedNew(e, s1, DefaultSlot(e, s, id)).info
      && (DefaultSlot(e, s, id) in s.newTable ==> s.newTable[DefaultSlot(e, s, id)] != id)
  {
    var s1 := Demoted(e, s, id);
    RandomFrame(s, s1);
    ClearedNewEffect(e, s1, DefaultSlot(e, s, id));
  }

  /** Move a tried id back to its default slot of the new table, clearing that slot first. */
  function Evicted(e: Env, s: State, id: Id): State
    requires RandomOk(s) && NewTableOk(e, s) && id in s.info && s.info[id].inTried
  {
    var slot := DefaultSlot(e, s, id);
    DemotedReady(e, s, id);
    var s1 := ClearedNew(e, Demoted(e, s, id), slot);
    Count(e, Placed(s1, slot, id), id, 1, 0)
  }

  lemma DemotedSame(e: Env, s: State, id: Id)
    requires id in s.info
    ensures Demoted(e, s, id).key == s.key && Demoted(e, s, id).newTable == s.newTable
    ensures Demoted(e, s, id).info == s.info[id := s.info[id].(inTried := false)]
  {
  }

  lemma EvictedSlim(e: Env, s: State, id: Id)
    requires RandomOk(s) && NewTableOk(e, s) && id in s.info && s.info[id].inTried
    ensures Slim(s, Evicted(e, s, id))
  {
    hide ClearedNew, RandomOk, NewTableOk;
    DemotedReady(e, s, id);
    var s1, slot := Demoted(e, s, id), DefaultSlot(e, s, id);
    var s2 := ClearedNew(e, s1, slot);
    var s3 := Placed(s2, slot, id);
    assert Slim(s, s1);
    assert Slim(s1, s2) by { ClearedNewEffect(e, s1, slot); }
    assert Slim(s2, s3);
    assert Slim(s3, Evicted(e, s, id));
    SlimTrans(s, s1, s2);
    SlimTrans(s, s2, s3);
    SlimTrans(s, s3, Evicted(e, s, id));
  }

  /** An evicted id ends up at its default slot; only that slot's occupant may vanish. */
  lemma EvictedEffect(e: Env, s: State, id: Id)
    requires RandomOk(s) && NewTableOk(e, s) && id in s.info && s.info[id].inTried
    ensures var s' := Evicted(e, s, id); var slot := DefaultSlot(e, s, id);
      && s'.newTable == s.newTable[slot := id]
      && s'.triedTable == s.triedTable - {s.HomeOf(e, id)}
      && id in s'.info && !s'.info[id].inTried && s'.info[id].refCount == s.info[id].refCount + 1
      && (forall x :: x in s.info && x != id && !(slot in s.newTable && s.newTable[slot] == x) ==>
            x in s'.info && s'.info[x].refCount == s.info[x].refCount)
      && (forall x :: x in s'.info && x != id ==> x in s.info && s'.info[x].inTried == s.info[x].inTried)
  {
    hide ClearedNew, RandomOk, NewTableOk;
    DemotedReady(e, s, id);
    ClearedNewEffect(e, Demoted(e, s, id), DefaultSlot(e, s, id));
  }

  lemma DemotedFacts(e: Env, s: State, p: set<Id>, u: set<Id>, id: Id)
    requires Weak(e, s, p, u) && id in s.info && s.info[id].inTried
    ensures Weak(e, Demoted(e, s, id), p + {id}, u + {id})
    ensures s.info[id].refCount == 0
    ensures forall slot :: slot in s.newTable ==> s.newTable[slot] != id
  {
    hide IndexOk, RandomOk, TriedTableOk, CountsOk;
    DemotedKeeps(e, s, p, u, id);
  }

  /** Clearing a slot and placing an id that is nowhere. */
  lemma ClearedPlacedKeeps(e: Env, s: State, p: set<Id>, u: set<Id>, slot: Slot, id: Id)
    requires Weak(e, s, p, u) && id in s.info && !s.info[id].inTried && InNewRange(slot)
    requires s.info[id].refCount < NEW_BUCKETS_PER_ADDRESS
    requires slot.pos == e.position(s.key, true, slot.bucket, s.info[id].Service())
    requires slot in s.newTable ==> s.newTable[slot] !in u && s.newTable[slot] != id
    ensures var s1 := ClearedNew(e, s, slot);
      id in s1.info && !s1.info[id].inTried && Weak(e, Placed(s1, slot, id), p - {id}, u)
  {
    hide IndexOk, RandomOk, NewTableOk, TriedTableOk, RefsOk, CountsOk, ClearedNew;
    ClearedNewEffect(e, s, slot);
    ClearedNewKeeps(e, s, p, u, slot);
    PlacedKeeps(e, ClearedNew(e, s, slot), p, u, slot, id);
  }

  lemma EvictedKeeps(e: Env, s: State, p: set<Id>, u: set<Id>, id: Id)
    requires Weak(e, s, p, u) && id in s.info && s.info[id].inTried && id !in p + u
    requires var slot := DefaultSlot(e, s, id); slot in s.newTable ==> s.newTable[slot] !in u
    ensures Weak(e, Evicted(e, s, id), p, u)
  {
    hide IndexOk, RandomOk, NewTableOk, TriedTableOk, RefsOk, CountsOk, ClearedNew;
    var slot, s1 := DefaultSlot(e, s, id), Demoted(e, s, id);
    DemotedFacts(e, s, p, u, id);
    ClearedPlacedKeeps(e, s1, p + {id}, u + {id}, slot, id);
    CountKeeps(e, Placed(ClearedNew(e, s1, slot), slot, id), p + {id} - {id}, u + {id}, id, true);
    assert p + {id} - {id} == p && u + {id} - {id} == u;
  }

  /** An id leaves the new table and the new count, and is nowhere for the moment. */
  function Lifted(e: Env, s: State, id: Id): State
    requires id in s.info
  {
    Count(e, Withdrawn(s, id), id, -1, 0)
  }

  lemma LiftedKeeps(e: Env, s: State, id: Id)
    requires Weak(e, s, {}, {}) && id in s.info && !s.info[id].inTried
    ensures Weak(e, Lifted(e, s, id), {id}, {id})
  {
    hide IndexOk, RandomOk, NewTableOk, TriedTableOk, RefsOk, CountsOk;
    WithdrawnKeeps(e, s, {}, {}, id);
    CountKeeps(e, Withdrawn(s, id), {} + {id}, {}, id, false);
    assert {} + {id} == {id};
  }

  lemma LiftedReady(e: Env, s: State, id: Id)
    requires RandomOk(s) && NewTableOk(e, s) && TriedTableOk(e, s) && id in s.info
    ensures var s1 := Lifted(e, s, id);
      && RandomOk(s1) && NewTableOk(e, s1) && id in s1.info && s1.HomeOf(e, id) == s.HomeOf(e, id)
      && (s.HomeOf(e, id) in s1.triedTable ==>
            var prior := s1.triedTable[s.HomeOf(e, id)];
            prior in s1.info && s1.info[prior].inTried && s1.HomeOf(e, prior) == s.HomeOf(e, id))
      && (forall slot :: slot in s1.newTable ==> s1.newTable[slot] != id)
  {
    RandomFrame(s, Lifted(e, s, id));
  }

  /** Make the home slot of a lifted id free. */
  function Vacated(e: Env, s: State, id: Id): State
    requires RandomOk(s) && NewTableOk(e, s) && TriedTableOk(e, s) && id in s.info
  {
    var s1, home := Lifted(e, s, id), s.HomeOf(e, id);
    LiftedReady(e, s, id);
    if home in s1.triedTable then Evicted(e, s1, s1.triedTable[home]) else s1
  }

  lemma PromotedSlim(e: Env, s: State, id: Id)
    requires id in s.info
    ensures Slim(s, Promoted(e, s, id))
  {
  }

  lemma LiftedSlim(e: Env, s: State, id: Id)
    requires id in s.info
    ensures Slim(s, Lifted(e, s, id))
  {
  }

  lemma VacatedEffect(e: Env, s: State, id: Id)
    requires RandomOk(s) && NewTableOk(e, s) && TriedTableOk(e, s) && id in s.info && !s.info[id].inTried
    ensures var s' := Vacated(e, s, id);
      && Slim(s, s') && id in s'.info && !s'.info[id].inTried && s'.info[id].refCount == 0
      && s'.HomeOf(e, id) == s.HomeOf(e, id)
      && s'.triedTable == s.triedTable - {s.HomeOf(e, id)}
      && OnlyPromotes(s, s', id)
  {
    hide RandomOk, NewTableOk, TriedTableOk, Evicted;
    var s1, home := Lifted(e, s, id), s.HomeOf(e, id);
    LiftedReady(e, s, id);
    LiftedSlim(e, s, id);
    if home in s1.triedTable {
      var prior := s1.triedTable[home];
      EvictedEffect(e, s1, prior);
      EvictedSlim(e, s1, prior);
      SlimTrans(s, s1, Evicted(e, s1, prior));
    }
  }

  lemma VacatedKeeps(e: Env, s: State, id: Id)
    requires Weak(e, s, {}, {}) && id in s.info && !s.info[id].inTried
    ensures Weak(e, Vacated(e, s, id), {id}, {id})
  {
    hide IndexOk, RandomOk, NewTableOk, TriedTableOk, RefsOk, CountsOk, Evicted;
    var s1, home := Lifted(e, s, id), s.HomeOf(e, id);
    LiftedReady(e, s, id);
    LiftedKeeps(e, s, id);
    if home in s1.triedTable {
      EvictedKeeps(e, s1, {id}, {id}, s1.triedTable[home]);
    }
  }

  /** Move an id from the new table to its home in the tried table; whoever lives there
    * goes back to the new table.
    */
  function MadeTried(e: Env, s: State, id: Id): State
    requires RandomOk(s) && NewTableOk(e, s) && TriedTableOk(e, s) && id in s.info && !s.info[id].inTried
  {
    VacatedEffect(e, s, id);
    Promoted(e, Vacated(e, s, id), id)
  }

  /** The id gets its home; every occupied tried slot stays occupied. */
  lemma MadeTriedEffect(e: Env, s: State, id: Id)
    requires RandomOk(s) && NewTableOk(e, s) && TriedTableOk(e, s) && id in s.info && !s.info[id].inTried
    ensures var s' := MadeTried(e, s, id);
      && Slim(s, s') && OnlyPromotes(s, s', id) && id in s'.info && s'.info[id].inTried
      && s'.triedTable == s.triedTable[s.HomeOf(e, id) := id]
  {
    hide RandomOk, NewTableOk, TriedTableOk, Vacated;
    VacatedEffect(e, s, id);
    PromotedSlim(e, Vacated(e, s, id), id);
    SlimTrans(s, Vacated(e, s, id), MadeTried(e, s, id));
  }

  lemma MadeTriedKeeps(e: Env, s: State, id: Id)
    requires Weak(e, s, {}, {}) && id in s.info && !s.info[id].inTried
    ensures Weak(e, MadeTried(e, s, id), {}, {})
  {
    hide IndexOk, RandomOk, NewTableOk, TriedTableOk, RefsOk, CountsOk, Vacated;
    VacatedEffect(e, s, id);
    VacatedKeeps(e, s, id);
    PromotedKeeps(e, Vacated(e, s, id), {id}, {id}, id);
    assert {id} - {id} == {};
  }

  // ---------- Updating a record ----------

  /** Statistics, flags and times may change; the address, the source and the places may not. */
  ghost predicate SameEntry(i: Info, i': Info) {
    && i'.Service() == i.Service() && i'.source == i.source
    && i'.refCount == i.refCount && i'.inTried == i.inTried && i'.randomPos == i.randomPos
  }

  function Touched(s: State, id: Id, i: Info): State {
    s.(info := s.info[id := i])
  }

  lemma TouchedCounts(e: Env, s: State, u: set<Id>, id: Id, i: Info)
    requires id in s.info && SameEntry(s.info[id], i) && CountsOk(e, s, u)
    ensures CountsOk(e, Touched(s, id, i), u)
  {
    RewriteCounts(e, s, u, Touched(s, id, i), u, id, i);
  }

  lemma TouchedKeeps(e: Env, s: State, p: set<Id>, u: set<Id>, id: Id, i: Info)
    requires Weak(e, s, p, u) && id in s.info && SameEntry(s.info[id], i)
    ensures Weak(e, Touched(s, id, i), p, u)
  {
    hide IndexOk, RandomOk, NewTableOk, TriedTableOk, RefsOk, CountsOk;
    var s' := Touched(s, id, i);
    TouchedCounts(e, s, u, id, i);
    ShapeFrame(s, s');
    TriedFrame(e, s, s');
    NewFrame(e, s, s');
    RefsFrame(s, s', p, p);
  }

  lemma TouchedInv(e: Env, s: State, id: Id, i: Info)
    requires Inv(e, s) && id in s.info && SameEntry(s.info[id], i)
    requires i.lastTry >= 0 && i.lastSuccess >= 0 && (i.inTried ==> i.lastSuccess > 0)
    ensures Inv(e, Touched(s, id, i))
  {
    hide Weak;
    TouchedKeeps(e, s, {}, {}, id, i);
  }

  lemma KnownFacts(e: Env, s: State, a: Service)
    requires Inv(e, s) && a in s.addr
    ensures var id := s.addr[a];
      && id in s.info && s.info[id].Service() == a
      && s.info[id].refCount <= NEW_BUCKETS_PER_ADDRESS
      && s.info[id].lastTry >= 0 && s.info[id].lastSuccess >= 0
      && (s.info[id].inTried ==> s.info[id].lastSuccess > 0)
  {
  }

  // ---------- Add ----------

  function Max(x: int, y: int): int { if x < y then y else x }

  /** Try to give an id a slot for `source`. The result says whether the table changed. */
  function Inserted(e: Env, s: State, id: Id, source: NetAddr, now: int): (State, bool)
    requires RandomOk(s) && NewTableOk(e, s) && id in s.info
  {
    var slot := e.NewSlot(s.key, s.info[id].Service(), source);
    if slot in s.newTable && s.newTable[slot] == id then (s, false)
    else if slot !in s.newTable
         || s.info[s.newTable[slot]].IsTerrible(now)
         || (s.info[s.newTable[slot]].refCount > 1 && s.info[id].refCount == 0)
    then
      ClearedNewEffect(e, s, slot);
      (Placed(ClearedNew(e, s, slot), slot, id), true)
    else if s.info[id].refCount == 0 then (Deleted(e, s, id), false)
    else (s, false)
  }

  lemma InsertedKeeps(e: Env, s: State, p: set<Id>, id: Id, source: NetAddr, now: int)
    requires Weak(e, s, p, {}) && p <= {id} && id in s.info && !s.info[id].inTried
    requires s.info[id].refCount < NEW_BUCKETS_PER_ADDRESS
    ensures Weak(e, Inserted(e, s, id, source, now).0, {}, {})
  {
    var slot := e.NewSlot(s.key, s.info[id].Service(), source);
    if slot in s.newTable && s.newTable[slot] == id {
      assert slot in SlotsOf(s.newTable, id);
    } else {
      var r := Inserted(e, s, id, source, now);
      hide IndexOk, RandomOk, NewTableOk, TriedTableOk, CountsOk;
      if r.1 {
        ClearedPlacedKeeps(e, s, p, {}, slot, id);
      } else if s.info[id].refCount == 0 {
        DeletedKeeps(e, s, p, {}, id);
      }
      assert p - {id} == {};
    }
  }

  lemma InsertedEffect(e: Env, s: State, id: Id, source: NetAddr, now: int)
    requires RandomOk(s) && NewTableOk(e, s) && id in s.info
    ensures var s' := Inserted(e, s, id, source, now).0;
      Slim(s, s') && OnlyPromotes(s, s', id) && s'.triedTable == s.triedTable
      && (id in s'.info ==> s'.info[id].inTried == s.info[id].inTried)
  {
    hide ClearedNew, Deleted, RandomOk, NewTableOk;
    var slot := e.NewSlot(s.key, s.info[id].Service(), source);
    ClearedNewEffect(e, s, slot);
    DeletedEffect(e, s, id);
  }

  lemma InsertedInv(e: Env, s: State, p: set<Id>, id: Id, source: NetAddr, now: int)
    requires Weak(e, s, p, {}) && p <= {id} && TimesOk(s) && CollisionsOk(e, s)
    requires id in s.info && !s.info[id].inTried && s.info[id].refCount < NEW_BUCKETS_PER_ADDRESS
    ensures Inv(e, Inserted(e, s, id, source, now).0)
  {
    hide IndexOk, RandomOk, NewTableOk, TriedTableOk, RefsOk, CountsOk, CollisionsOk, Inserted;
    var s' := Inserted(e, s, id, source, now).0;
    InsertedKeeps(e, s, p, id, source, now);
    InsertedEffect(e, s, id, source, now);
    SlimCollisions(e, s, s');
  }

  /** The record of a known address after it is announced again. */
  function Refreshed(i: Info, a: Address, penalty: int, now: int): Info {
    var interval := if now - a.time < DAY then HOUR else DAY;
    var time := if i.address.time < a.time - interval - penalty then Max(0, a.time - penalty) else i.address.time;
    i.(address := i.address.(time := time, flags := i.address.flags + a.flags))
  }

  /** One announced address. `coin` is the outcome of the 1-in-2^refCount draw, `now` and
    * `later` the two clock readings.
    */
  function AddedSingle(e: Env, s: State, a: Address, source: NetAddr, timePenalty: int,
                       now: int, later: int, coin: bool): (State, bool)
    requires Inv(e, s)
  {
    if !e.routable(a.service.ip) then (s, false)
    else
      var penalty := if a.service.ip == source then 0 else timePenalty;
      if a.service in s.addr then
        var id := s.addr[a.service];
        var i := Refreshed(s.info[id], a, penalty, now);
        var s1 := Touched(s, id, i);
        if a.time <= i.address.time || i.inTried || i.refCount == NEW_BUCKETS_PER_ADDRESS
           || (i.refCount > 0 && !coin)
        then (s1, false)
        else
          TouchedInv(e, s, id, i);
          Inserted(e, s1, id, source, later)
      else
        NewcomerWeak(e, s, a, source, penalty);
        Inserted(e, Newcomer(e, s, a, source, penalty), s.idCount, source, later)
  }

  function Newcomer(e: Env, s: State, a: Address, source: NetAddr, penalty: int): State {
    var s1 := Created(e, s, a, source);
    Touched(s1, s.idCount, s1.info[s.idCount].(address := a.(time := Max(0, a.time - penalty))))
  }

  lemma NewcomerWeak(e: Env, s: State, a: Address, source: NetAddr, penalty: int)
    requires Inv(e, s) && a.service !in s.addr
    ensures Weak(e, Newcomer(e, s, a, source, penalty), {s.idCount}, {})
  {
    var s1, id := Created(e, s, a, source), s.idCount;
    hide IndexOk, RandomOk, NewTableOk, TriedTableOk, RefsOk, CountsOk, TimesOk, CollisionsOk;
    CreatedKeeps(e, s, {}, {}, a, source);
    assert {} + {id} == {id};
    TouchedKeeps(e, s1, {id}, {}, id, s1.info[id].(address := a.(time := Max(0, a.time - penalty))));
  }

  lemma NewcomerFrame(e: Env, s: State, a: Address, source: NetAddr, penalty: int)
    requires Inv(e, s) && a.service !in s.addr
    ensures var s1 := Newcomer(e, s, a, source, penalty); var id := s.idCount;
      && TimesOk(s1) && CollisionsOk(e, s1) && s1.triedTable == s.triedTable && s1.newTable == s.newTable
      && id in s1.info && !s1.info[id].inTried && s1.info[id].refCount == 0 && s1.info[id].Service() == a.service
  {
    hide Weak;
  }

  lemma RefreshedInv(e: Env, s: State, id: Id, a: Address, penalty: int, now: int)
    requires Inv(e, s) && id in s.info
    ensures Inv(e, Touched(s, id, Refreshed(s.info[id], a, penalty, now)))
  {
    TouchedInv(e, s, id, Refreshed(s.info[id], a, penalty, now));
  }

  /** Announcing an address keeps the invariant. */
  lemma AddedSingleInv(e: Env, s: State, a: Address, source: NetAddr, timePenalty: int, now: int, later: int, coin: bool)
    requires Inv(e, s)
    ensures Inv(e, AddedSingle(e, s, a, source, timePenalty, now, later, coin).0)
  {
    hide Weak, TimesOk, CollisionsOk, Inserted, Newcomer;
    var penalty := if a.service.ip == source then 0 else timePenalty;
    if a.service in s.addr {
      var id := s.addr[a.service];
      KnownFacts(e, s, a.service);
      RefreshedInv(e, s, id, a, penalty, now);
      var i := Refreshed(s.info[id], a, penalty, now);
      if !i.inTried && i.refCount < NEW_BUCKETS_PER_ADDRESS {
        InsertedInv(e, Touched(s, id, i), {}, id, source, later);
      }
    } else {
      NewcomerWeak(e, s, a, source, penalty);
      NewcomerFrame(e, s, a, source, penalty);
      InsertedInv(e, Newcomer(e, s, a, source, penalty), {s.idCount}, s.idCount, source, later);
    }
  }

  // ---------- Good ----------

  /** A successful connection. With `testBeforeEvict` an occupied home slot is not taken;
    * the id is remembered as a collision instead.
    */
  function GoodDone(e: Env, s: State, a: Service, testBeforeEvict: bool, time: int): (State, bool)
    requires Inv(e, s) && time > 0
  {
    var s0 := s.(lastGood := time);
    if a !in s.addr then (s0, false)
    else
      var id := s.addr[a];
      var i := Reached(s.info[id], time);
      var s1 := Touched(s0, id, i);
      if i.inTried || i.refCount <= 0 then (s1, false)
      else if testBeforeEvict && s1.HomeOf(e, id) in s1.triedTable then
        (if |s1.collisions| < TRIED_COLLISION_SIZE then s1.(collisions := s1.collisions + {id}) else s1, false)
      else
        ReachedInv(e, s, id, time);
        (MadeTried(e, s1, id), true)
  }

  lemma LastGoodInv(e: Env, s: State, time: int)
    requires Inv(e, s)
    ensures Inv(e, s.(lastGood := time))
  {
    hide CountsOk;
    ReorderedCountsAsIs(e, s, s.(lastGood := time));
  }

  lemma ReorderedCountsAsIs(e: Env, s: State, s': State)
    requires s'.info == s.info && s'.counts == s.counts && s'.nNew == s.nNew && s'.nTried == s.nTried
    requires CountsOk(e, s, {})
    ensures CountsOk(e, s', {})
  {
    forall st ensures Members(s', {}, st) == Members(s, {}, st) {}
    forall st, net ensures MembersOn(e, s', {}, st, net) == MembersOn(e, s, {}, st, net) {}
    forall net ensures s'.CountsOf(net) == s.CountsOf(net) {}
  }

  lemma MadeTriedInv(e: Env, s: State, id: Id)
    requires Inv(e, s) && id in s.info && !s.info[id].inTried && s.info[id].lastSuccess > 0
    ensures Inv(e, MadeTried(e, s, id))
  {
    hide IndexOk, RandomOk, NewTableOk, TriedTableOk, RefsOk, CountsOk, TimesOk, CollisionsOk, MadeTried;
    MadeTriedKeeps(e, s, id);
    MadeTriedEffect(e, s, id);
    SlimTimes(s, MadeTried(e, s, id), id);
    SlimCollisions(e, s, MadeTried(e, s, id));
  }

  /** Only the collision set changed. */
  lemma CollisionsFrame(e: Env, s: State, c: set<Id>)
    requires Inv(e, s) && CollisionsOk(e, s.(collisions := c))
    ensures Inv(e, s.(collisions := c))
  {
    hide CountsOk, CollisionsOk;
    ReorderedCountsAsIs(e, s, s.(collisions := c));
  }

  /** A new collision is remembered only when there is room and the home slot is taken. */
  lemma CollisionAdded(e: Env, s: State, id: Id)
    requires Inv(e, s) && id in s.info && s.HomeOf(e, id) in s.triedTable && |s.collisions| < TRIED_COLLISION_SIZE
    ensures Inv(e, s.(collisions := s.collisions + {id}))
  {
    hide RandomOk, NewTableOk, TriedTableOk, RefsOk, CountsOk, TimesOk;
    CollisionsFrame(e, s, s.collisions + {id});
  }

  lemma CollisionDropped(e: Env, s: State, id: Id)
    requires Inv(e, s)
    ensures Inv(e, s.(collisions := s.collisions - {id}))
  {
    hide Weak, TimesOk;
    assert s.collisions - {id} <= s.collisions;
    CollisionsFrame(e, s, s.collisions - {id});
  }

  /** The record of an address just connected to. */
  function Reached(i: Info, time: int): Info {
    i.(lastSuccess := time, lastTry := time, attempts := 0)
  }

  lemma ReachedInv(e: Env, s: State, id: Id, time: int)
    requires Inv(e, s) && time > 0 && id in s.info
    ensures Inv(e, Touched(s.(lastGood := time), id, Reached(s.info[id], time)))
  {
    hide Weak, TimesOk, CollisionsOk;
    LastGoodInv(e, s, time);
    TouchedInv(e, s.(lastGood := time), id, Reached(s.info[id], time));
  }

  lemma GoodInv(e: Env, s: State, a: Service, testBeforeEvict: bool, time: int)
    requires Inv(e, s) && time > 0
    ensures Inv(e, GoodDone(e, s, a, testBeforeEvict, time).0)
  {
    hide Inv, MadeTried;
    LastGoodInv(e, s, time);
    if a in s.addr {
      KnownFacts(e, s, a);
      var s0, id := s.(lastGood := time), s.addr[a];
      var i := Reached(s.info[id], time);
      var s1 := Touched(s0, id, i);
      ReachedInv(e, s, id, time);
      if i.inTried || i.refCount <= 0 {
      } else if testBeforeEvict && s1.HomeOf(e, id) in s1.triedTable {
        if |s1.collisions| < TRIED_COLLISION_SIZE {
          CollisionAdded(e, s1, id);
        }
      } else {
        MadeTriedInv(e, s1, id);
      }
    }
  }

  // ---------- Attempt, Connected, SetServices ----------

  function Attempted(s: State, a: Service, countFailure: bool, time: int): State
    requires IndexOk(s)
  {
    if a !in s.addr then s
    else
      var id := s.addr[a];
      var i := s.info[id].(lastTry := time);
      Touched(s, id, if countFailure && i.lastCountAttempt < s.lastGood
                     then i.(lastCountAttempt := time, attempts := i.attempts + 1) else i)
  }

  function ConnectedTo(s: State, a: Service, time: int): State
    requires IndexOk(s)
  {
    if a !in s.addr then s
    else
      var i := s.info[s.addr[a]];
      if time - i.address.time > 20 * MINUTE
      then Touched(s, s.addr[a], i.(address := i.address.(time := time))) else s
  }

  function ServicesSet(s: State, a: Service, flags: Flags): State
    requires IndexOk(s)
  {
    if a !in s.addr then s
    else var i := s.info[s.addr[a]]; Touched(s, s.addr[a], i.(address := i.address.(flags := flags)))
  }

  lemma AttemptedInv(e: Env, s: State, a: Service, countFailure: bool, time: int)
    requires Inv(e, s) && time >= 0
    ensures Inv(e, Attempted(s, a, countFailure, time))
  {
    if a in s.addr {
      var id := s.addr[a];
      TouchedInv(e, s, id, Attempted(s, a, countFailure, time).info[id]);
    }
  }

  lemma ConnectedInv(e: Env, s: State, a: Service, time: int)
    requires Inv(e, s)
    ensures Inv(e, ConnectedTo(s, a, time))
  {
    if a in s.addr {
      var id := s.addr[a];
      TouchedInv(e, s, id, ConnectedTo(s, a, time).info[id]);
    }
  }

  lemma ServicesSetInv(e: Env, s: State, a: Service, flags: Flags)
    requires Inv(e, s)
    ensures Inv(e, ServicesSet(s, a, flags))
  {
    if a in s.addr {
      var id := s.addr[a];
      TouchedInv(e, s, id, ServicesSet(s, a, flags).info[id]);
    }
  }

  // ---------- Collisions ----------

  datatype Verdict = Keep | Drop | Replace

  /** What ResolveCollisions decides about one remembered id. */
  function Judge(e: Env, s: State, id: Id, now: int): Verdict
    requires TriedTableOk(e, s)
  {
    if id !in s.info || !e.valid(s.info[id].Service().ip) then Drop
    else if s.HomeOf(e, id) !in s.triedTable then Replace
    else
      var prior := s.info[s.triedTable[s.HomeOf(e, id)]];
      if now - prior.lastSuccess < REPLACEMENT then Drop
      else if now - prior.lastTry < REPLACEMENT then (if now - prior.lastTry > 60 then Replace else Keep)
      else if now - s.info[id].lastSuccess > TEST_WINDOW then Replace
      else Keep
  }

  type PositiveTime = t: int | t > 0 witness 1

  /** Move a remembered id to the tried table after all. */
  function Replaced(e: Env, s: State, id: Id, now: PositiveTime): (s': State)
    requires Inv(e, s) && id in s.info
    ensures Inv(e, s')
  {
    GoodInv(e, s, s.info[id].Service(), false, now);
    GoodDone(e, s, s.info[id].Service(), false, now).0
  }

  function Forgot(e: Env, s: State, id: Id): (s': State)
    requires Inv(e, s)
    ensures Inv(e, s')
  {
    CollisionDropped(e, s, id);
    s.(collisions := s.collisions - {id})
  }

  function ResolvedOne(e: Env, s: State, id: Id, now: PositiveTime): (s': State)
    requires Inv(e, s)
    ensures Inv(e, s')
  {
    match Judge(e, s, id, now)
    case Keep => s
    case Drop => Forgot(e, s, id)
    case Replace => Forgot(e, Replaced(e, s, id, now), id)
  }

  /** Resolve the remembered ids in turn, reading the clock once for each. */
  function Resolved(e: Env, s: State, ids: seq<Id>, clock: seq<PositiveTime>): (s': State)
    requires Inv(e, s) && |clock| == |ids|
    ensures Inv(e, s')
    decreases |ids|
  {
    if ids == [] then s
    else Resolved(e, ResolvedOne(e, s, ids[0], clock[0]), ids[1..], clock[1..])
  }

  /** Selecting a collision only ever forgets an id that no longer exists. */
  function SelectedTried(s: State, pick: Id): State {
    if pick in s.collisions && pick !in s.info then s.(collisions := s.collisions - {pick}) else s
  }

  lemma SelectedTriedInv(e: Env, s: State, pick: Id)
    requires Inv(e, s)
    ensures Inv(e, SelectedTried(s, pick))
    ensures pick in s.collisions && pick in s.info ==>
      s.HomeOf(e, pick) in s.triedTable && s.triedTable[s.HomeOf(e, pick)] in s.info
  {
    hide IndexOk, RandomOk, NewTableOk, RefsOk, CountsOk;
    CollisionDropped(e, s, pick);
  }
}
