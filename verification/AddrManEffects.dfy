/** What the operations of the address manager do, told by the state before and the state
  * after: which slot changes hands and when, who loses a reference, whose record is
  * updated, and that nothing else happens.
  */
module AddrManEffects {
  import opened AddrManTypes
  import opened AddrManInvariant
  import opened AddrManOps
  import opened AddrManRuns

  /** Ids outside `p` keep their whole record, up to their place in the random order, and no
    * id outside `p` appears.
    */
  ghost predicate OthersKept(s: State, s': State, p: set<Id>) {
    && (forall x :: x in s.info && x !in p ==> x in s'.info && s'.info[x] == s.info[x].(randomPos := s'.info[x].randomPos))
    && (forall x :: x in s'.info && x !in p ==> x in s.info)
  }

  ghost function OccupantOf(t: Table, slot: Slot): set<Id> {
    if slot in t then {t[slot]} else {}
  }

  /** Whoever held the new slot has lost one reference, and is gone if that was the last. */
  ghost predicate Displaced(s: State, s': State, slot: Slot)
    requires slot in s.newTable ==> s.newTable[slot] in s.info
  {
    slot in s.newTable ==>
      var o := s.newTable[slot];
      && (o in s'.info <==> s.info[o].refCount != 1)
      && (o in s'.info ==> s'.info[o] == s.info[o].(refCount := s.info[o].refCount - 1, randomPos := s'.info[o].randomPos))
  }

  /** The address of the occupant of a slot, if it is about to lose its last reference. */
  ghost function Ousted(s: State, slot: Slot): set<Service>
    requires slot in s.newTable ==> s.newTable[slot] in s.info
  {
    if slot in s.newTable && s.info[s.newTable[slot]].refCount == 1 then {s.info[s.newTable[slot]].Service()} else {}
  }

  /** Everything that is neither a record, an index of records nor the new table. */
  ghost predicate RestKept(s: State, s': State) {
    s'.key == s.key && s'.triedTable == s.triedTable && s'.lastGood == s.lastGood && s'.collisions == s.collisions
  }

  // ---------- Add ----------

  lemma ClearedNewOccupant(e: Env, s: State, slot: Slot)
    requires RandomOk(s) && NewTableOk(e, s)
    ensures var s' := ClearedNew(e, s, slot);
      && OthersKept(s, s', OccupantOf(s.newTable, slot)) && Displaced(s, s', slot) && RestKept(s, s')
      && s'.newTable == s.newTable - {slot} && s'.addr == s.addr - Ousted(s, slot) && s'.idCount == s.idCount
  {
    ClearedNewEffect(e, s, slot);
    if slot in s.newTable {
      DroppedRandom(s, slot);
      if Dropped(s, slot).info[s.newTable[slot]].refCount == 0 {
        DeletedEffect(e, Dropped(s, slot), s.newTable[slot]);
      }
    }
  }

  /** `id` has taken `slot` from whoever held it, and nothing else has changed. */
  ghost predicate Took(s: State, s': State, slot: Slot, id: Id)
    requires id in s.info && (slot in s.newTable ==> s.newTable[slot] in s.info)
  {
    && s'.newTable == s.newTable[slot := id]
    && id in s'.info && s'.info[id] == s.info[id].(refCount := s.info[id].refCount + 1, randomPos := s'.info[id].randomPos)
    && OthersKept(s, s', OccupantOf(s.newTable, slot) + {id})
    && Displaced(s, s', slot)
    && s'.addr == s.addr - Ousted(s, slot)
    && RestKept(s, s') && s'.idCount == s.idCount
  }

  lemma InsertedTakes(e: Env, s: State, id: Id, source: NetAddr, now: int)
    requires RandomOk(s) && NewTableOk(e, s) && id in s.info
    ensures var r := Inserted(e, s, id, source, now); var slot := e.NewSlot(s.key, s.info[id].Service(), source);
      && (r.1 <==>
            || slot !in s.newTable
            || (s.newTable[slot] != id
                && (s.info[s.newTable[slot]].IsTerrible(now)
                    || (s.info[s.newTable[slot]].refCount > 1 && s.info[id].refCount == 0))))
      && (r.1 ==> Took(s, r.0, slot, id))
      && (!r.1 && s.info[id].refCount > 0 ==> r.0 == s)
      && (!r.1 && s.info[id].refCount == 0 && (slot in s.newTable ==> s.newTable[slot] != id) ==> r.0 == Deleted(e, s, id))
  {
    hide ClearedNew, Deleted, RandomOk, NewTableOk;
    var slot := e.NewSlot(s.key, s.info[id].Service(), source);
    InNewTable(e, s, slot);
    if !(slot in s.newTable && s.newTable[slot] == id) {
      ClearedNewOccupant(e, s, slot);
    }
  }

  lemma InNewTable(e: Env, s: State, slot: Slot)
    requires NewTableOk(e, s)
    ensures slot in s.newTable ==> s.newTable[slot] in s.info
  {
  }

  /** The time recorded for an address announced by `source`. */
  function SeenAt(a: Address, source: NetAddr, timePenalty: int): int {
    if a.service.ip == source then Max(0, a.time) else Max(0, a.time - timePenalty)
  }

  /** An unknown address gets an entry exactly when its slot is free or its occupant can
    * spare it; otherwise no index changes.
    */
  lemma AddedUnknown(e: Env, s: State, a: Address, source: NetAddr, timePenalty: int, now: int, later: int, coin: bool)
    requires Inv(e, s) && e.routable(a.service.ip) && a.service !in s.addr
    ensures var r := AddedSingle(e, s, a, source, timePenalty, now, later, coin);
      var slot := e.NewSlot(s.key, a.service, source);
      && (slot in s.newTable ==> s.newTable[slot] in s.info)
      && (r.1 <==>
            || slot !in s.newTable
            || s.info[s.newTable[slot]].IsTerrible(later)
            || s.info[s.newTable[slot]].refCount > 1)
      && (r.1 ==>
            && r.0.newTable == s.newTable[slot := s.idCount]
            && r.0.addr == (s.addr - Ousted(s, slot))[a.service := s.idCount]
            && s.idCount in r.0.info
            && r.0.info[s.idCount] == Info(a.(time := SeenAt(a, source, timePenalty)), source, 0, 0, 0, 0, 1, false,
                                           r.0.info[s.idCount].randomPos)
            && OthersKept(s, r.0, OccupantOf(s.newTable, slot) + {s.idCount})
            && Displaced(s, r.0, slot))
      && (!r.1 ==>
            r.0.newTable == s.newTable && r.0.addr == s.addr && r.0.info == s.info && r.0.random == s.random)
      && RestKept(s, r.0) && r.0.idCount == s.idCount + 1
  {
    hide IndexOk, RandomOk, TriedTableOk, RefsOk, CountsOk, TimesOk, CollisionsOk, Newcomer, Inserted, Deleted, Took,
         Displaced, Ousted, OthersKept;
    var penalty := if a.service.ip == source then 0 else timePenalty;
    var s1, id, slot := Newcomer(e, s, a, source, penalty), s.idCount, e.NewSlot(s.key, a.service, source);
    NewcomerWeak(e, s, a, source, penalty);
    NewcomerIs(e, s, a, source, penalty);
    InNewTable(e, s, slot);
    InsertedTakes(e, s1, id, source, later);
    var s' := Inserted(e, s1, id, source, later).0;
    NewcomerTakes(s, s1, id, s', slot, a.service);
    if !Inserted(e, s1, id, source, later).1 {
      LastDeleted(e, s1, id);
    }
  }

  lemma NewcomerIs(e: Env, s: State, a: Address, source: NetAddr, penalty: int)
    requires Inv(e, s) && a.service !in s.addr
    ensures var s1, id := Newcomer(e, s, a, source, penalty), s.idCount;
      && id !in s.info && s1.idCount == id + 1 && (forall x :: x in s.info ==> s.info[x].Service() in s.addr)
      && s1.info.Keys == s.info.Keys + {id} && s1.info - {id} == s.info
      && s1.info[id] == FreshInfo(a.(time := Max(0, a.time - penalty)), source, |s.random|)
      && (forall x :: x in s.info ==> s1.info[x] == s.info[x])
      && s1.random == s.random + [id] && s1.addr == s.addr[a.service := id] && s1.addr - {a.service} == s.addr
      && s1.newTable == s.newTable && RestKept(s, s1)
  {
    hide RandomOk, NewTableOk, TriedTableOk, RefsOk, CountsOk;
  }

  /** A slot taken by an entry that has just been created. */
  lemma NewcomerTakes(s: State, s1: State, id: Id, s': State, slot: Slot, a: Service)
    requires id !in s.info && s1.info.Keys == s.info.Keys + {id} && (forall x :: x in s.info ==> s1.info[x] == s.info[x])
    requires s1.newTable == s.newTable && RestKept(s, s1) && (slot in s.newTable ==> s.newTable[slot] in s.info)
    requires s1.addr == s.addr[a := id] && a !in s.addr && (forall x :: x in s.info ==> s.info[x].Service() in s.addr)
    ensures Took(s1, s', slot, id) ==>
      && s'.newTable == s.newTable[slot := id] && s'.addr == (s.addr - Ousted(s, slot))[a := id]
      && id in s'.info && s'.info[id] == s1.info[id].(refCount := s1.info[id].refCount + 1, randomPos := s'.info[id].randomPos)
      && OthersKept(s, s', OccupantOf(s.newTable, slot) + {id}) && Displaced(s, s', slot)
      && RestKept(s, s') && s'.idCount == s1.idCount
  {
    assert forall x :: x in s.info ==> x in s1.info.Keys;
  }

  /** Deleting the entry at the end of the random order moves no other entry. */
  lemma LastDeleted(e: Env, s: State, id: Id)
    requires RandomOk(s) && id in s.info && s.info[id].randomPos == |s.random| - 1
    ensures var s' := Deleted(e, s, id);
      && s'.info == s.info - {id} && s'.random == s.random[..|s.random| - 1] && s'.newTable == s.newTable
      && s'.addr == s.addr - {s.info[id].Service()} && RestKept(s, s') && s'.idCount == s.idCount
  {
  }

  /** The gap by which an announced time must be ahead of the recorded one. */
  function Interval(a: Address, now: int): int {
    if now - a.time < 86400 then 3600 else 86400
  }

  /** A known address has its time and flags updated, and gets one more slot exactly when it
    * is a new entry with a reference to spare, announced with a later time than recorded,
    * the draw succeeds, and the slot is free or held by a terrible entry other than itself.
    */
  lemma AddedKnown(e: Env, s: State, a: Address, source: NetAddr, timePenalty: int, now: int, later: int, coin: bool)
    requires Inv(e, s) && e.routable(a.service.ip) && a.service in s.addr
    ensures var r := AddedSingle(e, s, a, source, timePenalty, now, later, coin);
      var slot, id := e.NewSlot(s.key, a.service, source), s.addr[a.service];
      var i := s.info[id];
      && (slot in s.newTable ==> s.newTable[slot] in s.info)
      && id in r.0.info
      && r.0.info[id] == i.(address := r.0.info[id].address, refCount := r.0.info[id].refCount, randomPos := r.0.info[id].randomPos)
      && r.0.info[id].address == a.(
           time := if i.address.time < a.time - Interval(a, now) - (if a.service.ip == source then 0 else timePenalty)
                   then SeenAt(a, source, timePenalty) else i.address.time,
           flags := i.address.flags + a.flags)
      && (r.1 <==>
            && a.time > r.0.info[id].address.time && !i.inTried && i.refCount < 8 && coin
            && (slot !in s.newTable || (s.newTable[slot] != id && s.info[s.newTable[slot]].IsTerrible(later))))
      && (r.1 ==>
            && r.0.newTable == s.newTable[slot := id] && r.0.addr == s.addr - Ousted(s, slot)
            && r.0.info[id].refCount == i.refCount + 1
            && OthersKept(s, r.0, OccupantOf(s.newTable, slot) + {id}) && Displaced(s, r.0, slot))
      && (!r.1 ==>
            && r.0.newTable == s.newTable && r.0.addr == s.addr && r.0.info[id].refCount == i.refCount
            && OthersKept(s, r.0, {id}))
      && RestKept(s, r.0) && r.0.idCount == s.idCount
  {
    hide RandomOk, TriedTableOk, RefsOk, CountsOk, TimesOk, CollisionsOk, Inserted, Took, Displaced, Ousted, OthersKept;
    var penalty := if a.service.ip == source then 0 else timePenalty;
    var id, slot := s.addr[a.service], e.NewSlot(s.key, a.service, source);
    var i := Refreshed(s.info[id], a, penalty, now);
    var s1 := Touched(s, id, i);
    RefreshedInv(e, s, id, a, penalty, now);
    InsertedTakes(e, s1, id, source, later);
    InNewTable(e, s, slot);
    RefsKnown(e, s, id);
    TouchedKept(s, id, i);
    if slot !in s.newTable || s.newTable[slot] != id {
      TouchedTakes(s, id, i, Inserted(e, s1, id, source, later).0, slot);
    }
  }

  lemma RefsKnown(e: Env, s: State, id: Id)
    requires Inv(e, s) && id in s.info
    ensures s.info[id].refCount <= 8 && (!s.info[id].inTried ==> s.info[id].refCount > 0)
  {
  }

  lemma TouchedKept(s: State, id: Id, i: Info)
    requires id in s.info
    ensures OthersKept(s, Touched(s, id, i), {id})
  {
  }

  /** A slot taken by an entry whose record has just been updated. */
  lemma TouchedTakes(s: State, id: Id, i: Info, s': State, slot: Slot)
    requires id in s.info && (slot in s.newTable ==> s.newTable[slot] in s.info && s.newTable[slot] != id)
    ensures Took(Touched(s, id, i), s', slot, id) ==>
      && s'.newTable == s.newTable[slot := id] && s'.addr == s.addr - Ousted(s, slot)
      && id in s'.info && s'.info[id] == i.(refCount := i.refCount + 1, randomPos := s'.info[id].randomPos)
      && OthersKept(s, s', OccupantOf(s.newTable, slot) + {id}) && Displaced(s, s', slot)
      && RestKept(s, s') && s'.idCount == s.idCount
  {
  }

  /** An address that is not routable changes nothing. */
  lemma AddedUnroutable(e: Env, s: State, a: Address, source: NetAddr, timePenalty: int, now: int, later: int, coin: bool)
    requires Inv(e, s) && !e.routable(a.service.ip)
    ensures AddedSingle(e, s, a, source, timePenalty, now, later, coin) == (s, false)
  {
    hide Inv;
  }

  /** Not tried for a minute, and from the future, or not seen for 30 days, or never reached in
    * three attempts, or not reached for a week and in ten attempts.
    */
  ghost predicate Hopeless(i: Info, now: int) {
    && now > i.lastTry + 60
    && ( || i.address.time > now + 600
         || now > i.address.time + 2592000
         || (i.lastSuccess == 0 && i.attempts >= 3)
         || (now > i.lastSuccess + 604800 && i.attempts >= 10))
  }

  /** An announcement costs another entry its existence only if that entry was hopeless and had
    * no other slot; and an unknown address always takes the slot of such an entry.
    */
  lemma AddedForgets(e: Env, s: State, a: Address, source: NetAddr, timePenalty: int, now: int, later: int, coin: bool, x: Id)
    requires Inv(e, s) && x in s.info
    ensures var s', slot := AddedSingle(e, s, a, source, timePenalty, now, later, coin).0, e.NewSlot(s.key, a.service, source);
      var ousted := slot in s.newTable && s.newTable[slot] == x && s.info[x].refCount == 1 && Hopeless(s.info[x], later);
      && (x !in s'.info ==> ousted)
      && (a.service !in s.addr && e.routable(a.service.ip) ==> (x !in s'.info <==> ousted))
  {
    hide Weak, TimesOk, CollisionsOk, AddedSingle;
    assert s.info[x].IsTerrible(later) <==> Hopeless(s.info[x], later);
    FreshId(e, s, x);
    if !e.routable(a.service.ip) {
      AddedUnroutable(e, s, a, source, timePenalty, now, later, coin);
    } else if a.service in s.addr {
      AddedKnown(e, s, a, source, timePenalty, now, later, coin);
    } else {
      AddedUnknown(e, s, a, source, timePenalty, now, later, coin);
    }
  }

  lemma FreshId(e: Env, s: State, x: Id)
    requires Inv(e, s) && x in s.info
    ensures x != s.idCount && s.info[x].refCount >= 0
  {
  }

  // ---------- Good ----------

  /** What moving an id to the tried table does to the new table and to who lived at home. */
  ghost predicate Moved(e: Env, s: State, s': State, id: Id)
    requires id in s.info
  {
    var home := s.HomeOf(e, id);
    && s'.key == s.key && s'.triedTable == s.triedTable[home := id]
    && id in s'.info && s'.info[id].inTried && s'.info[id].refCount == 0
    && (forall slot :: slot in s'.newTable ==> s'.newTable[slot] != id)
    && (home !in s.triedTable ==> s'.newTable == s.newTable - SlotsOf(s.newTable, id))
    && (home in s.triedTable && s.triedTable[home] in s.info ==>
          var prior := s.triedTable[home];
          && s'.newTable == (s.newTable - SlotsOf(s.newTable, id))[
                              e.NewSlot(s.key, s.info[prior].Service(), s.info[prior].source) := prior]
          && prior in s'.info && !s'.info[prior].inTried && s'.info[prior].refCount == 1)
    && (forall x :: x in s'.info && x != id ==>
          && x in s.info
          && s'.info[x] == s.info[x].(refCount := s'.info[x].refCount, inTried := s'.info[x].inTried,
                                      randomPos := s'.info[x].randomPos))
  }

  lemma MadeTriedMoves(e: Env, s: State, id: Id)
    requires Inv(e, s) && id in s.info && !s.info[id].inTried
    ensures Moved(e, s, MadeTried(e, s, id), id)
  {
    hide RandomOk, NewTableOk, CountsOk, Vacated;
    VacatedEffect(e, s, id);
    VacatedMoves(e, s, id);
    MadeTriedEffect(e, s, id);
  }

  lemma VacatedMoves(e: Env, s: State, id: Id)
    requires Inv(e, s) && id in s.info && !s.info[id].inTried
    ensures var s', home := Vacated(e, s, id), s.HomeOf(e, id);
      && id in s'.info && s'.info[id].refCount == 0
      && (home !in s.triedTable ==> s'.newTable == s.newTable - SlotsOf(s.newTable, id))
      && (home in s.triedTable ==>
            var prior := s.triedTable[home];
            && prior in s.info && prior != id
            && s'.newTable == (s.newTable - SlotsOf(s.newTable, id))[DefaultSlot(e, s, prior) := prior]
            && prior in s'.info && !s'.info[prior].inTried && s'.info[prior].refCount == 1)
  {
    hide RandomOk, NewTableOk, CountsOk, Evicted;
    var s1, home := Lifted(e, s, id), s.HomeOf(e, id);
    LiftedReady(e, s, id);
    VacatedEffect(e, s, id);
    if home in s1.triedTable {
      EvictedEffect(e, s1, s1.triedTable[home]);
    }
  }

  lemma MovedFrame(e: Env, s: State, id: Id, time: int, s': State)
    requires id in s.info && !s.info[id].inTried && TriedTableOk(e, s)
    requires Moved(e, Touched(s.(lastGood := time), id, Reached(s.info[id], time)), s', id)
    ensures Moved(e, s, s', id)
  {
  }

  lemma ReachedMoves(e: Env, s: State, id: Id, time: int)
    requires Inv(e, s) && time > 0 && id in s.info && !s.info[id].inTried
    ensures var s1 := Touched(s.(lastGood := time), id, Reached(s.info[id], time));
      && Inv(e, s1)
      && var s' := MadeTried(e, s1, id);
      && id in s'.info && Moved(e, s, s', id) && s'.lastGood == time && s'.collisions == s.collisions
      && s'.info[id] == Reached(s.info[id], time).(refCount := s'.info[id].refCount, inTried := s'.info[id].inTried,
                                                   randomPos := s'.info[id].randomPos)
  {
    hide Weak, TimesOk, CollisionsOk, MadeTried;
    var s1 := Touched(s.(lastGood := time), id, Reached(s.info[id], time));
    ReachedInv(e, s, id, time);
    InvReady(e, s);
    InvReady(e, s1);
    MadeTriedEffect(e, s1, id);
    MadeTriedMoves(e, s1, id);
    MovedFrame(e, s, id, time, MadeTried(e, s1, id));
  }

  /** A success moves a known new entry to the tried table exactly when its home is free or
    * need not be tested first, and otherwise remembers it while there is room. The entry that
    * lived there ends with one reference, at its default slot.
    */
  lemma GoodEffect(e: Env, s: State, a: Service, testBeforeEvict: bool, time: int)
    requires Inv(e, s) && time > 0
    ensures var r := GoodDone(e, s, a, testBeforeEvict, time);
      && (r.1 <==> a in s.addr && !s.info[s.addr[a]].inTried && (!testBeforeEvict || e.Home(s.key, a) !in s.triedTable))
      && r.0.lastGood == time
      && (a !in s.addr ==> r.0 == s.(lastGood := time))
      && (a in s.addr ==>
            var id := s.addr[a];
            && id in r.0.info
            && r.0.info[id] == s.info[id].(lastSuccess := time, lastTry := time, attempts := 0,
                 refCount := r.0.info[id].refCount, inTried := r.0.info[id].inTried, randomPos := r.0.info[id].randomPos)
            && (r.1 ==> Moved(e, s, r.0, id) && r.0.collisions == s.collisions)
            && (!r.1 ==>
                  && r.0.newTable == s.newTable && r.0.triedTable == s.triedTable && r.0.addr == s.addr
                  && OthersKept(s, r.0, {id})
                  && r.0.info[id].refCount == s.info[id].refCount && r.0.info[id].inTried == s.info[id].inTried
                  && r.0.collisions == if !s.info[id].inTried && |s.collisions| < 10 then s.collisions + {id} else s.collisions))
  {
    hide Weak, TimesOk, CollisionsOk, MadeTried, Moved;
    if a in s.addr {
      KnownFacts(e, s, a);
      var id := s.addr[a];
      RefsKnown(e, s, id);
      ReachedInv(e, s, id, time);
      TouchedKept(s, id, Reached(s.info[id], time));
      if !s.info[id].inTried {
        ReachedMoves(e, s, id, time);
      }
    }
  }

  // ---------- Collisions ----------

  /** The conditions under which a remembered entry takes its home from `prior`. */
  predicate Gives(prior: Info, newcomer: Info, now: int) {
    && now - prior.lastSuccess >= 14400
    && ( || 60 < now - prior.lastTry < 14400
         || (now - prior.lastTry >= 14400 && now - newcomer.lastSuccess > 2400))
  }

  /** The conditions under which it waits: the test has just begun or is still to come. */
  predicate Waits(prior: Info, newcomer: Info, now: int) {
    && now - prior.lastSuccess >= 14400
    && ( || now - prior.lastTry <= 60
         || (now - prior.lastTry >= 14400 && now - newcomer.lastSuccess <= 2400))
  }

  /** The home of a remembered id changes hands exactly when its occupant has to give way;
    * the id stays remembered exactly while the test is open; no table changes otherwise.
    */
  lemma ResolvedOneEffect(e: Env, s: State, id: Id, now: PositiveTime)
    requires Inv(e, s) && id in s.collisions
    ensures var s' := ResolvedOne(e, s, id, now);
      var known := id in s.info && e.valid(s.info[id].Service().ip);
      && (known ==> s.HomeOf(e, id) in s.triedTable && s.triedTable[s.HomeOf(e, id)] in s.info)
      && (if known && !s.info[id].inTried && Gives(s.info[s.triedTable[s.HomeOf(e, id)]], s.info[id], now)
          then Moved(e, s, s', id) && s'.info[id].lastSuccess == now
          else s'.newTable == s.newTable && s'.triedTable == s.triedTable && s'.addr == s.addr)
      && s'.collisions ==
           if known && Waits(s.info[s.triedTable[s.HomeOf(e, id)]], s.info[id], now) then s.collisions
           else s.collisions - {id}
  {
    hide RandomOk, NewTableOk, RefsOk, CountsOk, TimesOk, GoodDone, Moved;
    if id in s.info && Judge(e, s, id, now) == Replace {
      GoodEffect(e, s, s.info[id].Service(), false, now);
      ForgotMoves(e, s, Replaced(e, s, id, now), id);
    }
  }

  lemma ForgotMoves(e: Env, s: State, s': State, id: Id)
    requires id in s.info && Inv(e, s')
    ensures Moved(e, s, Forgot(e, s', id), id) <==> Moved(e, s, s', id)
  {
    hide Inv;
  }

  /** Selecting a collision forgets exactly a remembered id that no longer exists. */
  lemma SelectedTriedEffect(s: State, pick: Id)
    ensures var s' := SelectedTried(s, pick);
      && s' == s.(collisions := s'.collisions)
      && (forall id :: id in s'.collisions <==> id in s.collisions && (id == pick ==> id in s.info))
  {
  }

  // ---------- Attempts and connections ----------

  /** An attempt touches the record of a known address only. It is counted as a failure
    * exactly when asked for and not yet counted since the last success anywhere, so a second
    * one is not counted before another success.
    */
  lemma AttemptedEffect(e: Env, s: State, a: Service, countFailure: bool, time: int, again: int)
    requires Inv(e, s)
    ensures var s' := Attempted(s, a, countFailure, time);
      && s' == s.(info := s'.info)
      && (a !in s.addr ==> s'.info == s.info)
      && (a in s.addr ==>
            var id := s.addr[a];
            && s'.info.Keys == s.info.Keys && (forall x :: x in s.info && x != id ==> s'.info[x] == s.info[x])
            && s'.info[id] == s.info[id].(lastTry := time, lastCountAttempt := s'.info[id].lastCountAttempt,
                                          attempts := s'.info[id].attempts)
            && (if countFailure && s.info[id].lastCountAttempt < s.lastGood
                then s'.info[id].attempts == s.info[id].attempts + 1 && s'.info[id].lastCountAttempt == time
                else s'.info[id].attempts == s.info[id].attempts
                     && s'.info[id].lastCountAttempt == s.info[id].lastCountAttempt)
            && (countFailure && time >= s.lastGood ==>
                  IndexOk(s') && Attempted(s', a, true, again).info[id].attempts == s'.info[id].attempts))
  {
    hide RandomOk, NewTableOk, TriedTableOk, RefsOk, CountsOk;
    IndexFrame(s, Attempted(s, a, countFailure, time));
  }

  /** A connection refreshes the time of a known address that is more than 20 minutes old,
    * and setting services replaces its flags; neither touches anything else.
    */
  lemma ConnectedEffect(e: Env, s: State, a: Service, time: int, flags: Flags)
    requires Inv(e, s)
    ensures var c, f := ConnectedTo(s, a, time), ServicesSet(s, a, flags);
      && c == s.(info := c.info) && f == s.(info := f.info)
      && (a !in s.addr ==> c.info == s.info && f.info == s.info)
      && (a in s.addr ==>
            var id := s.addr[a];
            var i := s.info[id];
            && c.info.Keys == s.info.Keys == f.info.Keys
            && (forall x :: x in s.info && x != id ==> c.info[x] == s.info[x] == f.info[x])
            && c.info[id] == i.(address := i.address.(time := c.info[id].address.time))
            && c.info[id].address.time == (if i.address.time + 1200 < time then time else i.address.time)
            && f.info[id] == i.(address := i.address.(flags := flags)))
  {
    hide RandomOk, NewTableOk, TriedTableOk, RefsOk, CountsOk;
  }

  // ---------- Lists of operations ----------

  /** Adding lists one after the other is adding them joined; the counts add up. */
  lemma {:induction false} AddedAllJoins(e: Env, s: State, xs: seq<Announcement>, ys: seq<Announcement>, source: NetAddr, penalty: int)
    requires Inv(e, s)
    ensures var r := AddedAll(e, s, xs, source, penalty);
      var r' := AddedAll(e, r.0, ys, source, penalty);
      AddedAll(e, s, xs + ys, source, penalty) == (r'.0, r.1 + r'.1)
  {
    hide Inv, AddedSingle;
    if ys == [] {
      assert xs + ys == xs;
    } else {
      var n := |ys| - 1;
      AddedAllJoins(e, s, xs, ys[..n], source, penalty);
      var zs := xs + ys;
      assert zs[..|zs| - 1] == xs + ys[..n] && zs[|zs| - 1] == ys[n];
    }
  }

  lemma AddedAllOne(e: Env, s: State, x: Announcement, source: NetAddr, penalty: int)
    requires Inv(e, s)
    ensures var r := AddedSingle(e, s, x.a, source, penalty, x.now, x.later, x.coin);
      AddedAll(e, s, [x], source, penalty) == (r.0, if r.1 then 1 else 0)
  {
    hide Inv, AddedSingle;
    assert [x][..0] == [];
    assert AddedAll(e, s, [], source, penalty) == (s, 0);
  }

  lemma {:induction false} ResolvedJoins(e: Env, s: State, xs: seq<Id>, ys: seq<Id>, xClock: seq<PositiveTime>, yClock: seq<PositiveTime>)
    requires Inv(e, s) && |xClock| == |xs| && |yClock| == |ys|
    ensures Resolved(e, s, xs + ys, xClock + yClock) == Resolved(e, Resolved(e, s, xs, xClock), ys, yClock)
    decreases |xs|
  {
    hide Inv, ResolvedOne;
    var zs, clock := xs + ys, xClock + yClock;
    if xs == [] {
      assert zs == ys && clock == yClock;
    } else {
      assert zs[1..] == xs[1..] + ys && clock[1..] == xClock[1..] + yClock && zs[0] == xs[0] && clock[0] == xClock[0];
      ResolvedJoins(e, ResolvedOne(e, s, xs[0], xClock[0]), xs[1..], ys, xClock[1..], yClock);
    }
  }

  // ---------- Runs ----------

  /** What is remembered still waits: it is not in the tried table. And only routable
    * addresses are known.
    */
  ghost predicate Orderly(e: Env, s: State) {
    && (forall id :: id in s.collisions && id in s.info ==> !s.info[id].inTried)
    && (forall id :: id in s.info ==> e.routable(s.info[id].Service().ip))
  }

  lemma SlimOrderly(e: Env, s: State, s': State, id: Id)
    requires Orderly(e, s) && Slim(s, s') && OnlyPromotes(s, s', id)
    requires id in s'.info ==> s'.info[id].inTried == s.info[id].inTried
    ensures Orderly(e, s')
  {
  }

  lemma NewcomerOrderly(e: Env, s: State, a: Address, source: NetAddr, penalty: int)
    requires Inv(e, s) && Orderly(e, s) && e.routable(a.service.ip)
    ensures Orderly(e, Newcomer(e, s, a, source, penalty))
  {
    hide Weak;
  }

  lemma AddedSingleOrderly(e: Env, s: State, x: Announcement, source: NetAddr, timePenalty: int)
    requires Inv(e, s) && Orderly(e, s)
    ensures Orderly(e, AddedSingle(e, s, x.a, source, timePenalty, x.now, x.later, x.coin).0)
  {
    hide Inv, Inserted, Newcomer, Slim, OnlyPromotes;
    var penalty := if x.a.service.ip == source then 0 else timePenalty;
    if x.a.service in s.addr {
      var id := s.addr[x.a.service];
      KnownFacts(e, s, x.a.service);
      var i := Refreshed(s.info[id], x.a, penalty, x.now);
      RefreshedInv(e, s, id, x.a, penalty, x.now);
      InvReady(e, Touched(s, id, i));
      InsertedEffect(e, Touched(s, id, i), id, source, x.later);
      SlimOrderly(e, Touched(s, id, i), Inserted(e, Touched(s, id, i), id, source, x.later).0, id);
    } else if e.routable(x.a.service.ip) {
      var s1 := Newcomer(e, s, x.a, source, penalty);
      NewcomerOrderly(e, s, x.a, source, penalty);
      NewcomerWeak(e, s, x.a, source, penalty);
      NewcomerFrame(e, s, x.a, source, penalty);
      InsertedEffect(e, s1, s.idCount, source, x.later);
      SlimOrderly(e, s1, Inserted(e, s1, s.idCount, source, x.later).0, s.idCount);
    }
  }

  lemma {:induction false} AddedAllOrderly(e: Env, s: State, anns: seq<Announcement>, source: NetAddr, penalty: int)
    requires Inv(e, s) && Orderly(e, s)
    ensures Orderly(e, AddedAll(e, s, anns, source, penalty).0)
  {
    hide Inv, AddedSingle, Orderly;
    if anns != [] {
      var n := |anns| - 1;
      AddedAllOrderly(e, s, anns[..n], source, penalty);
      AddedSingleOrderly(e, AddedAll(e, s, anns[..n], source, penalty).0, anns[n], source, penalty);
    }
  }

  lemma MovedOrderly(e: Env, s: State, s': State, id: Id)
    requires Orderly(e, s) && TriedTableOk(e, s) && TriedTableOk(e, s') && id in s.info && Moved(e, s, s', id)
    requires id in s'.info && s'.info[id].Service() == s.info[id].Service()
    requires s'.collisions <= s.collisions - {id}
    ensures Orderly(e, s')
  {
  }

  lemma GoodOrderly(e: Env, s: State, a: Service, testBeforeEvict: bool, time: int, forget: set<Id>)
    requires Inv(e, s) && Orderly(e, s) && time > 0
    requires a in s.addr && !testBeforeEvict ==> s.addr[a] in forget
    ensures var s' := GoodDone(e, s, a, testBeforeEvict, time).0; Orderly(e, s'.(collisions := s'.collisions - forget))
  {
    hide RandomOk, NewTableOk, RefsOk, CountsOk, TimesOk, GoodDone, Moved;
    var r := GoodDone(e, s, a, testBeforeEvict, time);
    GoodEffect(e, s, a, testBeforeEvict, time);
    GoodInv(e, s, a, testBeforeEvict, time);
    if r.1 {
      var s' := r.0.(collisions := r.0.collisions - forget);
      CollisionsMoved(e, s, r.0, s', s.addr[a]);
      MovedOrderly(e, s, s', s.addr[a]);
    }
  }

  lemma CollisionsMoved(e: Env, s: State, s': State, t: State, id: Id)
    requires id in s.info && Moved(e, s, s', id) && t == s'.(collisions := t.collisions) && TriedTableOk(e, s')
    ensures Moved(e, s, t, id) && TriedTableOk(e, t)
  {
  }

  lemma ResolvedOneOrderly(e: Env, s: State, id: Id, now: PositiveTime)
    requires Inv(e, s) && Orderly(e, s)
    ensures Orderly(e, ResolvedOne(e, s, id, now))
  {
    hide RandomOk, NewTableOk, RefsOk, CountsOk, TimesOk, CollisionsOk, GoodDone;
    if id in s.info {
      GoodOrderly(e, s, s.info[id].Service(), false, now, {id});
    }
  }

  lemma {:induction false} ResolvedOrderly(e: Env, s: State, ids: seq<Id>, clock: seq<PositiveTime>)
    requires Inv(e, s) && Orderly(e, s) && |clock| == |ids|
    ensures Orderly(e, Resolved(e, s, ids, clock))
    decreases |ids|
  {
    hide Inv, ResolvedOne, Orderly;
    if ids != [] {
      ResolvedOneOrderly(e, s, ids[0], clock[0]);
      ResolvedOrderly(e, ResolvedOne(e, s, ids[0], clock[0]), ids[1..], clock[1..]);
    }
  }

  lemma StepOrderly(e: Env, s: State, op: Op, s': State)
    requires Inv(e, s) && Step(e, s, op, s') && Orderly(e, s)
    ensures Orderly(e, s')
  {
    hide RandomOk, NewTableOk, TriedTableOk, RefsOk, CountsOk, TimesOk, CollisionsOk, AddedAll, GoodDone, Resolved;
    match op
    case Add(anns, source, penalty) => AddedAllOrderly(e, s, anns, source, penalty);
    case Good(a, time) =>
      GoodOrderly(e, s, a, true, time, {});
      assert s' == s'.(collisions := s'.collisions - {});
    case Attempt(_, _, _) =>
    case Connected(_, _) =>
    case SetServices(_, _) =>
    case ResolveCollisions(ids, clock) => ResolvedOrderly(e, s, ids, clock);
    case SelectTriedCollision(_) =>
    case GetAddr =>
  }

  /** In every run only routable addresses are known, and no remembered entry is tried. */
  lemma {:induction false} RunOrderly(e: Env, key: Key, ops: seq<Op>, states: seq<State>, i: nat)
    requires IsRun(e, key, ops, states) && i < |states|
    ensures Orderly(e, states[i])
  {
    hide Inv, Step;
    if i > 0 {
      RunOrderly(e, key, ops, states, i - 1);
      RunInv(e, key, ops, states, i - 1);
      StepOrderly(e, states[i - 1], ops[i - 1], states[i]);
    }
  }
}
