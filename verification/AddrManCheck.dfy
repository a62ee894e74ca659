/** The run-time consistency check, on an arbitrary manager: what it accepts exactly, and
  * what that implies.
  */
module AddrManCheck {
  import opened AddrManTypes
  import opened AddrManInvariant
  import opened AddrManClass

  /** An order in which an unordered container may be walked. */
  ghost predicate Enumerates<T>(order: seq<T>, keys: set<T>) {
    && (forall i, j :: 0 <= i < j < |order| ==> order[i] != order[j])
    && (forall i :: 0 <= i < |order| ==> order[i] in keys)
    && (forall k :: k in keys ==> k in order)
  }

  // ---------- What the check looks at ----------

  predicate EntryChecked(s: State, id: Id)
    requires id in s.info
  {
    var i := s.info[id];
    && (if i.inTried then i.lastSuccess != 0 && i.refCount == 0 else 1 <= i.refCount <= NEW_BUCKETS_PER_ADDRESS)
    && i.Service() in s.addr && s.addr[i.Service()] == id
    && 0 <= i.randomPos < |s.random| && s.random[i.randomPos] == id
    && i.lastTry >= 0
    && i.lastSuccess >= 0
  }

  ghost predicate TriedChecked(e: Env, s: State) {
    && (forall slot :: slot in s.triedTable ==>
          s.triedTable[slot] in Members(s, {}, InTried) && slot == s.HomeOf(e, s.triedTable[slot]))
    && (forall id :: id in Members(s, {}, InTried) ==>
          s.HomeOf(e, id) in s.triedTable && s.triedTable[s.HomeOf(e, id)] == id)
  }

  ghost predicate NewChecked(e: Env, s: State) {
    && (forall slot :: slot in s.newTable ==>
          && s.newTable[slot] in Members(s, {}, InNew)
          && slot.pos == e.position(s.key, true, slot.bucket, s.info[s.newTable[slot]].Service()))
    && (forall id :: id in Members(s, {}, InNew) ==> |SlotsOf(s.newTable, id)| == s.info[id].refCount)
  }

  ghost function LocalCounts(e: Env, s: State, net: Network): Counts {
    Counts(|MembersOn(e, s, {}, InNew, net)|, |MembersOn(e, s, {}, InTried, net)|)
  }

  ghost function Networks(e: Env, s: State): set<Network> {
    set id | id in s.info :: s.NetworkOf(e, id)
  }

  /** Only networks that have a counter are compared. */
  ghost predicate CountersChecked(e: Env, s: State) {
    && |s.counts| >= |Networks(e, s)|
    && (forall net :: net in s.counts ==> s.counts[net] == LocalCounts(e, s, net))
  }

  ghost predicate Checked(e: Env, s: State) {
    && |s.random| == s.nTried + s.nNew
    && (forall id :: id in s.info ==> EntryChecked(s, id))
    && s.nTried == |Members(s, {}, InTried)|
    && s.nNew == |Members(s, {}, InNew)|
    && TriedChecked(e, s)
    && NewChecked(e, s)
    && s.key != 0
    && CountersChecked(e, s)
  }

  // ---------- Entries ----------

  /** What the walk over mapInfo has gathered from the ids in `done`. */
  ghost predicate Gathered(s: State, done: set<Id>, setTried: set<Id>, mapNew: map<Id, int>) {
    && setTried == (set id | id in done && id in Members(s, {}, InTried))
    && mapNew == (map id | id in done && id in Members(s, {}, InNew) :: s.info[id].refCount)
  }

  ghost predicate GatheredLocal(e: Env, s: State, done: set<Id>, local: map<Network, Counts>) {
    && local.Keys == (set id | id in done && id in s.info :: s.NetworkOf(e, id))
    && (forall net :: net in local ==> local[net] == CountsIn(e, s, done, net))
  }

  ghost function CountsIn(e: Env, s: State, done: set<Id>, net: Network): Counts {
    Counts(|MembersOn(e, s, {}, InNew, net) * done|, |MembersOn(e, s, {}, InTried, net) * done|)
  }

  function Bump(local: map<Network, Counts>, net: Network, dNew: int, dTried: int): map<Network, Counts> {
    var c := if net in local then local[net] else Counts(0, 0);
    local[net := Counts(c.nNew + dNew, c.nTried + dTried)]
  }

  lemma GatheredStep(s: State, done: set<Id>, setTried: set<Id>, mapNew: map<Id, int>, id: Id)
    requires Gathered(s, done, setTried, mapNew) && id in s.info && id !in done
    ensures var t := s.info[id].inTried;
      Gathered(s, done + {id}, if t then setTried + {id} else setTried,
               if t then mapNew else mapNew[id := s.info[id].refCount])
  {
  }

  lemma MembersOnGrow(e: Env, s: State, done: set<Id>, id: Id, st: Standing, net: Network)
    requires id in s.info && id !in done && st != Uncounted
    ensures |MembersOn(e, s, {}, st, net) * (done + {id})| == |MembersOn(e, s, {}, st, net) * done|
         + One(s.NetworkOf(e, id) == net && StandingOf(s, {}, id) == st)
  {
    var m := MembersOn(e, s, {}, st, net);
    assert m * (done + {id}) == (m * done) + (if id in m then {id} else {});
  }

  lemma CountsInGrow(e: Env, s: State, done: set<Id>, id: Id, net: Network)
    requires id in s.info && id !in done
    ensures var c, t := CountsIn(e, s, done, net), s.info[id].inTried;
      CountsIn(e, s, done + {id}, net) ==
        if s.NetworkOf(e, id) != net then c else Counts(c.nNew + One(!t), c.nTried + One(t))
  {
    MembersOnGrow(e, s, done, id, InNew, net);
    MembersOnGrow(e, s, done, id, InTried, net);
  }

  lemma CountsInNone(e: Env, s: State, done: set<Id>, net: Network)
    requires forall id :: id in done && id in s.info ==> s.NetworkOf(e, id) != net
    ensures CountsIn(e, s, done, net) == Counts(0, 0)
  {
    assert MembersOn(e, s, {}, InNew, net) * done == {};
    assert MembersOn(e, s, {}, InTried, net) * done == {};
  }

  lemma GatheredLocalStep(e: Env, s: State, done: set<Id>, local: map<Network, Counts>, id: Id)
    requires GatheredLocal(e, s, done, local) && id in s.info && id !in done
    ensures var t := s.info[id].inTried;
      GatheredLocal(e, s, done + {id}, Bump(local, s.NetworkOf(e, id), One(!t), One(t)))
  {
    hide CountsIn;
    var t, here := s.info[id].inTried, s.NetworkOf(e, id);
    var local' := Bump(local, here, One(!t), One(t));
    if here !in local {
      CountsInNone(e, s, done, here);
    }
    forall net | net in local' ensures local'[net] == CountsIn(e, s, done + {id}, net) {
      CountsInGrow(e, s, done, id, net);
    }
  }

  method CheckEntry(m: AddrMan, n: Id) returns (code: int)
    requires n in m.mapInfo
    ensures code == 0 <==> EntryChecked(m.S(), n)
  {
    hide TableOf;
    var info := m.mapInfo[n];
    if info.inTried {
      if info.lastSuccess == 0 { return -1; }
      if info.refCount != 0 { return -2; }
    } else {
      if info.refCount < 0 || info.refCount > NEW_BUCKETS_PER_ADDRESS { return -3; }
      if info.refCount == 0 { return -4; }
    }
    if info.Service() !in m.mapAddr || m.mapAddr[info.Service()] != n { return -5; }
    if info.randomPos < 0 || info.randomPos >= |m.vRandom| || m.vRandom[info.randomPos] != n { return -14; }
    if info.lastTry < 0 { return -6; }
    if info.lastSuccess < 0 { return -8; }
    return 0;
  }

  method CheckEntries(m: AddrMan, order: seq<Id>)
    returns (code: int, setTried: set<Id>, mapNew: map<Id, int>, local: map<Network, Counts>)
    requires Enumerates(order, m.mapInfo.Keys)
    ensures code == 0 <==> forall id :: id in m.mapInfo ==> EntryChecked(m.S(), id)
    ensures code == 0 ==> Gathered(m.S(), m.mapInfo.Keys, setTried, mapNew)
    ensures code == 0 ==> GatheredLocal(m.e, m.S(), m.mapInfo.Keys, local)
  {
    hide TableOf, EntryChecked, Gathered, GatheredLocal;
    ghost var s := m.S();
    ghost var done: set<Id> := {};
    setTried, mapNew, local := {}, map[], map[];
    GatheredNothing(m.e, s);
    var k := 0;
    while k < |order|
      invariant 0 <= k <= |order|
      invariant done == set i | 0 <= i < k :: order[i]
      invariant forall i :: 0 <= i < k ==> EntryChecked(s, order[i])
      invariant Gathered(s, done, setTried, mapNew) && GatheredLocal(m.e, s, done, local)
    {
      var n := order[k];
      code := CheckEntry(m, n);
      if code != 0 { return; }
      var t := m.mapInfo[n].inTried;
      GatheredStep(s, done, setTried, mapNew, n);
      GatheredLocalStep(m.e, s, done, local, n);
      if t {
        setTried := setTried + {n};
      } else {
        mapNew := mapNew[n := m.mapInfo[n].refCount];
      }
      local := Bump(local, m.e.networkOf(m.mapInfo[n].Service().ip), One(!t), One(t));
      done := done + {n};
      k := k + 1;
    }
    assert done == m.mapInfo.Keys;
    code := 0;
  }

  lemma GatheredNothing(e: Env, s: State)
    ensures Gathered(s, {}, {}, map[]) && GatheredLocal(e, s, {}, map[])
  {
  }

  // ---------- The tried table ----------

  /** Slots already walked when the walk stands at bucket `n`, position `i`. */
  predicate Before(slot: Slot, n: nat, i: nat) {
    slot.bucket < n || (slot.bucket == n && slot.pos < i)
  }

  /** Found at home among the slots already walked. */
  ghost predicate Seen(e: Env, s: State, id: Id, n: nat, i: nat)
    requires id in s.info
  {
    var home := s.HomeOf(e, id);
    home in s.triedTable && s.triedTable[home] == id && Before(home, n, i)
  }

  ghost predicate TriedWalked(e: Env, s: State, rest: set<Id>, n: nat, i: nat) {
    && (forall slot :: slot in s.triedTable && Before(slot, n, i) ==>
          s.triedTable[slot] in Members(s, {}, InTried) && slot == s.HomeOf(e, s.triedTable[slot]))
    && rest <= Members(s, {}, InTried)
    && (forall id :: id in Members(s, {}, InTried) ==> (id in rest <==> !Seen(e, s, id, n, i)))
  }

  lemma TriedWalkEmpty(e: Env, s: State, rest: set<Id>, n: nat, i: nat)
    requires TriedWalked(e, s, rest, n, i) && Slot(n, i) !in s.triedTable
    ensures TriedWalked(e, s, rest, n, i + 1)
  {
    assert forall slot :: Before(slot, n, i + 1) ==> Before(slot, n, i) || slot == Slot(n, i);
  }

  lemma TriedWalkStep(e: Env, s: State, rest: set<Id>, n: nat, i: nat)
    requires TriedWalked(e, s, rest, n, i) && Slot(n, i) in s.triedTable
    requires var id := s.triedTable[Slot(n, i)]; id in rest && Slot(n, i) == s.HomeOf(e, id)
    ensures TriedWalked(e, s, rest - {s.triedTable[Slot(n, i)]}, n, i + 1)
  {
    assert forall slot :: Before(slot, n, i + 1) ==> Before(slot, n, i) || slot == Slot(n, i);
  }

  /** A tried slot whose occupant is not left over is a fault. */
  lemma TriedWalkFault(e: Env, s: State, rest: set<Id>, n: nat, i: nat)
    requires TriedWalked(e, s, rest, n, i) && Slot(n, i) in s.triedTable
    requires var id := s.triedTable[Slot(n, i)];
      id !in rest || id !in s.info || s.HomeOf(e, id) != Slot(n, i)
    ensures !TriedChecked(e, s)
  {
    var id := s.triedTable[Slot(n, i)];
    assert TriedChecked(e, s) ==> id in Members(s, {}, InTried);
  }

  lemma TriedRowDone(e: Env, s: State, rest: set<Id>, n: nat)
    requires TriedWalked(e, s, rest, n, BUCKET_SIZE)
    requires forall slot :: slot in s.triedTable ==> slot.pos < BUCKET_SIZE
    ensures TriedWalked(e, s, rest, n + 1, 0)
  {
    assert forall slot :: Before(slot, n + 1, 0) && slot.pos < BUCKET_SIZE ==> Before(slot, n, BUCKET_SIZE);
    assert forall slot :: Before(slot, n, BUCKET_SIZE) ==> Before(slot, n + 1, 0);
  }

  lemma TriedWalkDone(e: Env, s: State, rest: set<Id>)
    requires TriedWalked(e, s, rest, TRIED_BUCKET_COUNT, 0)
    requires forall slot :: slot in s.triedTable ==> InTriedRange(slot)
    ensures rest == {} <==> TriedChecked(e, s)
  {
    assert forall slot :: InTriedRange(slot) ==> Before(slot, TRIED_BUCKET_COUNT, 0);
    if rest == {} {
      forall id | id in Members(s, {}, InTried)
        ensures s.HomeOf(e, id) in s.triedTable && s.triedTable[s.HomeOf(e, id)] == id
      {
        assert Seen(e, s, id, TRIED_BUCKET_COUNT, 0);
      }
    }
    assert TriedChecked(e, s) ==> forall id :: id in Members(s, {}, InTried) ==> Seen(e, s, id, TRIED_BUCKET_COUNT, 0);
    assert TriedChecked(e, s) ==> rest == {};
  }

  method CheckTried(m: AddrMan, setTried: set<Id>) returns (code: int, rest: set<Id>)
    requires m.Shaped() && setTried == Members(m.S(), {}, InTried)
    ensures code == 0 ==> (rest == {} <==> TriedChecked(m.e, m.S()))
    ensures code != 0 ==> !TriedChecked(m.e, m.S())
  {
    hide TableOf, TriedChecked, TriedWalked, Members;
    ghost var s := m.S();
    rest := setTried;
    TriedWalkStart(m.e, s);
    var n := 0;
    while n < TRIED_BUCKET_COUNT
      invariant 0 <= n <= TRIED_BUCKET_COUNT
      invariant TriedWalked(m.e, s, rest, n, 0)
    {
      var i := 0;
      while i < BUCKET_SIZE
        invariant 0 <= i <= BUCKET_SIZE
        invariant TriedWalked(m.e, s, rest, n, i)
      {
        var id := m.vvTried[n, i];
        assert Slot(n, i) in s.triedTable <==> id != EMPTY;
        if id != EMPTY {
          if id !in rest {
            TriedWalkFault(m.e, s, rest, n, i);
            return -11, rest;
          }
          if id !in m.mapInfo || m.e.triedBucket(m.nKey, m.mapInfo[id].Service()) != n {
            TriedWalkFault(m.e, s, rest, n, i);
            return -17, rest;
          }
          if m.e.position(m.nKey, false, n, m.mapInfo[id].Service()) != i {
            TriedWalkFault(m.e, s, rest, n, i);
            return -18, rest;
          }
          TriedWalkStep(m.e, s, rest, n, i);
          rest := rest - {id};
        } else {
          TriedWalkEmpty(m.e, s, rest, n, i);
        }
        i := i + 1;
      }
      TriedRowDone(m.e, s, rest, n);
      n := n + 1;
    }
    TriedWalkDone(m.e, s, rest);
    code := 0;
  }

  lemma TriedWalkStart(e: Env, s: State)
    ensures TriedWalked(e, s, Members(s, {}, InTried), 0, 0)
  {
  }

  // ---------- The new table ----------

  /** The slots of an id among those already walked. */
  ghost function WalkedSlots(t: Table, id: Id, n: nat, i: nat): set<Slot> {
    set slot | slot in SlotsOf(t, id) && Before(slot, n, i)
  }

  lemma WalkedNext(t: Table, id: Id, n: nat, i: nat)
    ensures |WalkedSlots(t, id, n, i + 1)| == |WalkedSlots(t, id, n, i)| + One(Slot(n, i) in t && t[Slot(n, i)] == id)
  {
    var slot := Slot(n, i);
    assert forall x :: Before(x, n, i + 1) <==> Before(x, n, i) || x == slot;
    assert WalkedSlots(t, id, n, i + 1) == WalkedSlots(t, id, n, i) + (if slot in t && t[slot] == id then {slot} else {});
  }

  lemma WalkedBound(t: Table, id: Id, n: nat, i: nat)
    ensures |WalkedSlots(t, id, n, i)| <= |SlotsOf(t, id)|
  {
    var rest := SlotsOf(t, id) - WalkedSlots(t, id, n, i);
    assert SlotsOf(t, id) == WalkedSlots(t, id, n, i) + rest;
  }

  ghost predicate NewWalked(e: Env, s: State, rest: map<Id, int>, n: nat, i: nat) {
    && (forall slot :: slot in s.newTable && Before(slot, n, i) ==>
          && s.newTable[slot] in Members(s, {}, InNew)
          && slot.pos == e.position(s.key, true, slot.bucket, s.info[s.newTable[slot]].Service()))
    && rest.Keys <= Members(s, {}, InNew)
    && (forall id :: id in Members(s, {}, InNew) ==>
          var c := s.info[id].refCount - |WalkedSlots(s.newTable, id, n, i)|;
          c >= 0 && (id in rest <==> c > 0) && (id in rest ==> rest[id] == c))
  }

  lemma NewWalkStart(e: Env, s: State, mapNew: map<Id, int>)
    requires exists t :: Gathered(s, s.info.Keys, t, mapNew)
    requires forall id :: id in s.info ==> EntryChecked(s, id)
    ensures NewWalked(e, s, mapNew, 0, 0)
  {
    forall id ensures WalkedSlots(s.newTable, id, 0, 0) == {} {}
  }

  lemma NewWalkEmpty(e: Env, s: State, rest: map<Id, int>, n: nat, i: nat)
    requires NewWalked(e, s, rest, n, i) && Slot(n, i) !in s.newTable
    ensures NewWalked(e, s, rest, n, i + 1)
  {
    assert forall slot :: Before(slot, n, i + 1) ==> Before(slot, n, i) || slot == Slot(n, i);
    forall id ensures |WalkedSlots(s.newTable, id, n, i + 1)| == |WalkedSlots(s.newTable, id, n, i)| {
      WalkedNext(s.newTable, id, n, i);
    }
  }

  lemma NewWalkStep(e: Env, s: State, rest: map<Id, int>, n: nat, i: nat)
    requires NewWalked(e, s, rest, n, i) && Slot(n, i) in s.newTable
    requires var id := s.newTable[Slot(n, i)];
      id in rest && id in s.info && i == e.position(s.key, true, n, s.info[id].Service())
    ensures var id := s.newTable[Slot(n, i)];
      NewWalked(e, s, if rest[id] - 1 == 0 then rest - {id} else rest[id := rest[id] - 1], n, i + 1)
  {
    assert forall slot :: Before(slot, n, i + 1) ==> Before(slot, n, i) || slot == Slot(n, i);
    forall x ensures |WalkedSlots(s.newTable, x, n, i + 1)| == |WalkedSlots(s.newTable, x, n, i)| + One(s.newTable[Slot(n, i)] == x) {
      WalkedNext(s.newTable, x, n, i);
    }
  }

  lemma NewWalkFault(e: Env, s: State, rest: map<Id, int>, n: nat, i: nat)
    requires NewWalked(e, s, rest, n, i) && Slot(n, i) in s.newTable
    requires var id := s.newTable[Slot(n, i)];
      id !in rest || id !in s.info || i != e.position(s.key, true, n, s.info[id].Service())
    ensures !NewChecked(e, s)
  {
    var id := s.newTable[Slot(n, i)];
    WalkedNext(s.newTable, id, n, i);
    WalkedBound(s.newTable, id, n, i + 1);
    assert NewChecked(e, s) ==> id in Members(s, {}, InNew);
  }

  lemma NewRowDone(e: Env, s: State, rest: map<Id, int>, n: nat)
    requires NewWalked(e, s, rest, n, BUCKET_SIZE)
    requires forall slot :: slot in s.newTable ==> slot.pos < BUCKET_SIZE
    ensures NewWalked(e, s, rest, n + 1, 0)
  {
    assert forall slot :: Before(slot, n + 1, 0) && slot.pos < BUCKET_SIZE ==> Before(slot, n, BUCKET_SIZE);
    assert forall slot :: Before(slot, n, BUCKET_SIZE) ==> Before(slot, n + 1, 0);
    forall id ensures WalkedSlots(s.newTable, id, n + 1, 0) == WalkedSlots(s.newTable, id, n, BUCKET_SIZE) {}
  }

  lemma NewWalkDone(e: Env, s: State, rest: map<Id, int>)
    requires NewWalked(e, s, rest, NEW_BUCKET_COUNT, 0)
    requires forall slot :: slot in s.newTable ==> InNewRange(slot)
    ensures rest == map[] <==> NewChecked(e, s)
  {
    assert forall slot :: InNewRange(slot) ==> Before(slot, NEW_BUCKET_COUNT, 0);
    forall id ensures WalkedSlots(s.newTable, id, NEW_BUCKET_COUNT, 0) == SlotsOf(s.newTable, id) {}
    assert NewChecked(e, s) ==> forall id :: id in Members(s, {}, InNew) ==> id !in rest;
    assert NewChecked(e, s) ==> rest.Keys == {};
  }

  method CheckNew(m: AddrMan, mapNew: map<Id, int>) returns (code: int, rest: map<Id, int>)
    requires m.Shaped() && NewWalked(m.e, m.S(), mapNew, 0, 0)
    ensures code == 0 ==> (rest == map[] <==> NewChecked(m.e, m.S()))
    ensures code != 0 ==> !NewChecked(m.e, m.S())
  {
    hide TableOf, NewChecked, NewWalked;
    ghost var s := m.S();
    rest := mapNew;
    var n := 0;
    while n < NEW_BUCKET_COUNT
      invariant 0 <= n <= NEW_BUCKET_COUNT
      invariant NewWalked(m.e, s, rest, n, 0)
    {
      var i := 0;
      while i < BUCKET_SIZE
        invariant 0 <= i <= BUCKET_SIZE
        invariant NewWalked(m.e, s, rest, n, i)
      {
        var id := m.vvNew[n, i];
        assert Slot(n, i) in s.newTable <==> id != EMPTY;
        if id != EMPTY {
          if id !in rest {
            NewWalkFault(m.e, s, rest, n, i);
            return -12, rest;
          }
          if id !in m.mapInfo || m.e.position(m.nKey, true, n, m.mapInfo[id].Service()) != i {
            NewWalkFault(m.e, s, rest, n, i);
            return -19, rest;
          }
          NewWalkStep(m.e, s, rest, n, i);
          ghost var was := rest;
          rest := rest[id := rest[id] - 1];
          if rest[id] == 0 {
            rest := rest - {id};
            assert rest == was - {id};
          }
        } else {
          NewWalkEmpty(m.e, s, rest, n, i);
        }
        i := i + 1;
      }
      NewRowDone(m.e, s, rest, n);
      n := n + 1;
    }
    NewWalkDone(m.e, s, rest);
    code := 0;
  }

  // ---------- The whole check ----------

  method CheckCounters(m: AddrMan, local: map<Network, Counts>, order: seq<Network>) returns (code: int)
    requires GatheredLocal(m.e, m.S(), m.mapInfo.Keys, local) && Enumerates(order, m.networkCounts.Keys)
    ensures code == 0 <==> CountersChecked(m.e, m.S())
  {
    hide TableOf, GatheredLocal, LocalCounts, Networks;
    ghost var s := m.S();
    LocalFacts(m.e, s, local);
    if |m.networkCounts| < |local| { return -20; }
    var k := 0;
    while k < |order|
      invariant 0 <= k <= |order|
      invariant forall i :: 0 <= i < k ==> s.counts[order[i]] == LocalCounts(m.e, s, order[i])
    {
      var net := order[k];
      var c := if net in local then local[net] else Counts(0, 0);
      LocalMissing(m.e, s, local, net);
      if c.nNew != m.networkCounts[net].nNew || c.nTried != m.networkCounts[net].nTried { return -21; }
      k := k + 1;
    }
    return 0;
  }

  lemma LocalFacts(e: Env, s: State, local: map<Network, Counts>)
    requires GatheredLocal(e, s, s.info.Keys, local)
    ensures |local| == |Networks(e, s)|
  {
    assert local.Keys == Networks(e, s);
  }

  lemma LocalMissing(e: Env, s: State, local: map<Network, Counts>, net: Network)
    requires GatheredLocal(e, s, s.info.Keys, local)
    ensures LocalCounts(e, s, net) == if net in local then local[net] else Counts(0, 0)
  {
    assert MembersOn(e, s, {}, InNew, net) * s.info.Keys == MembersOn(e, s, {}, InNew, net);
    assert MembersOn(e, s, {}, InTried, net) * s.info.Keys == MembersOn(e, s, {}, InTried, net);
    if net !in local {
      CountsInNone(e, s, s.info.Keys, net);
    }
  }

  lemma GatheredAll(s: State, setTried: set<Id>, mapNew: map<Id, int>)
    requires Gathered(s, s.info.Keys, setTried, mapNew)
    ensures setTried == Members(s, {}, InTried) && |mapNew| == |Members(s, {}, InNew)|
  {
    assert mapNew.Keys == Members(s, {}, InNew);
  }

  /** Zero exactly when everything the check looks at is in order, whatever the state. */
  method CheckAddrman(m: AddrMan, order: seq<Id>, netOrder: seq<Network>) returns (code: int)
    requires m.Shaped() && Enumerates(order, m.mapInfo.Keys) && Enumerates(netOrder, m.networkCounts.Keys)
    ensures code == 0 <==> Checked(m.e, m.S())
  {
    hide TableOf, EntryChecked, TriedChecked, NewChecked, CountersChecked, Gathered, GatheredLocal, Enumerates, Members;
    ghost var s := m.S();
    if |m.vRandom| != m.nTried + m.nNew { return -7; }
    var setTried, mapNew, local;
    code, setTried, mapNew, local := CheckEntries(m, order);
    if code != 0 { return; }
    GatheredAll(s, setTried, mapNew);
    if |setTried| != m.nTried { return -9; }
    if |mapNew| != m.nNew { return -10; }
    var triedLeft, newLeft;
    code, triedLeft := CheckTried(m, setTried);
    if code != 0 { return; }
    NewWalkStart(m.e, s, mapNew);
    code, newLeft := CheckNew(m, mapNew);
    if code != 0 { return; }
    if triedLeft != {} { return -13; }
    if newLeft != map[] { return -15; }
    if m.nKey == 0 { return -16; }
    code := CheckCounters(m, local, netOrder);
  }

  // ---------- What an accepted state is ----------

  /** The ids whose random position is below `k`. */
  ghost function Positioned(s: State, k: nat): set<Id> {
    set id | id in s.info && s.info[id].randomPos < k
  }

  ghost predicate PointsBack(s: State) {
    forall id :: id in s.info ==> 0 <= s.info[id].randomPos < |s.random| && s.random[s.info[id].randomPos] == id
  }

  ghost predicate Hit(s: State, j: int)
    requires 0 <= j < |s.random|
  {
    s.random[j] in s.info && s.info[s.random[j]].randomPos == j
  }

  lemma PositionedNext(s: State, k: nat)
    requires PointsBack(s) && k < |s.random|
    ensures Positioned(s, k + 1) == Positioned(s, k) + if Hit(s, k) then {s.random[k]} else {}
    ensures |Positioned(s, k + 1)| == |Positioned(s, k)| + One(Hit(s, k))
  {
    var next := Positioned(s, k) + if Hit(s, k) then {s.random[k]} else {};
    assert forall id :: id in Positioned(s, k + 1) ==> id in next;
    assert forall id :: id in next ==> id in Positioned(s, k + 1);
    assert Positioned(s, k + 1) == next;
  }

  lemma NonePositioned(s: State)
    requires PointsBack(s)
    ensures Positioned(s, 0) == {}
  {
    forall id | id in Positioned(s, 0) ensures false {}
  }

  /** Pigeonhole: a position nobody points to costs one id. */
  lemma {:induction false} PositionedBound(s: State, k: nat, j: nat)
    requires PointsBack(s) && k <= |s.random| && j < |s.random|
    ensures |Positioned(s, k)| <= k - One(j < k && !Hit(s, j))
    decreases k
  {
    if k == 0 {
      NonePositioned(s);
    } else {
      PositionedBound(s, k - 1, j);
      PositionedNext(s, k - 1);
    }
  }

  lemma AllHit(s: State)
    requires PointsBack(s) && forall j :: 0 <= j < |s.random| ==> Hit(s, j)
    ensures RandomOk(s)
  {
    forall j | 0 <= j < |s.random| ensures s.random[j] in s.info && s.info[s.random[j]].randomPos == j {
      assert Hit(s, j);
    }
  }

  /** As many random positions as ids, each id pointing back: a permutation. */
  lemma Pigeonhole(s: State)
    requires PointsBack(s) && |s.random| == |s.info|
    ensures RandomOk(s)
  {
    var all := Positioned(s, |s.random|);
    assert forall id :: id in all ==> id in s.info.Keys;
    assert forall id :: id in s.info.Keys ==> id in all;
    assert all == s.info.Keys;
    forall j | 0 <= j < |s.random| ensures Hit(s, j) {
      PositionedBound(s, |s.random|, j);
    }
    AllHit(s);
  }

  lemma {:induction false} PositionedExact(s: State, k: nat)
    requires RandomOk(s) && k <= |s.random|
    ensures |Positioned(s, k)| == k
    decreases k
  {
    if k == 0 {
      NonePositioned(s);
    } else {
      PositionedExact(s, k - 1);
      PositionedNext(s, k - 1);
    }
  }

  lemma MembersSplit(s: State)
    ensures |s.info| == |Members(s, {}, InNew)| + |Members(s, {}, InTried)|
  {
    assert s.info.Keys == Members(s, {}, InNew) + Members(s, {}, InTried);
    assert Members(s, {}, InNew) !! Members(s, {}, InTried);
  }

  ghost predicate InRange(s: State) {
    && (forall slot :: slot in s.newTable ==> InNewRange(slot))
    && (forall slot :: slot in s.triedTable ==> InTriedRange(slot))
  }

  /** Passing the check means: vRandom is a permutation of the ids, tried ids sit exactly at
    * home, reference counts are exact, and the totals are right.
    */
  lemma CheckedMeaning(e: Env, s: State)
    requires Checked(e, s) && InRange(s)
    ensures RandomOk(s) && TriedTableOk(e, s) && NewTableOk(e, s) && RefsOk(s, {}) && TimesOk(s)
    ensures |s.random| == |s.info|
  {
    MembersSplit(s);
    CheckedTables(e, s);
    assert PointsBack(s);
    Pigeonhole(s);
  }

  lemma CheckedTables(e: Env, s: State)
    requires Checked(e, s) && InRange(s)
    ensures TriedTableOk(e, s) && NewTableOk(e, s) && RefsOk(s, {}) && TimesOk(s)
  {
    hide CountersChecked;
    forall id | id in s.info && s.info[id].inTried ensures SlotsOf(s.newTable, id) == {} {
    }
    forall id | id in s.info ensures EntryChecked(s, id) && (if s.info[id].inTried then id in Members(s, {}, InTried) else id in Members(s, {}, InNew)) {
    }
  }

  /** What the check does not look at: stale addresses, the id counter, and networks that
    * have no counter at all.
    */
  ghost predicate BlindSpots(e: Env, s: State) {
    && (forall id :: id in s.info ==> 0 <= id < s.idCount)
    && (forall a :: a in s.addr ==> s.addr[a] in s.info && s.info[s.addr[a]].Service() == a)
    && (forall id :: id in s.info ==> s.NetworkOf(e, id) in s.counts)
  }

  lemma RandomSize(s: State)
    requires RandomOk(s)
    ensures |s.random| == |s.info|
  {
    var all := Positioned(s, |s.random|);
    assert forall id :: id in all ==> id in s.info.Keys;
    assert forall id :: id in s.info.Keys ==> id in all;
    assert all == s.info.Keys;
    PositionedExact(s, |s.random|);
  }

  lemma MembersOnEmpty(e: Env, s: State, net: Network)
    requires forall id :: id in s.info ==> s.NetworkOf(e, id) != net
    ensures LocalCounts(e, s, net) == Counts(0, 0)
  {
    forall id | id in MembersOn(e, s, {}, InNew, net) ensures false {}
    forall id | id in MembersOn(e, s, {}, InTried, net) ensures false {}
  }

  /** With a counter for every network, the counters compared are all the counters. */
  lemma CountersMeaning(e: Env, s: State)
    requires forall id :: id in s.info ==> s.NetworkOf(e, id) in s.counts
    requires CountersChecked(e, s) && s.nNew == |Members(s, {}, InNew)| && s.nTried == |Members(s, {}, InTried)|
    ensures CountsOk(e, s, {})
  {
    forall net ensures s.CountsOf(net) == LocalCounts(e, s, net) {
      if net !in s.counts {
        MembersOnEmpty(e, s, net);
      }
    }
  }

  lemma SubsetSize<T>(a: set<T>, b: set<T>)
    requires a <= b
    ensures |a| <= |b|
  {
    assert b == a + (b - a);
  }

  lemma CountersPresent(e: Env, s: State)
    requires CountsOk(e, s, {})
    ensures forall id :: id in s.info ==> s.NetworkOf(e, id) in s.counts
    ensures CountersChecked(e, s)
  {
    forall id | id in s.info ensures s.NetworkOf(e, id) in s.counts {
      var net, st := s.NetworkOf(e, id), StandingOf(s, {}, id);
      assert id in MembersOn(e, s, {}, st, net);
      assert s.CountsOf(net) != Counts(0, 0);
    }
    SubsetSize(Networks(e, s), s.counts.Keys);
    forall net | net in s.counts ensures s.counts[net] == LocalCounts(e, s, net) {
      assert s.CountsOf(net) == LocalCounts(e, s, net);
    }
  }

  lemma InvTablesChecked(e: Env, s: State)
    requires IndexOk(s) && RandomOk(s) && NewTableOk(e, s) && TriedTableOk(e, s) && RefsOk(s, {}) && TimesOk(s)
    ensures TriedChecked(e, s) && NewChecked(e, s)
    ensures forall id :: id in s.info ==> EntryChecked(s, id)
  {
  }

  /** The invariant is exactly what the check accepts plus what it does not look at. */
  lemma CheckExact(e: Env, s: State)
    requires InRange(s)
    ensures Weak(e, s, {}, {}) && TimesOk(s) <==> Checked(e, s) && BlindSpots(e, s)
  {
    hide EntryChecked, TriedChecked, NewChecked, CountersChecked, RandomOk, NewTableOk, TriedTableOk, RefsOk, CountsOk, TimesOk, Members;
    if Checked(e, s) && BlindSpots(e, s) {
      CheckedMeaning(e, s);
      CountersMeaning(e, s);
      CheckedIndex(e, s);
    }
    if Weak(e, s, {}, {}) && TimesOk(s) {
      RandomSize(s);
      MembersSplit(s);
      CountersPresent(e, s);
      InvTablesChecked(e, s);
      CountsTotals(e, s);
    }
  }

  lemma CheckedIndex(e: Env, s: State)
    requires Checked(e, s) && BlindSpots(e, s)
    ensures IndexOk(s)
  {
    hide TriedChecked, NewChecked, CountersChecked;
  }

  lemma CountsTotals(e: Env, s: State)
    requires CountsOk(e, s, {}) && TimesOk(s)
    ensures s.nNew == |Members(s, {}, InNew)| && s.nTried == |Members(s, {}, InTried)| && s.key != 0
  {
  }

  /** A state whose counter for `net` is replaced by an empty one for an unused network. */
  function Misfiled(s: State, net: Network, unused: Network): State {
    s.(counts := (s.counts - {net})[unused := Counts(0, 0)])
  }

  /** The check on the counters only goes one way: it still passes when the counter of a network
    * is missing and an empty one for an unused network takes its place, although the counts
    * are then wrong whenever the network has an entry.
    */
  lemma MissingCounterPasses(e: Env, s: State, net: Network, unused: Network)
    requires Checked(e, s) && net in s.counts && unused !in s.counts
    requires forall id :: id in s.info ==> s.NetworkOf(e, id) != unused
    ensures Checked(e, Misfiled(s, net, unused))
    ensures (exists id :: id in s.info && s.NetworkOf(e, id) == net) ==> !BlindSpots(e, Misfiled(s, net, unused))
  {
    hide EntryChecked, TriedChecked, NewChecked, CountersChecked, Members;
    var s' := Misfiled(s, net, unused);
    MisfiledTables(e, s, s');
    MisfiledCounters(e, s, net, unused);
    MembersSame(e, s, s', net);
  }

  lemma MembersSame(e: Env, s: State, s': State, net: Network)
    requires s' == s.(counts := s'.counts)
    ensures Members(s', {}, InTried) == Members(s, {}, InTried) && Members(s', {}, InNew) == Members(s, {}, InNew)
    ensures LocalCounts(e, s', net) == LocalCounts(e, s, net)
  {
    assert MembersOn(e, s', {}, InNew, net) == MembersOn(e, s, {}, InNew, net);
    assert MembersOn(e, s', {}, InTried, net) == MembersOn(e, s, {}, InTried, net);
  }

  lemma MisfiledTables(e: Env, s: State, s': State)
    requires s' == s.(counts := s'.counts) && TriedChecked(e, s) && NewChecked(e, s)
    requires forall id :: id in s.info ==> EntryChecked(s, id)
    ensures TriedChecked(e, s') && NewChecked(e, s') && forall id :: id in s'.info ==> EntryChecked(s', id)
  {
    assert Members(s', {}, InTried) == Members(s, {}, InTried);
    assert Members(s', {}, InNew) == Members(s, {}, InNew);
    forall id | id in s'.info ensures EntryChecked(s', id) { assert EntryChecked(s, id); }
  }

  lemma MisfiledCounters(e: Env, s: State, net: Network, unused: Network)
    requires CountersChecked(e, s) && net in s.counts && unused !in s.counts
    requires forall id :: id in s.info ==> s.NetworkOf(e, id) != unused
    ensures CountersChecked(e, Misfiled(s, net, unused))
  {
    hide LocalCounts;
    var s' := Misfiled(s, net, unused);
    MembersOnEmpty(e, s', unused);
    assert Networks(e, s') == Networks(e, s);
    assert s'.counts.Keys == s.counts.Keys - {net} + {unused};
    assert |s'.counts| == |s'.counts.Keys| && |s.counts| == |s.counts.Keys|;
    forall n | n in s'.counts ensures s'.counts[n] == LocalCounts(e, s', n) {
      if n != unused { MembersSame(e, s, s', n); }
    }
  }
}
