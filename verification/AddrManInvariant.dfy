/** The cross-index invariant of the address manager, and the elementary moves every
  * operation is made of. An operation passes through states where one or two ids are
  * out of place; `Weak` names them, so each move has a lemma that says who is out of
  * place afterwards.
  */
module AddrManInvariant {
  import opened AddrManTypes

  // ---------- The invariant ----------

  /** mapInfo and mapAddr are mutually inverse; ids come from the counter. */
  ghost predicate IndexOk(s: State) {
    && (forall id :: id in s.info ==> 0 <= id < s.idCount)
    && (forall id :: id in s.info ==> s.info[id].Service() in s.addr && s.addr[s.info[id].Service()] == id)
    && (forall a :: a in s.addr ==> s.addr[a] in s.info && s.info[s.addr[a]].Service() == a)
  }

  /** vRandom lists every id once, and nRandomPos is the inverse of that listing. */
  ghost predicate RandomOk(s: State) {
    && (forall id :: id in s.info ==>
          0 <= s.info[id].randomPos < |s.random| && s.random[s.info[id].randomPos] == id)
    && (forall i :: 0 <= i < |s.random| ==> s.random[i] in s.info && s.info[s.random[i]].randomPos == i)
  }

  /** Every occupied new slot is a determined position of its occupant. */
  ghost predicate NewTableOk(e: Env, s: State) {
    forall slot :: slot in s.newTable ==>
      && InNewRange(slot)
      && s.newTable[slot] in s.info
      && !s.info[s.newTable[slot]].inTried
      && slot.pos == e.position(s.key, true, slot.bucket, s.info[s.newTable[slot]].Service())
  }

  /** Tried ids sit in exactly their home slot. */
  ghost predicate TriedTableOk(e: Env, s: State) {
    && (forall slot :: slot in s.triedTable ==>
          && InTriedRange(slot)
          && s.triedTable[slot] in s.info
          && s.info[s.triedTable[slot]].inTried
          && slot == s.HomeOf(e, s.triedTable[slot]))
    && (forall id :: id in s.info && s.info[id].inTried ==>
          s.HomeOf(e, id) in s.triedTable && s.triedTable[s.HomeOf(e, id)] == id)
  }

  /** Reference counts are exact and at most 8; only ids in `pending` may be in neither table. */
  ghost predicate RefsOk(s: State, pending: set<Id>) {
    forall id :: id in s.info ==>
      && s.info[id].refCount == |SlotsOf(s.newTable, id)| <= NEW_BUCKETS_PER_ADDRESS
      && (s.info[id].inTried ==> s.info[id].refCount == 0)
      && (!s.info[id].inTried && id !in pending ==> s.info[id].refCount > 0)
  }

  datatype Standing = InNew | InTried | Uncounted

  ghost function StandingOf(s: State, uncounted: set<Id>, id: Id): Standing {
    if id !in s.info then Uncounted
    else if s.info[id].inTried then InTried
    else if id in uncounted then Uncounted
    else InNew
  }

  ghost function Members(s: State, uncounted: set<Id>, st: Standing): set<Id> {
    set id | id in s.info && StandingOf(s, uncounted, id) == st
  }

  ghost function MembersOn(e: Env, s: State, uncounted: set<Id>, st: Standing, net: Network): set<Id> {
    set id | id in s.info && StandingOf(s, uncounted, id) == st && s.NetworkOf(e, id) == net
  }

  /** The totals and the per-network counters are exact, ids in `uncounted` aside. */
  ghost predicate CountsOk(e: Env, s: State, uncounted: set<Id>) {
    && s.nNew == |Members(s, uncounted, InNew)|
    && s.nTried == |Members(s, uncounted, InTried)|
    && (forall net :: s.CountsOf(net) == Counts(|MembersOn(e, s, uncounted, InNew, net)|,
                                                |MembersOn(e, s, uncounted, InTried, net)|))
  }

  ghost predicate Weak(e: Env, s: State, pending: set<Id>, uncounted: set<Id>) {
    && IndexOk(s)
    && RandomOk(s)
    && NewTableOk(e, s)
    && TriedTableOk(e, s)
    && RefsOk(s, pending)
    && CountsOk(e, s, uncounted)
  }

  /** Times are non-negative, and a tried address has once been connected to. */
  ghost predicate TimesOk(s: State) {
    && s.key != 0
    && (forall id :: id in s.info ==>
          && s.info[id].lastTry >= 0
          && s.info[id].lastSuccess >= 0
          && (s.info[id].inTried ==> s.info[id].lastSuccess > 0))
  }

  /** The collision set is bounded, and what it holds still collides. */
  ghost predicate CollisionsOk(e: Env, s: State) {
    && |s.collisions| <= TRIED_COLLISION_SIZE
    && (forall id :: id in s.collisions ==> 0 <= id < s.idCount)
    && (forall id :: id in s.collisions && id in s.info ==> s.HomeOf(e, id) in s.triedTable)
  }

  ghost predicate Inv(e: Env, s: State) {
    && Weak(e, s, {}, {})
    && TimesOk(s)
    && CollisionsOk(e, s)
  }

  // ---------- Elementary moves ----------

  function Count(e: Env, s: State, id: Id, dNew: int, dTried: int): State
    requires id in s.info
  {
    var net := s.NetworkOf(e, id);
    var c := s.CountsOf(net);
    s.(nNew := s.nNew + dNew, nTried := s.nTried + dTried,
       counts := s.counts[net := Counts(c.nNew + dNew, c.nTried + dTried)])
  }

  function Created(e: Env, s: State, a: Address, source: NetAddr): State {
    var id := s.idCount;
    var s1 := s.(idCount := id + 1,
                 info := s.info[id := FreshInfo(a, source, |s.random|)],
                 addr := s.addr[a.service := id],
                 random := s.random + [id]);
    Count(e, s1, id, 1, 0)
  }

  function Swapped(s: State, i: nat, j: nat): State
    requires i < |s.random| && j < |s.random|
    requires s.random[i] in s.info && s.random[j] in s.info
  {
    if i == j then s else
    var a, b := s.random[i], s.random[j];
    var info1 := s.info[a := s.info[a].(randomPos := j)];
    s.(info := info1[b := info1[b].(randomPos := i)],
       random := s.random[i := b][j := a])
  }

  /** Popping the last random position together with its id. */
  function Popped(e: Env, s: State, id: Id): State
    requires id in s.info && |s.random| > 0
  {
    var s2 := Count(e, s, id, -1, 0);
    s2.(random := s2.random[..|s2.random| - 1],
        addr := s2.addr - {s2.info[id].Service()},
        info := s2.info - {id})
  }

  /** Swap to the back of vRandom, pop, and forget the id. */
  function Deleted(e: Env, s: State, id: Id): State
    requires RandomOk(s) && id in s.info
  {
    var s1 := Swapped(s, s.info[id].randomPos, |s.random| - 1);
    Popped(e, s1, id)
  }

  /** Empty one new slot. */
  function Dropped(s: State, slot: Slot): State
    requires slot in s.newTable && s.newTable[slot] in s.info
  {
    var id := s.newTable[slot];
    s.(newTable := s.newTable - {slot},
       info := s.info[id := s.info[id].(refCount := s.info[id].refCount - 1)])
  }

  /** Put an id into a new slot. */
  function Placed(s: State, slot: Slot, id: Id): State
    requires id in s.info
  {
    s.(newTable := s.newTable[slot := id],
       info := s.info[id := s.info[id].(refCount := s.info[id].refCount + 1)])
  }

  /** Empty every new slot of an id. */
  function Withdrawn(s: State, id: Id): State
    requires id in s.info
  {
    s.(newTable := s.newTable - SlotsOf(s.newTable, id),
       info := s.info[id := s.info[id].(refCount := 0)])
  }

  /** Take an id out of the tried table. */
  function Demoted(e: Env, s: State, id: Id): State
    requires id in s.info
  {
    var s1 := s.(triedTable := s.triedTable - {s.HomeOf(e, id)},
                 info := s.info[id := s.info[id].(inTried := false)]);
    Count(e, s1, id, 0, -1)
  }

  /** Put an id into the tried table. */
  function Promoted(e: Env, s: State, id: Id): State
    requires id in s.info
  {
    var s1 := s.(triedTable := s.triedTable[s.HomeOf(e, id) := id],
                 info := s.info[id := s.info[id].(inTried := true)]);
    Count(e, s1, id, 0, 1)
  }

  // ---------- Counting ----------

  function One(b: bool): int { if b then 1 else 0 }

  lemma SetMove(a: set<Id>, b: set<Id>, id: Id)
    requires a - {id} == b - {id}
    ensures |b| == |a| + One(id in b) - One(id in a)
  {
    assert |a - {id}| == |a| - One(id in a);
    assert |b - {id}| == |b| - One(id in b);
  }

  /** Every id but `id` keeps its standing and its network. */
  ghost predicate OthersStand(e: Env, s: State, u: set<Id>, s': State, u': set<Id>, id: Id) {
    forall x :: x != id ==>
      && (x in s'.info <==> x in s.info)
      && StandingOf(s', u', x) == StandingOf(s, u, x)
      && (x in s.info && x in s'.info ==> s'.NetworkOf(e, x) == s.NetworkOf(e, x))
  }

  lemma MembersMove(e: Env, s: State, u: set<Id>, s': State, u': set<Id>, id: Id, st: Standing)
    requires OthersStand(e, s, u, s', u', id) && st != Uncounted
    ensures |Members(s', u', st)| == |Members(s, u, st)| + One(StandingOf(s', u', id) == st) - One(StandingOf(s, u, id) == st)
  {
    SetMove(Members(s, u, st), Members(s', u', st), id);
  }

  lemma MembersOnMove(e: Env, s: State, u: set<Id>, s': State, u': set<Id>, id: Id, st: Standing, net: Network, n: Network)
    requires OthersStand(e, s, u, s', u', id) && st != Uncounted
    requires id in s.info ==> s.NetworkOf(e, id) == net
    requires id in s'.info ==> s'.NetworkOf(e, id) == net
    ensures |MembersOn(e, s', u', st, n)| == |MembersOn(e, s, u, st, n)|
      + One(n == net && StandingOf(s', u', id) == st) - One(n == net && StandingOf(s, u, id) == st)
  {
    SetMove(MembersOn(e, s, u, st, n), MembersOn(e, s', u', st, n), id);
  }

  /** The counters follow the change of standing of `id`. */
  ghost predicate CountersFollow(e: Env, s: State, u: set<Id>, s': State, u': set<Id>, id: Id, net: Network) {
    var dNew := One(StandingOf(s', u', id) == InNew) - One(StandingOf(s, u, id) == InNew);
    var dTried := One(StandingOf(s', u', id) == InTried) - One(StandingOf(s, u, id) == InTried);
    && s'.nNew == s.nNew + dNew
    && s'.nTried == s.nTried + dTried
    && s'.CountsOf(net) == Counts(s.CountsOf(net).nNew + dNew, s.CountsOf(net).nTried + dTried)
    && (forall n :: n != net ==> s'.CountsOf(n) == s.CountsOf(n))
  }

  /** When one id changes standing and the counters follow, the counts stay exact. */
  lemma CountsMove(e: Env, s: State, u: set<Id>, s': State, u': set<Id>, id: Id, net: Network)
    requires CountsOk(e, s, u)
    requires OthersStand(e, s, u, s', u', id)
    requires id in s.info ==> s.NetworkOf(e, id) == net
    requires id in s'.info ==> s'.NetworkOf(e, id) == net
    requires CountersFollow(e, s, u, s', u', id, net)
    ensures CountsOk(e, s', u')
  {
    MembersMove(e, s, u, s', u', id, InNew);
    MembersMove(e, s, u, s', u', id, InTried);
    forall n ensures s'.CountsOf(n) == Counts(|MembersOn(e, s', u', InNew, n)|, |MembersOn(e, s', u', InTried, n)|) {
      MembersOnMove(e, s, u, s', u', id, InNew, net, n);
      MembersOnMove(e, s, u, s', u', id, InTried, net, n);
    }
  }

  // ---------- Frames ----------

  /** The same ids, at the same addresses and random positions. */
  ghost predicate SameShape(s: State, s': State) {
    && s'.key == s.key && s'.idCount == s.idCount && s'.addr == s.addr && s'.random == s.random
    && s'.info.Keys == s.info.Keys
    && (forall id :: id in s.info ==>
          s'.info[id].Service() == s.info[id].Service() && s'.info[id].randomPos == s.info[id].randomPos)
  }

  /** Ids that keep their address and table. */
  ghost predicate SamePlaces(s: State, s': State) {
    && s'.key == s.key && s'.info.Keys == s.info.Keys
    && (forall id :: id in s.info ==>
          s'.info[id].Service() == s.info[id].Service() && s'.info[id].inTried == s.info[id].inTried)
  }

  ghost predicate SameRefs(s: State, s': State) {
    && s'.newTable == s.newTable && s'.info.Keys == s.info.Keys
    && (forall id :: id in s.info ==>
          s'.info[id].refCount == s.info[id].refCount && s'.info[id].inTried == s.info[id].inTried)
  }

  lemma IndexFrame(s: State, s': State)
    requires s'.idCount == s.idCount && s'.addr == s.addr && s'.info.Keys == s.info.Keys
    requires forall id :: id in s.info ==> s'.info[id].Service() == s.info[id].Service()
    requires IndexOk(s)
    ensures IndexOk(s')
  {
    forall a | a in s'.addr ensures s'.addr[a] in s'.info && s'.info[s'.addr[a]].Service() == a {
      var id := s.addr[a];
      assert id in s.info && s'.info[id].Service() == s.info[id].Service();
    }
  }

  lemma RandomFrame(s: State, s': State)
    requires s'.random == s.random && s'.info.Keys == s.info.Keys
    requires forall id :: id in s.info ==> s'.info[id].randomPos == s.info[id].randomPos
    requires RandomOk(s)
    ensures RandomOk(s')
  {
    forall i | 0 <= i < |s'.random| ensures s'.random[i] in s'.info && s'.info[s'.random[i]].randomPos == i {
      var id := s.random[i];
      assert id in s.info && s'.info[id].randomPos == s.info[id].randomPos;
    }
  }

  lemma ShapeFrame(s: State, s': State)
    requires SameShape(s, s') && IndexOk(s) && RandomOk(s)
    ensures IndexOk(s') && RandomOk(s')
  {
    IndexFrame(s, s');
    RandomFrame(s, s');
  }

  lemma TriedFrame(e: Env, s: State, s': State)
    requires SamePlaces(s, s') && s'.triedTable == s.triedTable && TriedTableOk(e, s)
    ensures TriedTableOk(e, s')
  {
  }

  lemma NewFrame(e: Env, s: State, s': State)
    requires SamePlaces(s, s') && s'.newTable.Items <= s.newTable.Items && NewTableOk(e, s)
    ensures NewTableOk(e, s')
  {
    forall slot | slot in s'.newTable ensures slot in s.newTable && s.newTable[slot] == s'.newTable[slot] {
      assert (slot, s'.newTable[slot]) in s'.newTable.Items;
    }
  }

  lemma RefsFrame(s: State, s': State, p: set<Id>, p': set<Id>)
    requires SameRefs(s, s') && RefsOk(s, p) && p <= p'
    ensures RefsOk(s', p')
  {
  }

  // ---------- What each move keeps ----------

  lemma SlotAdded(t: Table, slot: Slot, id: Id, x: Id)
    requires slot !in t
    ensures |SlotsOf(t[slot := id], x)| == |SlotsOf(t, x)| + One(x == id)
  {
    assert SlotsOf(t[slot := id], x) == SlotsOf(t, x) + if x == id then {slot} else {};
  }

  lemma SlotRemoved(t: Table, slot: Slot, x: Id)
    requires slot in t
    ensures |SlotsOf(t - {slot}, x)| == |SlotsOf(t, x)| - One(x == t[slot])
  {
    assert SlotsOf(t - {slot}, x) == SlotsOf(t, x) - if x == t[slot] then {slot} else {};
    assert x == t[slot] ==> slot in SlotsOf(t, x);
  }

  /** A record is rewritten in place, and the counters follow. */
  lemma RewriteCounts(e: Env, s: State, u: set<Id>, s': State, u': set<Id>, id: Id, i: Info)
    requires id in s.info && s'.info == s.info[id := i] && i.Service() == s.info[id].Service()
    requires u - {id} == u' - {id}
    requires CountsOk(e, s, u)
    requires CountersFollow(e, s, u, s', u', id, s.NetworkOf(e, id))
    ensures CountsOk(e, s', u')
  {
    assert forall x :: x != id ==> (x in u <==> x in u - {id}) && (x in u' <==> x in u' - {id});
    CountsMove(e, s, u, s', u', id, s.NetworkOf(e, id));
  }

  lemma DroppedRefs(s: State, p: set<Id>, slot: Slot)
    requires slot in s.newTable && s.newTable[slot] in s.info && RefsOk(s, p)
    requires !s.info[s.newTable[slot]].inTried
    ensures s.info[s.newTable[slot]].refCount > 0
    ensures RefsOk(Dropped(s, slot), p + {s.newTable[slot]})
    ensures s.info[s.newTable[slot]].refCount > 1 ==> RefsOk(Dropped(s, slot), p)
  {
    var id, s' := s.newTable[slot], Dropped(s, slot);
    assert slot in SlotsOf(s.newTable, id);
    forall x | x in s'.info ensures |SlotsOf(s'.newTable, x)| == |SlotsOf(s.newTable, x)| - One(x == id) {
      SlotRemoved(s.newTable, slot, x);
    }
  }

  lemma DroppedCounts(e: Env, s: State, u: set<Id>, slot: Slot)
    requires slot in s.newTable && s.newTable[slot] in s.info && CountsOk(e, s, u)
    ensures CountsOk(e, Dropped(s, slot), u)
  {
    var id, s' := s.newTable[slot], Dropped(s, slot);
    RewriteCounts(e, s, u, s', u, id, s'.info[id]);
  }

  lemma DroppedKeeps(e: Env, s: State, p: set<Id>, u: set<Id>, slot: Slot)
    requires Weak(e, s, p, u) && slot in s.newTable
    ensures Weak(e, Dropped(s, slot), p + {s.newTable[slot]}, u)
    ensures s.info[s.newTable[slot]].refCount > 0
    ensures s.info[s.newTable[slot]].refCount > 1 ==> Weak(e, Dropped(s, slot), p, u)
  {
    var s' := Dropped(s, slot);
    ShapeFrame(s, s');
    TriedFrame(e, s, s');
    NewFrame(e, s, s');
    DroppedRefs(s, p, slot);
    DroppedCounts(e, s, u, slot);
  }

  lemma PlacedRefs(s: State, p: set<Id>, slot: Slot, id: Id)
    requires id in s.info && slot !in s.newTable && RefsOk(s, p)
    requires !s.info[id].inTried && s.info[id].refCount < NEW_BUCKETS_PER_ADDRESS
    ensures RefsOk(Placed(s, slot, id), p - {id})
  {
    var s' := Placed(s, slot, id);
    forall x | x in s'.info ensures |SlotsOf(s'.newTable, x)| == |SlotsOf(s.newTable, x)| + One(x == id) {
      SlotAdded(s.newTable, slot, id, x);
    }
  }

  lemma PlacedNewTable(e: Env, s: State, slot: Slot, id: Id)
    requires id in s.info && slot !in s.newTable && InNewRange(slot) && NewTableOk(e, s)
    requires !s.info[id].inTried && slot.pos == e.position(s.key, true, slot.bucket, s.info[id].Service())
    ensures NewTableOk(e, Placed(s, slot, id))
  {
  }

  lemma PlacedCounts(e: Env, s: State, u: set<Id>, slot: Slot, id: Id)
    requires id in s.info && CountsOk(e, s, u)
    ensures CountsOk(e, Placed(s, slot, id), u)
  {
    var s' := Placed(s, slot, id);
    RewriteCounts(e, s, u, s', u, id, s'.info[id]);
  }

  lemma PlacedKeeps(e: Env, s: State, p: set<Id>, u: set<Id>, slot: Slot, id: Id)
    requires Weak(e, s, p, u) && id in s.info && slot !in s.newTable && InNewRange(slot)
    requires !s.info[id].inTried && s.info[id].refCount < NEW_BUCKETS_PER_ADDRESS
    requires slot.pos == e.position(s.key, true, slot.bucket, s.info[id].Service())
    ensures Weak(e, Placed(s, slot, id), p - {id}, u)
  {
    var s' := Placed(s, slot, id);
    ShapeFrame(s, s');
    TriedFrame(e, s, s');
    PlacedNewTable(e, s, slot, id);
    PlacedRefs(s, p, slot, id);
    PlacedCounts(e, s, u, slot, id);
  }

  lemma WithdrawnRefs(s: State, p: set<Id>, id: Id)
    requires id in s.info && RefsOk(s, p)
    ensures RefsOk(Withdrawn(s, id), p + {id})
  {
    var s' := Withdrawn(s, id);
    forall x | x in s'.info ensures |SlotsOf(s'.newTable, x)| == if x == id then 0 else |SlotsOf(s.newTable, x)| {
      assert SlotsOf(s'.newTable, x) == if x == id then {} else SlotsOf(s.newTable, x);
    }
  }

  lemma WithdrawnCounts(e: Env, s: State, u: set<Id>, id: Id)
    requires id in s.info && CountsOk(e, s, u)
    ensures CountsOk(e, Withdrawn(s, id), u)
  {
    var s' := Withdrawn(s, id);
    RewriteCounts(e, s, u, s', u, id, s'.info[id]);
  }

  lemma WithdrawnKeeps(e: Env, s: State, p: set<Id>, u: set<Id>, id: Id)
    requires Weak(e, s, p, u) && id in s.info
    ensures Weak(e, Withdrawn(s, id), p + {id}, u)
  {
    var s' := Withdrawn(s, id);
    ShapeFrame(s, s');
    TriedFrame(e, s, s');
    NewFrame(e, s, s');
    WithdrawnRefs(s, p, id);
    WithdrawnCounts(e, s, u, id);
  }

  /** Nothing in the new table holds an id whose count is zero. */
  lemma ZeroRefs(s: State, p: set<Id>, id: Id, slot: Slot)
    requires RefsOk(s, p) && id in s.info && s.info[id].refCount == 0 && slot in s.newTable
    ensures s.newTable[slot] != id
  {
    assert s.newTable[slot] == id ==> slot in SlotsOf(s.newTable, id);
  }

  lemma DemotedTables(e: Env, s: State, p: set<Id>, id: Id)
    requires id in s.info && s.info[id].inTried && NewTableOk(e, s) && TriedTableOk(e, s) && RefsOk(s, p)
    ensures var s' := Demoted(e, s, id); NewTableOk(e, s') && TriedTableOk(e, s') && RefsOk(s', p + {id})
  {
  }

  lemma DemotedCounts(e: Env, s: State, u: set<Id>, id: Id)
    requires id in s.info && s.info[id].inTried && CountsOk(e, s, u)
    ensures CountsOk(e, Demoted(e, s, id), u + {id})
  {
    RewriteCounts(e, s, u, Demoted(e, s, id), u + {id}, id, s.info[id].(inTried := false));
  }

  lemma DemotedKeeps(e: Env, s: State, p: set<Id>, u: set<Id>, id: Id)
    requires Weak(e, s, p, u) && id in s.info && s.info[id].inTried
    ensures Weak(e, Demoted(e, s, id), p + {id}, u + {id})
  {
    ShapeFrame(s, Demoted(e, s, id));
    DemotedTables(e, s, p, id);
    DemotedCounts(e, s, u, id);
  }

  lemma PromotedTried(e: Env, s: State, id: Id)
    requires id in s.info && !s.info[id].inTried && TriedTableOk(e, s) && s.HomeOf(e, id) !in s.triedTable
    ensures TriedTableOk(e, Promoted(e, s, id))
  {
  }

  lemma PromotedNew(e: Env, s: State, p: set<Id>, id: Id)
    requires id in s.info && s.info[id].refCount == 0 && NewTableOk(e, s) && RefsOk(s, p)
    ensures NewTableOk(e, Promoted(e, s, id))
  {
    forall slot | slot in s.newTable ensures s.newTable[slot] != id {
      ZeroRefs(s, p, id, slot);
    }
  }

  lemma PromotedRefs(e: Env, s: State, p: set<Id>, id: Id)
    requires id in s.info && s.info[id].refCount == 0 && RefsOk(s, p)
    ensures RefsOk(Promoted(e, s, id), p - {id})
  {
  }

  lemma PromotedCounts(e: Env, s: State, u: set<Id>, id: Id)
    requires id in s.info && id in u && !s.info[id].inTried && CountsOk(e, s, u)
    ensures CountsOk(e, Promoted(e, s, id), u - {id})
  {
    RewriteCounts(e, s, u, Promoted(e, s, id), u - {id}, id, s.info[id].(inTried := true));
  }

  lemma PromotedKeeps(e: Env, s: State, p: set<Id>, u: set<Id>, id: Id)
    requires Weak(e, s, p, u) && id in s.info && id in u && !s.info[id].inTried
    requires s.info[id].refCount == 0 && s.HomeOf(e, id) !in s.triedTable
    ensures Weak(e, Promoted(e, s, id), p - {id}, u - {id})
  {
    ShapeFrame(s, Promoted(e, s, id));
    PromotedTried(e, s, id);
    PromotedNew(e, s, p, id);
    PromotedRefs(e, s, p, id);
    PromotedCounts(e, s, u, id);
  }

  lemma CountCounts(e: Env, s: State, u: set<Id>, id: Id, goesIn: bool)
    requires id in s.info && !s.info[id].inTried && (goesIn <==> id in u) && CountsOk(e, s, u)
    ensures CountsOk(e, Count(e, s, id, if goesIn then 1 else -1, 0), if goesIn then u - {id} else u + {id})
  {
    RewriteCounts(e, s, u, Count(e, s, id, if goesIn then 1 else -1, 0), if goesIn then u - {id} else u + {id},
                  id, s.info[id]);
  }

  /** Counting an id into the new table, or out of it. */
  lemma CountKeeps(e: Env, s: State, p: set<Id>, u: set<Id>, id: Id, goesIn: bool)
    requires Weak(e, s, p, u) && id in s.info && !s.info[id].inTried && (goesIn <==> id in u)
    ensures Weak(e, Count(e, s, id, if goesIn then 1 else -1, 0), p, if goesIn then u - {id} else u + {id})
  {
    var s' := Count(e, s, id, if goesIn then 1 else -1, 0);
    ShapeFrame(s, s');
    TriedFrame(e, s, s');
    NewFrame(e, s, s');
    RefsFrame(s, s', p, p);
    CountCounts(e, s, u, id, goesIn);
  }

  // ---------- Creating, reordering and deleting ids ----------

  lemma CreatedShape(e: Env, s: State, a: Address, source: NetAddr)
    requires IndexOk(s) && RandomOk(s) && a.service !in s.addr
    ensures IndexOk(Created(e, s, a, source)) && RandomOk(Created(e, s, a, source))
  {
  }

  lemma CreatedTables(e: Env, s: State, p: set<Id>, a: Address, source: NetAddr)
    requires IndexOk(s) && NewTableOk(e, s) && TriedTableOk(e, s) && RefsOk(s, p)
    ensures var s' := Created(e, s, a, source);
      NewTableOk(e, s') && TriedTableOk(e, s') && RefsOk(s', p + {s.idCount})
  {
    assert SlotsOf(s.newTable, s.idCount) == {};
  }

  lemma CreatedCounts(e: Env, s: State, u: set<Id>, a: Address, source: NetAddr)
    requires IndexOk(s) && s.idCount !in u && CountsOk(e, s, u)
    ensures CountsOk(e, Created(e, s, a, source), u)
  {
    var s' := Created(e, s, a, source);
    CountsMove(e, s, u, s', u, s.idCount, s'.NetworkOf(e, s.idCount));
  }

  lemma CreatedKeeps(e: Env, s: State, p: set<Id>, u: set<Id>, a: Address, source: NetAddr)
    requires Weak(e, s, p, u) && a.service !in s.addr && s.idCount !in u
    ensures Weak(e, Created(e, s, a, source), p + {s.idCount}, u)
  {
    CreatedShape(e, s, a, source);
    CreatedTables(e, s, p, a, source);
    CreatedCounts(e, s, u, a, source);
  }

  /** The random order changed and nothing else. */
  ghost predicate OnlyReordered(s: State, s': State) {
    && s' == s.(info := s'.info, random := s'.random)
    && s'.info.Keys == s.info.Keys
    && (forall x :: x in s.info ==> s'.info[x] == s.info[x].(randomPos := s'.info[x].randomPos))
  }

  lemma SwappedReorders(s: State, i: nat, j: nat)
    requires RandomOk(s) && i < |s.random| && j < |s.random|
    ensures OnlyReordered(s, Swapped(s, i, j))
  {
    var s' := Swapped(s, i, j);
    assert s'.info.Keys == s.info.Keys;
    assert forall x :: x in s.info && x != s.random[i] && x != s.random[j] ==> s'.info[x] == s.info[x];
  }

  lemma SwappedRandom(s: State, i: nat, j: nat)
    requires RandomOk(s) && i < |s.random| && j < |s.random|
    ensures RandomOk(Swapped(s, i, j))
  {
    if i != j {
      var s', a, b := Swapped(s, i, j), s.random[i], s.random[j];
      assert a != b && s'.info[a].randomPos == j && s'.info[b].randomPos == i;
      assert forall x :: x in s.info && x != a && x != b ==> s'.info[x] == s.info[x];
      forall k | 0 <= k < |s'.random| ensures s'.random[k] in s'.info && s'.info[s'.random[k]].randomPos == k {
        var id := s.random[k];
        assert id in s.info && s.info[id].randomPos == k;
      }
    }
  }

  lemma ReorderedCounts(e: Env, s: State, u: set<Id>, s': State)
    requires OnlyReordered(s, s') && CountsOk(e, s, u)
    ensures CountsOk(e, s', u)
  {
    forall st ensures Members(s', u, st) == Members(s, u, st) {}
    forall st, net ensures MembersOn(e, s', u, st, net) == MembersOn(e, s, u, st, net) {}
  }

  lemma ReorderedKeeps(e: Env, s: State, p: set<Id>, u: set<Id>, s': State)
    requires Weak(e, s, p, u) && OnlyReordered(s, s') && RandomOk(s')
    ensures Weak(e, s', p, u)
  {
    IndexFrame(s, s');
    TriedFrame(e, s, s');
    NewFrame(e, s, s');
    RefsFrame(s, s', p, p);
    ReorderedCounts(e, s, u, s');
  }

  lemma SwappedKeeps(e: Env, s: State, p: set<Id>, u: set<Id>, i: nat, j: nat)
    requires Weak(e, s, p, u) && i < |s.random| && j < |s.random|
    ensures Weak(e, Swapped(s, i, j), p, u)
  {
    SwappedReorders(s, i, j);
    SwappedRandom(s, i, j);
    ReorderedKeeps(e, s, p, u, Swapped(s, i, j));
  }

  lemma PoppedShape(e: Env, s: State, id: Id)
    requires IndexOk(s) && RandomOk(s) && id in s.info && s.info[id].randomPos == |s.random| - 1
    ensures IndexOk(Popped(e, s, id)) && RandomOk(Popped(e, s, id))
  {
  }

  lemma PoppedTables(e: Env, s: State, p: set<Id>, id: Id)
    requires NewTableOk(e, s) && TriedTableOk(e, s) && RefsOk(s, p) && id in s.info && |s.random| > 0
    requires !s.info[id].inTried && s.info[id].refCount == 0
    ensures var s' := Popped(e, s, id);
      NewTableOk(e, s') && TriedTableOk(e, s') && RefsOk(s', p - {id})
  {
    forall slot | slot in s.newTable ensures s.newTable[slot] != id {
      ZeroRefs(s, p, id, slot);
    }
  }

  lemma PoppedCounts(e: Env, s: State, u: set<Id>, id: Id)
    requires CountsOk(e, s, u) && id in s.info && id !in u && !s.info[id].inTried && |s.random| > 0
    ensures CountsOk(e, Popped(e, s, id), u)
  {
    CountsMove(e, s, u, Popped(e, s, id), u, id, s.NetworkOf(e, id));
  }

  lemma PoppedKeeps(e: Env, s: State, p: set<Id>, u: set<Id>, id: Id)
    requires Weak(e, s, p, u) && id in s.info && id !in u && s.info[id].randomPos == |s.random| - 1
    requires !s.info[id].inTried && s.info[id].refCount == 0
    ensures Weak(e, Popped(e, s, id), p - {id}, u)
  {
    PoppedShape(e, s, id);
    PoppedTables(e, s, p, id);
    PoppedCounts(e, s, u, id);
  }

  /** Swapping an id to the back leaves it there. */
  lemma SwappedToBack(s: State, id: Id)
    requires RandomOk(s) && id in s.info
    ensures var last := |s.random| - 1;
      var s1 := Swapped(s, s.info[id].randomPos, last);
      id in s1.info && s1.info[id] == s.info[id].(randomPos := last) && |s1.random| == |s.random|
  {
    SwappedReorders(s, s.info[id].randomPos, |s.random| - 1);
  }

  lemma SwappedBackKeeps(e: Env, s: State, p: set<Id>, u: set<Id>, id: Id) returns (s1: State)
    requires Weak(e, s, p, u) && id in s.info
    ensures s1 == Swapped(s, s.info[id].randomPos, |s.random| - 1)
    ensures Weak(e, s1, p, u) && id in s1.info && s1.info[id] == s.info[id].(randomPos := |s1.random| - 1)
  {
    SwappedToBack(s, id);
    hide IndexOk, NewTableOk, TriedTableOk, RefsOk, CountsOk;
    s1 := Swapped(s, s.info[id].randomPos, |s.random| - 1);
    SwappedKeeps(e, s, p, u, s.info[id].randomPos, |s.random| - 1);
    SwappedToBack(s, id);
  }

  lemma DeletedKeeps(e: Env, s: State, p: set<Id>, u: set<Id>, id: Id)
    requires Weak(e, s, p, u) && id in s.info && id !in u
    requires !s.info[id].inTried && s.info[id].refCount == 0
    ensures Weak(e, Deleted(e, s, id), p - {id}, u)
  {
    hide IndexOk, RandomOk, NewTableOk, TriedTableOk, RefsOk, CountsOk;
    var s1 := SwappedBackKeeps(e, s, p, u, id);
    PoppedKeeps(e, s1, p, u, id);
  }
}
