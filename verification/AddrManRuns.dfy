/** Whole runs of the address manager: every sequence of public operations, with any
  * clock readings and any random draws, starting from the empty manager.
  */
module AddrManRuns {
  import opened AddrManTypes
  import opened AddrManInvariant
  import opened AddrManOps

  /** One announced address with the clock readings and the draw its insertion sees. */
  datatype Announcement = Announcement(a: Address, now: int, later: int, coin: bool)

  /** Announcements in order; the second component counts those that changed the table. */
  function AddedAll(e: Env, s: State, anns: seq<Announcement>, source: NetAddr, penalty: int): (r: (State, nat))
    requires Inv(e, s)
    ensures Inv(e, r.0)
  {
    if anns == [] then (s, 0)
    else
      var n := |anns| - 1;
      var before := AddedAll(e, s, anns[..n], source, penalty);
      AddedSingleInv(e, before.0, anns[n].a, source, penalty, anns[n].now, anns[n].later, anns[n].coin);
      var r := AddedSingle(e, before.0, anns[n].a, source, penalty, anns[n].now, anns[n].later, anns[n].coin);
      (r.0, before.1 + if r.1 then 1 else 0)
  }

  datatype Op =
    | Add(anns: seq<Announcement>, source: NetAddr, penalty: int)
    | Good(a: Service, time: int)
    | Attempt(a: Service, countFailure: bool, time: int)
    | Connected(a: Service, time: int)
    | SetServices(a: Service, flags: Flags)
    | ResolveCollisions(ids: seq<Id>, clock: seq<PositiveTime>)
    | SelectTriedCollision(pick: Id)
    | GetAddr

  /** The ids of a set in ascending order, as an ordered set is walked. */
  ghost predicate Ascending(ids: seq<Id>, c: set<Id>) {
    && (forall i, j :: 0 <= i < j < |ids| ==> ids[i] < ids[j])
    && c == (set i | 0 <= i < |ids| :: ids[i])
  }

  /** Walk a set of ids below `bound` in ascending order. */
  method AscendingIds(c: set<Id>, bound: nat) returns (ids: seq<Id>)
    requires forall id :: id in c ==> 0 <= id < bound
    ensures Ascending(ids, c) && |ids| == |c|
  {
    ids := [];
    var n := 0;
    while n < bound
      invariant 0 <= n <= bound
      invariant forall i, j :: 0 <= i < j < |ids| ==> ids[i] < ids[j]
      invariant forall i :: 0 <= i < |ids| ==> ids[i] < n && ids[i] in c
      invariant forall x :: x in c && x < n ==> x in ids
    {
      if n in c {
        ids := ids + [n];
      }
      n := n + 1;
    }
    assert c == set i | 0 <= i < |ids| :: ids[i];
    AscendingCard(ids, c);
  }

  lemma {:induction false} AscendingCard(ids: seq<Id>, c: set<Id>)
    requires Ascending(ids, c)
    ensures |ids| == |c|
  {
    if ids == [] {
      assert c == {};
    } else {
      var n := |ids| - 1;
      assert forall i :: 0 <= i < n ==> ids[..n][i] == ids[i] && ids[i] in c;
      assert ids[n] in c;
      AscendingCard(ids[..n], c - {ids[n]});
    }
  }

  /** One public operation, called with the times its callers pass. */
  ghost predicate Step(e: Env, s: State, op: Op, s': State)
    requires Inv(e, s)
  {
    match op
    case Add(anns, source, penalty) => s' == AddedAll(e, s, anns, source, penalty).0
    case Good(a, time) => time > 0 && s' == GoodDone(e, s, a, true, time).0
    case Attempt(a, countFailure, time) => time >= 0 && s' == Attempted(s, a, countFailure, time)
    case Connected(a, time) => s' == ConnectedTo(s, a, time)
    case SetServices(a, flags) => s' == ServicesSet(s, a, flags)
    case ResolveCollisions(ids, clock) =>
      Ascending(ids, s.collisions) && |clock| == |ids| && s' == Resolved(e, s, ids, clock)
    case SelectTriedCollision(pick) => s' == SelectedTried(s, pick)
    case GetAddr => OnlyReordered(s, s') && RandomOk(s')
  }

  lemma StepInv(e: Env, s: State, op: Op, s': State)
    requires Inv(e, s) && Step(e, s, op, s')
    ensures Inv(e, s')
  {
    hide Weak, TimesOk, CollisionsOk, AddedAll, Resolved;
    match op
    case Add(_, _, _) =>
    case Good(a, time) => GoodInv(e, s, a, true, time);
    case Attempt(a, countFailure, time) => AttemptedInv(e, s, a, countFailure, time);
    case Connected(a, time) => ConnectedInv(e, s, a, time);
    case SetServices(a, flags) => ServicesSetInv(e, s, a, flags);
    case ResolveCollisions(_, _) =>
    case SelectTriedCollision(pick) => SelectedTriedInv(e, s, pick);
    case GetAddr => ReorderedInv(e, s, s');
  }

  lemma ReorderedInv(e: Env, s: State, s': State)
    requires Inv(e, s) && OnlyReordered(s, s') && RandomOk(s')
    ensures Inv(e, s')
  {
    hide Weak;
    ReorderedKeeps(e, s, {}, {}, s');
  }

  lemma EmptyInv(e: Env, key: Key)
    requires key != 0
    ensures Inv(e, EmptyState(key))
  {
    var s := EmptyState(key);
    assert Members(s, {}, InNew) == {} && Members(s, {}, InTried) == {};
    forall net ensures MembersOn(e, s, {}, InNew, net) == {} && MembersOn(e, s, {}, InTried, net) == {} {}
  }

  // ---------- Tried slots never empty again ----------

  lemma AddedSingleTried(e: Env, s: State, a: Address, source: NetAddr, timePenalty: int, now: int, later: int, coin: bool)
    requires Inv(e, s)
    ensures AddedSingle(e, s, a, source, timePenalty, now, later, coin).0.triedTable == s.triedTable
  {
    hide TimesOk, CollisionsOk, Inserted, Newcomer, RandomOk, NewTableOk, TriedTableOk, RefsOk, CountsOk;
    var penalty := if a.service.ip == source then 0 else timePenalty;
    if a.service in s.addr {
      var id := s.addr[a.service];
      RefreshedInv(e, s, id, a, penalty, now);
      InsertedEffect(e, Touched(s, id, Refreshed(s.info[id], a, penalty, now)), id, source, later);
    } else {
      NewcomerWeak(e, s, a, source, penalty);
      NewcomerFrame(e, s, a, source, penalty);
      InsertedEffect(e, Newcomer(e, s, a, source, penalty), s.idCount, source, later);
    }
  }

  lemma {:induction false} AddedAllTried(e: Env, s: State, anns: seq<Announcement>, source: NetAddr, penalty: int)
    requires Inv(e, s)
    ensures AddedAll(e, s, anns, source, penalty).0.triedTable == s.triedTable
  {
    hide Inv, AddedSingle;
    if anns != [] {
      var n := |anns| - 1;
      AddedAllTried(e, s, anns[..n], source, penalty);
      AddedSingleTried(e, AddedAll(e, s, anns[..n], source, penalty).0,
                       anns[n].a, source, penalty, anns[n].now, anns[n].later, anns[n].coin);
    }
  }

  lemma GoodTried(e: Env, s: State, a: Service, testBeforeEvict: bool, time: int)
    requires Inv(e, s) && time > 0
    ensures var r := GoodDone(e, s, a, testBeforeEvict, time);
      && s.triedTable.Keys <= r.0.triedTable.Keys
      && (!r.1 ==> r.0.triedTable == s.triedTable)
      && (r.1 ==> a in s.addr && r.0.triedTable == s.triedTable[e.Home(s.key, a) := s.addr[a]])
  {
    hide Inv, MadeTried;
    if a in s.addr {
      KnownFacts(e, s, a);
      var id := s.addr[a];
      var s1 := Touched(s.(lastGood := time), id, Reached(s.info[id], time));
      if !s1.info[id].inTried {
        ReachedInv(e, s, id, time);
        InvReady(e, s1);
        MadeTriedEffect(e, s1, id);
      }
    }
  }

  lemma InvReady(e: Env, s: State)
    requires Inv(e, s)
    ensures RandomOk(s) && NewTableOk(e, s) && TriedTableOk(e, s)
  {
  }

  lemma ResolvedOneTried(e: Env, s: State, id: Id, now: PositiveTime)
    requires Inv(e, s)
    ensures s.triedTable.Keys <= ResolvedOne(e, s, id, now).triedTable.Keys
  {
    hide Inv, GoodDone;
    InvReady(e, s);
    if Judge(e, s, id, now) == Replace {
      GoodTried(e, s, s.info[id].Service(), false, now);
    }
  }

  lemma {:induction false} ResolvedTried(e: Env, s: State, ids: seq<Id>, clock: seq<PositiveTime>)
    requires Inv(e, s) && |clock| == |ids|
    ensures s.triedTable.Keys <= Resolved(e, s, ids, clock).triedTable.Keys
    decreases |ids|
  {
    hide Inv, ResolvedOne;
    if ids != [] {
      ResolvedOneTried(e, s, ids[0], clock[0]);
      ResolvedTried(e, ResolvedOne(e, s, ids[0], clock[0]), ids[1..], clock[1..]);
    }
  }

  /** After any operation, every tried slot that was occupied is occupied. */
  lemma StepTried(e: Env, s: State, op: Op, s': State)
    requires Inv(e, s) && Step(e, s, op, s')
    ensures s.triedTable.Keys <= s'.triedTable.Keys
  {
    hide Inv, AddedAll, GoodDone, Resolved;
    match op
    case Add(anns, source, penalty) => AddedAllTried(e, s, anns, source, penalty);
    case Good(a, time) => GoodTried(e, s, a, true, time);
    case Attempt(_, _, _) =>
    case Connected(_, _) =>
    case SetServices(_, _) =>
    case ResolveCollisions(ids, clock) => ResolvedTried(e, s, ids, clock);
    case SelectTriedCollision(_) =>
    case GetAddr =>
  }

  // ---------- Runs ----------

  /** `states` is what a run of `ops` from the empty manager passes through. A manager whose
    * invariant is broken may do anything.
    */
  ghost predicate IsRun(e: Env, key: Key, ops: seq<Op>, states: seq<State>) {
    && |states| == |ops| + 1
    && key != 0
    && states[0] == EmptyState(key)
    && (forall i :: 0 <= i < |ops| ==> Inv(e, states[i]) ==> Step(e, states[i], ops[i], states[i + 1]))
  }

  /** Every state of every run satisfies the full cross-index invariant. */
  lemma {:induction false} RunInv(e: Env, key: Key, ops: seq<Op>, states: seq<State>, i: nat)
    requires IsRun(e, key, ops, states) && i < |states|
    ensures Inv(e, states[i])
  {
    hide Inv, Step;
    if i == 0 {
      EmptyInv(e, key);
    } else {
      RunInv(e, key, ops, states, i - 1);
      StepInv(e, states[i - 1], ops[i - 1], states[i]);
    }
  }

  /** In every run a tried slot, once occupied, is occupied ever after. */
  lemma {:induction false} RunTried(e: Env, key: Key, ops: seq<Op>, states: seq<State>, i: nat, j: nat)
    requires IsRun(e, key, ops, states) && i <= j < |states|
    ensures states[i].triedTable.Keys <= states[j].triedTable.Keys
    decreases j
  {
    hide Inv, Step;
    if i < j {
      RunTried(e, key, ops, states, i, j - 1);
      RunInv(e, key, ops, states, j - 1);
      StepTried(e, states[j - 1], ops[j - 1], states[j]);
    }
  }

  /** In every run the collision set is bounded, and selecting a remembered id that still
    * exists finds a real tried entry, never an empty slot.
    */
  lemma RunNoPhantom(e: Env, key: Key, ops: seq<Op>, states: seq<State>, i: nat, pick: Id)
    requires IsRun(e, key, ops, states) && i < |states|
    ensures |states[i].collisions| <= TRIED_COLLISION_SIZE
    ensures pick in states[i].collisions && pick in states[i].info ==>
      var home := states[i].HomeOf(e, pick);
      && home in states[i].triedTable
      && states[i].triedTable[home] in states[i].info
      && states[i].info[states[i].triedTable[home]].inTried
  {
    hide Step, IsRun, RandomOk, IndexOk, NewTableOk, RefsOk, CountsOk;
    RunInv(e, key, ops, states, i);
  }
}
