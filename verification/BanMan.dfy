/** The ban list and its copy on disk. The methods are the critical sections of the code; they
  * are interleaved in `BanRuns`.
  */
module BanMan {
  datatype Option<T> = None | Some(value: T)

  datatype Subnet = Subnet(id: int, valid: bool)

  datatype Entry = Entry(created: int, until: int)

  type Bans = map<Subnet, Entry>

  /** An entry as it is made when a missing subnet is looked up. */
  const BLANK := Entry(0, 0)

  // ---------- The list ----------

  /** Neither expired nor under an invalid subnet. */
  predicate Kept(now: int, subnet: Subnet, entry: Entry) {
    subnet.valid && now <= entry.until
  }

  function Swept(now: int, bans: Bans): Bans {
    map s | s in bans && Kept(now, s, bans[s]) :: bans[s]
  }

  /** Look up a subnet, making a blank entry if it is missing. */
  function LookedUp(bans: Bans, subnet: Subnet): Bans {
    if subnet in bans then bans else bans[subnet := BLANK]
  }

  /** Whether an address is banned at some time; `covers` tells which subnets contain it. An
    * invalid subnet contains no address.
    */
  ghost predicate AddressBanned(bans: Bans, covers: Subnet -> bool, time: int) {
    exists s :: s in bans && time < bans[s].until && s.valid && covers(s)
  }

  /** Whether exactly this subnet is banned at some time. */
  predicate SubnetBanned(bans: Bans, subnet: Subnet, time: int) {
    subnet in bans && time < bans[subnet].until
  }

  /** Sweeping changes no present or later answer about any address. */
  lemma SweepKeepsAnswers(bans: Bans, now: int, time: int, covers: Subnet -> bool)
    requires now <= time
    ensures AddressBanned(Swept(now, bans), covers, time) <==> AddressBanned(bans, covers, time)
  {
    if AddressBanned(bans, covers, time) {
      var s :| s in bans && time < bans[s].until && s.valid && covers(s);
      assert s in Swept(now, bans);
    }
    if AddressBanned(Swept(now, bans), covers, time) {
      var s :| s in Swept(now, bans) && time < Swept(now, bans)[s].until && s.valid && covers(s);
      assert s in bans;
    }
  }

  /** For an exact subnet sweeping changes a present or later answer exactly when the subnet is
    * banned and invalid.
    */
  lemma SweepExactSubnet(bans: Bans, now: int, time: int, subnet: Subnet)
    requires now <= time
    ensures SubnetBanned(Swept(now, bans), subnet, time) != SubnetBanned(bans, subnet, time)
       <==> SubnetBanned(bans, subnet, time) && !subnet.valid
  {
  }

  /** An invalid subnet with an unexpired ban: listed before a sweep, not after. */
  lemma SweepForgetsInvalid()
    ensures var s := Subnet(1, false); var bans := map[s := Entry(0, 100)];
      SubnetBanned(bans, s, 50) && !SubnetBanned(Swept(50, bans), s, 50)
  {
  }

  /** Sweeping again, at the same or a later time, removes no more than sweeping then. */
  lemma SweepTwice(bans: Bans, now: int, later: int)
    requires now <= later
    ensures Swept(later, Swept(now, bans)) == Swept(later, bans)
  {
  }

  // ---------- The critical sections ----------

  /** What the lock protects: the list, and whether it has changes that are not written. */
  datatype Core = Core(bans: Bans, dirty: bool)

  function SweptCore(now: int, c: Core): Core {
    Core(Swept(now, c.bans), c.dirty || Swept(now, c.bans) != c.bans)
  }

  /** A ban is recorded if it ends later than what is there; a missing subnet counts as ending
    * at zero, and stays in the list as a blank entry.
    */
  function BannedCore(c: Core, subnet: Subnet, entry: Entry): Core {
    var bans := LookedUp(c.bans, subnet);
    if bans[subnet].until < entry.until then Core(bans[subnet := entry], true) else Core(bans, c.dirty)
  }

  function UnbannedCore(c: Core, subnet: Subnet): Core {
    Core(c.bans - {subnet}, c.dirty || subnet in c.bans)
  }

  /** The entry for a ban: an offset that is not positive stands for the default time from now. */
  function EntryFor(created: int, now: int, offset: int, sinceEpoch: bool, defaultTime: int): (e: Entry)
    ensures e.until > 0 <==> (offset > 0 && sinceEpoch) || now + (if offset > 0 then offset else defaultTime) > 0
    ensures e.created == created
    ensures offset <= 0 ==> e.until - now == defaultTime
    ensures offset > 0 ==> e.until == offset + if sinceEpoch then 0 else now
  {
    var usedOffset := if offset <= 0 then defaultTime else offset;
    var usedEpoch := sinceEpoch && offset > 0;
    Entry(created, (if usedEpoch then 0 else now) + usedOffset)
  }

  // ---------- The manager ----------

  ghost predicate Enumerates(order: seq<Subnet>, bans: Bans) {
    && (forall s :: s in order <==> s in bans)
    && (forall i, j :: 0 <= i < j < |order| ==> order[i] != order[j])
  }

  class BanList {
    var banned: Bans
    var dirty: bool
    /** The file: what it holds, or nothing readable. */
    var disk: Option<Bans>

    ghost function View(): Core
      reads this
    {
      Core(banned, dirty)
    }

    /** Load the list: an unreadable file is replaced by an empty list to be written out.
      * `order` is the order of the subnets in the list.
      */
    constructor (file: Option<Bans>, now: int, order: seq<Subnet>)
      requires file.Some? ==> Enumerates(order, file.value)
      ensures disk == file
      ensures file.None? ==> banned == map[] && dirty
      ensures file.Some? ==> View() == SweptCore(now, Core(file.value, false))
    {
      banned, dirty, disk := map[], false, file;
      new;
      if file.Some? {
        banned := file.value;
        Sweep(now, order);
      } else {
        dirty := true;
      }
    }

    /** Remove what is expired or invalid, entry by entry. */
    method Sweep(now: int, order: seq<Subnet>)
      requires Enumerates(order, banned)
      modifies this`banned, this`dirty
      ensures View() == SweptCore(now, old(View()))
      ensures forall s :: s in banned <==> s in old(banned) && s.valid && now <= old(banned)[s].until
      ensures forall s :: s in banned ==> banned[s] == old(banned)[s]
      ensures dirty <==> old(dirty) || banned != old(banned)
    {
      hide Partly;
      ghost var start := banned;
      NothingSwept(now, start);
      assert order[..0] == [];
      for i := 0 to |order|
        invariant banned == Partly(now, start, order[..i])
        invariant dirty <==> old(dirty) || banned != start
      {
        var s := order[i];
        PartlyNext(now, start, order, i);
        if !Kept(now, s, banned[s]) {
          banned := banned - {s};
          dirty := true;
        }
      }
      assert order[..|order|] == order;
      AllSwept(now, start, order);
    }

    /** Record a ban unless the subnet is banned for longer. A missing subnet is looked up
      * first, which makes a blank entry.
      */
    method Ban(subnet: Subnet, entry: Entry) returns (recorded: bool)
      modifies this`banned, this`dirty
      ensures View() == BannedCore(old(View()), subnet, entry)
      ensures recorded <==> (subnet in old(banned) && old(banned)[subnet].until < entry.until) || (subnet !in old(banned) && 0 < entry.until)
      ensures recorded ==> banned == old(banned)[subnet := entry]
    {
      if subnet !in banned { banned := banned[subnet := BLANK]; }
      if banned[subnet].until < entry.until {
        banned := banned[subnet := entry];
        dirty := true;
        return true;
      }
      return false;
    }

    method Unban(subnet: Subnet) returns (removed: bool)
      modifies this`banned, this`dirty
      ensures removed <==> subnet in old(banned)
      ensures View() == UnbannedCore(old(View()), subnet)
    {
      if subnet !in banned {
        assert banned - {subnet} == banned;
        return false;
      }
      banned := banned - {subnet};
      dirty := true;
      return true;
    }

    method Clear()
      modifies this`banned, this`dirty
      ensures banned == map[] && dirty
    {
      banned, dirty := map[], true;
    }

    /** A copy of the list without expired bans. */
    method GetBanned(now: int, order: seq<Subnet>) returns (bans: Bans)
      requires Enumerates(order, banned)
      modifies this`banned, this`dirty
      ensures bans == banned && View() == SweptCore(now, old(View()))
    {
      Sweep(now, order);
      bans := banned;
    }

    /** The first half of a dump, under the lock: what is to be written, if anything. */
    method DumpStart(now: int, order: seq<Subnet>) returns (copy: Option<Bans>)
      requires Enumerates(order, banned)
      modifies this`banned, this`dirty
      ensures banned == SweptCore(now, old(View())).bans && !dirty
      ensures copy == if SweptCore(now, old(View())).dirty then Some(banned) else None
    {
      Sweep(now, order);
      if !dirty { return None; }
      copy := Some(banned);
      dirty := false;
    }

    /** The second half: the file is written. A write that fails leaves anything in the file. */
    method DumpEnd(copy: Bans, ok: bool, debris: Option<Bans>)
      modifies this`disk, this`dirty
      ensures ok ==> disk == Some(copy) && dirty == old(dirty)
      ensures !ok ==> disk == debris && dirty
    {
      if ok {
        disk := Some(copy);
      } else {
        disk := debris;
        dirty := true;
      }
    }

    /** A whole dump with nothing in between: the file holds the list, or the list stays to be
      * written.
      */
    method DumpBanlist(now: int, order: seq<Subnet>, ok: bool, debris: Option<Bans>)
      requires Enumerates(order, banned)
      requires !dirty ==> disk == Some(banned)
      modifies this
      ensures banned == Swept(now, old(banned))
      ensures !dirty ==> disk == Some(banned)
      ensures ok ==> !dirty
    {
      var copy := DumpStart(now, order);
      if copy.None? { return; }
      DumpEnd(copy.value, ok, debris);
    }

    method IsBanned(covers: Subnet -> bool, time: int, order: seq<Subnet>) returns (r: bool)
      requires Enumerates(order, banned)
      ensures r <==> AddressBanned(banned, covers, time)
    {
      for i := 0 to |order|
        invariant forall k :: 0 <= k < i ==> !(time < banned[order[k]].until && order[k].valid && covers(order[k]))
      {
        var s := order[i];
        assert s in order;
        if time < banned[s].until && s.valid && covers(s) { return true; }
      }
      return false;
    }
  }

  /** The list when the subnets in `done` have been looked at. */
  ghost function Partly(now: int, bans: Bans, done: seq<Subnet>): Bans {
    map s | s in bans && (s in done ==> Kept(now, s, bans[s])) :: bans[s]
  }

  lemma NothingSwept(now: int, bans: Bans)
    ensures Partly(now, bans, []) == bans
  {
  }

  lemma PartlyNext(now: int, bans: Bans, order: seq<Subnet>, i: nat)
    requires i < |order| && Enumerates(order, bans)
    ensures var s := order[i]; var now' := Partly(now, bans, order[..i]);
      && s in bans && s in now' && now'[s] == bans[s]
      && Partly(now, bans, order[..i + 1]) == (if Kept(now, s, bans[s]) then now' else now' - {s})
      && now' - {s} != bans
  {
    var s := order[i];
    assert s in order && s !in order[..i];
    assert order[..i + 1] == order[..i] + [s];
  }

  lemma AllSwept(now: int, bans: Bans, order: seq<Subnet>)
    requires Enumerates(order, bans)
    ensures Partly(now, bans, order) == Swept(now, bans)
  {
  }
}

/** Any interleaving of bans, unbans, clears, listings and dumps. A dump is two steps, with the
  * file written in between; only one dump is under way at a time.
  */
module BanRuns {
  import opened BanMan

  /** The list, the file, the copy being written if a dump is under way, and the clock. */
  datatype State = State(core: Core, disk: Option<Bans>, dump: Option<Bans>, now: int)

  datatype Step =
    | Tick(time: int)
    | Ban(subnet: Subnet, entry: Entry)
    | Unban(subnet: Subnet)
    | Clear
    | List
    | DumpBegin
    | DumpFinish(ok: bool, debris: Option<Bans>)

  predicate Enabled(s: State, step: Step) {
    match step
    case Tick(time) => s.now <= time
    case DumpBegin => s.dump.None?
    case DumpFinish(_, _) => s.dump.Some?
    case _ => true
  }

  function Next(s: State, step: Step): State
    requires Enabled(s, step)
  {
    match step
    case Tick(time) => s.(now := time)
    case Ban(subnet, entry) => s.(core := BannedCore(s.core, subnet, entry))
    case Unban(subnet) => s.(core := UnbannedCore(s.core, subnet))
    case Clear => s.(core := Core(map[], true))
    case List => s.(core := SweptCore(s.now, s.core))
    case DumpBegin =>
      var c := SweptCore(s.now, s.core);
      if c.dirty then s.(core := Core(c.bans, false), dump := Some(c.bans)) else s.(core := c)
    case DumpFinish(ok, debris) =>
      if ok then s.(disk := Some(s.dump.value), dump := None)
      else s.(disk := debris, dump := None, core := Core(s.core.bans, true))
  }

  /** The state after loading: the list read from the file and swept, or an empty one to be written. */
  function Loaded(file: Option<Bans>, now: int): State {
    var core := if file.Some? then SweptCore(now, Core(file.value, false)) else Core(map[], true);
    State(core, file, None, now)
  }

  /** Without changes to write, the file holds the list, or the dump under way will put it there. */
  ghost predicate Saved(s: State) {
    !s.core.dirty ==> (if s.dump.Some? then s.dump.value == s.core.bans else s.disk == Some(s.core.bans))
  }

  /** A ban that ends in the future of the epoch. */
  predicate Positive(step: Step) {
    step.Ban? ==> step.entry.until > 0
  }

  lemma LoadedSaved(file: Option<Bans>, now: int)
    ensures Saved(Loaded(file, now))
  {
  }

  /** A ban keeps the list saved exactly when it ends after the epoch, or its subnet is listed
    * already, or there are changes to write anyway.
    */
  lemma BanSaved(s: State, subnet: Subnet, entry: Entry)
    requires Saved(s)
    ensures Saved(Next(s, Ban(subnet, entry))) <==> entry.until > 0 || subnet in s.core.bans || s.core.dirty
  {
    if subnet !in s.core.bans {
      assert subnet in LookedUp(s.core.bans, subnet);
    }
  }

  /** A ban that ends at the epoch leaves a blank entry in memory that is not marked for writing. */
  lemma BlankNotSaved()
    ensures var s := Loaded(Some(map[]), 100); var s' := Next(s, Ban(Subnet(1, true), Entry(100, 0)));
      Saved(s) && !s'.core.dirty && s'.dump.None? && s'.disk != Some(s'.core.bans)
  {
    var s := Loaded(Some(map[]), 100);
    var s' := Next(s, Ban(Subnet(1, true), Entry(100, 0)));
    assert Subnet(1, true) in s'.core.bans;
  }

  lemma StepSaved(s: State, step: Step)
    requires Saved(s) && Enabled(s, step) && Positive(step)
    ensures Saved(Next(s, step))
  {
    match step
    case Ban(subnet, entry) => BanSaved(s, subnet, entry);
    case Unban(subnet) => assert subnet !in s.core.bans ==> s.core.bans - {subnet} == s.core.bans;
    case _ =>
  }

  /** No step of a listing or a dump changes a present or later answer about an address. */
  lemma StepAnswers(s: State, step: Step, covers: Subnet -> bool, time: int)
    requires Enabled(s, step) && s.now <= time && (step.List? || step.DumpBegin? || step.DumpFinish? || step.Tick?)
    ensures AddressBanned(Next(s, step).core.bans, covers, time) <==> AddressBanned(s.core.bans, covers, time)
  {
    SweepKeepsAnswers(s.core.bans, s.now, time, covers);
  }

  /** A ban only lengthens: afterwards the subnet is banned at least as long as before and as asked. */
  lemma BanLengthens(s: State, subnet: Subnet, entry: Entry, time: int)
    requires entry.until > 0
    ensures SubnetBanned(Next(s, Ban(subnet, entry)).core.bans, subnet, time)
       <==> SubnetBanned(s.core.bans, subnet, time) || time < entry.until
  {
  }

  // ---------- Runs ----------

  ghost predicate IsRun(states: seq<State>, steps: seq<Step>) {
    && |states| == |steps| + 1
    && forall i :: 0 <= i < |steps| ==> Enabled(states[i], steps[i]) && states[i + 1] == Next(states[i], steps[i])
  }

  /** In every run with positive ban end times, whenever there is nothing to write and no dump
    * is under way, the file and the list are the same.
    */
  lemma {:induction false} RunSaved(states: seq<State>, steps: seq<Step>, file: Option<Bans>, now: int, k: nat)
    requires IsRun(states, steps) && states[0] == Loaded(file, now) && k < |states|
    requires forall i :: 0 <= i < |steps| ==> Positive(steps[i])
    ensures Saved(states[k])
    ensures !states[k].core.dirty && states[k].dump.None? ==> states[k].disk == Some(states[k].core.bans)
  {
    hide Next, Enabled;
    if k == 0 {
      LoadedSaved(file, now);
    } else {
      RunSaved(states, steps, file, now, k - 1);
      StepSaved(states[k - 1], steps[k - 1]);
    }
  }

  /** A stretch of a run without bans, unbans or clears answers every later question about an
    * address as the start of it would.
    */
  lemma {:induction false} RunAnswers(states: seq<State>, steps: seq<Step>, k: nat, covers: Subnet -> bool, time: int)
    requires IsRun(states, steps) && k < |states| && states[k].now <= time
    requires forall i :: 0 <= i < k ==> steps[i].List? || steps[i].DumpBegin? || steps[i].DumpFinish? || steps[i].Tick?
    ensures AddressBanned(states[k].core.bans, covers, time) <==> AddressBanned(states[0].core.bans, covers, time)
  {
    hide AddressBanned;
    if k > 0 {
      ClockRuns(states[k - 1], steps[k - 1]);
      RunAnswers(states, steps, k - 1, covers, time);
      StepAnswers(states[k - 1], steps[k - 1], covers, time);
    }
  }

  lemma ClockRuns(s: State, step: Step)
    requires Enabled(s, step)
    ensures s.now <= Next(s, step).now
  {
  }
}
