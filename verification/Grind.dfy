/** Grinding a block header for a nonce with several tasks at once. Each task tests the nonces
  * of its own residue class in batches; the tasks share a flag and a proposed nonce. A run is
  * any interleaving of single steps of the tasks.
  */
module Grind {
  import opened Powers

  const UINT32: nat := 0x1_0000_0000

  datatype Option<T> = None | Some(value: T)

  /** Where a task is. `Test` is inside a batch that ends at `next`; `Swap` has found a nonce and
    * is about to set the flag; `Write` has set it and is about to propose its nonce.
    */
  datatype Task =
    | Start
    | Check(nonce: nat)
    | Test(nonce: nat, next: nat)
    | Swap(nonce: nat)
    | Write(nonce: nat)
    | Done

  /** The tasks, the shared flag and the proposed nonce. `winner` records who set the flag. */
  datatype State = State(tasks: seq<Task>, found: bool, proposed: nat, winner: Option<nat>)

  /** What does not change: whether the target is usable, and which nonces meet it. */
  datatype Job = Job(n: nat, usable: bool, meets: nat -> bool)

  /** At least one task, and a batch fits in 32 bits. */
  predicate JobOk(job: Job) {
    1 <= job.n && 5000 * job.n < UINT32
  }

  /** The end of the nonces tried: the largest multiple of `n` that leaves room for `n` more. */
  function Bound(n: nat): (b: nat)
    requires 1 <= n && 5000 * n < UINT32
    ensures b <= UINT32 - 1 - n
  {
    var finish := UINT32 - 1 - n;
    finish - finish % n
  }

  /** Where task `t` stops, in 32-bit arithmetic. */
  function Finish(n: nat, t: nat): nat
    requires 1 <= n && 5000 * n < UINT32
  {
    (Bound(n) + t) % UINT32
  }

  function NextBatch(n: nat, t: nat, nonce: nat): nat
    requires 1 <= n && 5000 * n < UINT32
  {
    var finish := Finish(n, t);
    var batch := (5000 * n) % UINT32;
    if (finish - nonce) % UINT32 < batch then finish else (nonce + batch) % UINT32
  }

  /** One step of task `t`. */
  function Stepped(job: Job, s: State, t: nat): State
    requires JobOk(job) && t < |s.tasks| && s.tasks[t] != Done
  {
    match s.tasks[t]
    case Start => s.(tasks := s.tasks[t := if job.usable then Check(t) else Done])
    case Check(nonce) =>
      if !s.found && nonce < Finish(job.n, t) then s.(tasks := s.tasks[t := Test(nonce, NextBatch(job.n, t, nonce))])
      else s.(tasks := s.tasks[t := Done])
    case Test(nonce, next) =>
      if job.meets(nonce) then s.(tasks := s.tasks[t := Swap(nonce)])
      else
        var nonce' := (nonce + job.n) % UINT32;
        s.(tasks := s.tasks[t := if nonce' != next then Test(nonce', next) else Check(nonce')])
    case Swap(nonce) =>
      if s.found then s.(tasks := s.tasks[t := Done])
      else s.(tasks := s.tasks[t := Write(nonce)], found := true, winner := Some(t))
    case Write(nonce) => s.(tasks := s.tasks[t := Done], proposed := nonce)
  }

  function Initial(n: nat): (s: State)
    ensures |s.tasks| == n && forall t :: 0 <= t < n ==> s.tasks[t] == Start
  {
    State(seq(n, _ => Start), false, 0, None)
  }

  // ---------- Numbers of a task ----------

  /** `x` is one of the nonces of task `t`, up to its end. */
  ghost predicate Own(n: nat, t: nat, x: nat)
    requires 1 <= n && 5000 * n < UINT32
  {
    exists k: nat :: x == t + k * n && k * n <= Bound(n)
  }

  lemma BoundMultiple(n: nat) returns (q: nat)
    requires 1 <= n && 5000 * n < UINT32
    ensures Bound(n) == q * n
  {
    var finish := UINT32 - 1 - n;
    q := finish / n;
    Parts(finish, n);
  }

  /** The bound is the largest multiple of `n` that is `n` or more below the largest nonce. */
  lemma BoundLargest(n: nat)
    requires 1 <= n && 5000 * n < UINT32
    ensures Bound(n) % n == 0 && Bound(n) + n <= 4294967295 < Bound(n) + 2 * n
  {
    var q := BoundMultiple(n);
    Divides(Bound(n), n, q, 0);
  }

  lemma FinishExact(n: nat, t: nat)
    requires 1 <= n && 5000 * n < UINT32 && t < n
    ensures Finish(n, t) == Bound(n) + t < UINT32 - 1
  {
  }

  lemma NextBatchExact(n: nat, t: nat, nonce: nat)
    requires 1 <= n && 5000 * n < UINT32 && t < n && nonce < Finish(n, t)
    ensures NextBatch(n, t, nonce) == if Finish(n, t) - nonce < 5000 * n then Finish(n, t) else nonce + 5000 * n
  {
    hide Bound;
    FinishExact(n, t);
  }

  /** The end of a batch is a nonce of the task after the present one, and not past the end. */
  lemma BatchLands(n: nat, t: nat, nonce: nat)
    requires 1 <= n && 5000 * n < UINT32 && t < n && Own(n, t, nonce) && nonce < Finish(n, t)
    ensures nonce < NextBatch(n, t, nonce) <= Finish(n, t) && Own(n, t, NextBatch(n, t, nonce))
  {
    hide NextBatch, Bound, Finish;
    NextBatchExact(n, t, nonce);
    FinishExact(n, t);
    var k: nat :| nonce == t + k * n && k * n <= Bound(n);
    if Finish(n, t) - nonce < 5000 * n {
      OwnFinish(n, t);
    } else {
      Distribute(n, k, 5000);
      OwnBy(n, t, nonce + 5000 * n, k + 5000);
    }
  }

  lemma OwnBy(n: nat, t: nat, x: nat, k: nat)
    requires 1 <= n && 5000 * n < UINT32 && x == t + k * n && x <= Bound(n) + t
    ensures Own(n, t, x)
  {
  }

  lemma OwnFinish(n: nat, t: nat)
    requires 1 <= n && 5000 * n < UINT32 && t < n
    ensures Own(n, t, t) && Own(n, t, Finish(n, t)) && t <= Finish(n, t)
  {
    hide Bound;
    FinishExact(n, t);
    var q := BoundMultiple(n);
    OwnBy(n, t, Finish(n, t), q);
    OwnBy(n, t, t, 0);
  }

  /** Between a nonce of a task and the next there is no other of that task. */
  lemma OwnGap(n: nat, t: nat, x: nat, y: nat)
    requires 1 <= n && 5000 * n < UINT32 && Own(n, t, x) && Own(n, t, y) && y < x + n
    ensures y <= x
  {
    var k: nat :| x == t + k * n && k * n <= Bound(n);
    var l: nat :| y == t + l * n && l * n <= Bound(n);
    if k < l {
      Gap(k, l, n);
    } else {
      MulMonotone(l, n, k, n);
    }
  }

  /** Two nonces of a task, the smaller one: adding `n` does not go past the larger one. */
  lemma StepWithin(n: nat, t: nat, nonce: nat, next: nat)
    requires 1 <= n && 5000 * n < UINT32 && t < n && Own(n, t, nonce) && Own(n, t, next) && nonce < next <= Finish(n, t)
    ensures (nonce + n) % UINT32 == nonce + n <= next && Own(n, t, nonce + n)
  {
    FinishExact(n, t);
    var k: nat :| nonce == t + k * n && k * n <= Bound(n);
    var l: nat :| next == t + l * n && l * n <= Bound(n);
    if l <= k {
      MulMonotone(l, n, k, n);
    } else {
      Gap(k, l, n);
      Distribute(n, k, 1);
      assert nonce + n == t + (k + 1) * n;
    }
  }

  /** The nonces of different tasks differ. */
  lemma OwnDisjoint(n: nat, t: nat, u: nat, x: nat)
    requires 1 <= n && 5000 * n < UINT32 && t < n && u < n && Own(n, t, x) && Own(n, u, x)
    ensures t == u
  {
    var k: nat :| x == t + k * n && k * n <= Bound(n);
    var l: nat :| x == u + l * n && l * n <= Bound(n);
    Divides(x, n, k, t);
    Divides(x, n, l, u);
  }

  /** Every number below the bound belongs to some task, before its end. */
  lemma OwnCovers(n: nat, x: nat)
    requires 1 <= n && 5000 * n < UINT32 && x < Bound(n)
    ensures x % n < n && Own(n, x % n, x) && x < Bound(n) + x % n
  {
    Parts(x, n);
    assert x == x % n + (x / n) * n;
  }

  /** Before its end a task stays below the bound. */
  lemma OwnBelow(n: nat, t: nat, x: nat)
    requires 1 <= n && 5000 * n < UINT32 && t < n && Own(n, t, x) && x < Finish(n, t)
    ensures x < Bound(n)
  {
    FinishExact(n, t);
    var k: nat :| x == t + k * n && k * n <= Bound(n);
    var q := BoundMultiple(n);
    if k >= q { MulMonotone(q, n, k, n); } else { Gap(k, q, n); }
  }

  // ---------- What every step keeps ----------

  /** The task's nonces below `x` do not meet the target. */
  ghost predicate Clear(job: Job, t: nat, x: nat)
    requires JobOk(job)
  {
    forall y: nat :: Own(job.n, t, y) && y < x ==> !job.meets(y)
  }

  ghost predicate TaskOk(job: Job, s: State, t: nat)
    requires JobOk(job) && t < |s.tasks|
  {
    match s.tasks[t]
    case Start => true
    case Check(x) => job.usable && Own(job.n, t, x) && x <= Finish(job.n, t) && Clear(job, t, x)
    case Test(x, next) => job.usable && Own(job.n, t, x) && Own(job.n, t, next) && x < next <= Finish(job.n, t) && Clear(job, t, x)
    case Swap(x) => job.usable && Own(job.n, t, x) && x < Finish(job.n, t) && job.meets(x)
    case Write(x) => job.usable && Own(job.n, t, x) && x < Finish(job.n, t) && job.meets(x) && s.winner == Some(t)
    case Done => !job.usable || s.found || Clear(job, t, Finish(job.n, t))
  }

  /** The flag has been set by one task, which alone proposes its nonce. */
  ghost predicate WinnerOk(job: Job, s: State)
    requires JobOk(job) && |s.tasks| == job.n
  {
    && (s.found <==> s.winner.Some?)
    && (s.winner.Some? ==>
          var w := s.winner.value;
          && job.usable && w < job.n && (s.tasks[w].Write? || s.tasks[w].Done?)
          && (s.tasks[w].Done? ==> job.meets(s.proposed) && s.proposed < Bound(job.n) && Own(job.n, w, s.proposed)))
  }

  ghost predicate Inv(job: Job, s: State)
    requires JobOk(job)
  {
    && |s.tasks| == job.n
    && (forall t :: 0 <= t < job.n ==> TaskOk(job, s, t))
    && WinnerOk(job, s)
  }

  lemma InitialInv(job: Job)
    requires JobOk(job)
    ensures Inv(job, Initial(job.n))
  {
  }

  /** The task that steps. */
  lemma StepTask(job: Job, s: State, t: nat)
    requires JobOk(job) && Inv(job, s) && t < |s.tasks| && s.tasks[t] != Done
    ensures TaskOk(job, Stepped(job, s, t), t)
  {
    hide Bound, Own, NextBatch, Finish;
    var n := job.n;
    assert TaskOk(job, s, t);
    OwnFinish(n, t);
    match s.tasks[t]
    case Start =>
      forall y: nat | Own(n, t, y) ensures y >= t { OwnLeast(n, t, y); }
    case Check(x) =>
      if x < Finish(n, t) { BatchLands(n, t, x); }
    case Test(x, next) =>
      if !job.meets(x) {
        StepWithin(n, t, x, next);
        forall y: nat | Own(n, t, y) && y < x + n ensures !job.meets(y) {
          OwnGap(n, t, x, y);
        }
      }
    case Swap(x) =>
    case Write(x) =>
  }

  lemma OwnLeast(n: nat, t: nat, y: nat)
    requires 1 <= n && 5000 * n < UINT32 && Own(n, t, y)
    ensures y >= t
  {
  }

  /** Every other task is left as it was. */
  lemma StepOthers(job: Job, s: State, t: nat, u: nat)
    requires JobOk(job) && Inv(job, s) && t < |s.tasks| && s.tasks[t] != Done && u < |s.tasks| && u != t
    ensures TaskOk(job, Stepped(job, s, t), u)
  {
    hide Bound, Own, NextBatch, Finish, Clear;
    assert TaskOk(job, s, u) && TaskOk(job, s, t);
  }

  lemma StepWinner(job: Job, s: State, t: nat)
    requires JobOk(job) && Inv(job, s) && t < |s.tasks| && s.tasks[t] != Done
    ensures WinnerOk(job, Stepped(job, s, t))
  {
    hide Bound, Own, NextBatch, Finish, Clear;
    assert TaskOk(job, s, t);
    if s.tasks[t].Write? {
      OwnBelow(job.n, t, s.tasks[t].nonce);
    }
  }

  lemma StepInv(job: Job, s: State, t: nat)
    requires JobOk(job) && Inv(job, s) && t < |s.tasks| && s.tasks[t] != Done
    ensures Inv(job, Stepped(job, s, t))
  {
    hide TaskOk, WinnerOk, Stepped;
    StepShape(job, s, t);
    StepWinner(job, s, t);
    forall u | 0 <= u < job.n ensures TaskOk(job, Stepped(job, s, t), u) {
      if u == t { StepTask(job, s, t); } else { StepOthers(job, s, t, u); }
    }
  }

  lemma StepShape(job: Job, s: State, t: nat)
    requires JobOk(job) && t < |s.tasks| && s.tasks[t] != Done
    ensures |Stepped(job, s, t).tasks| == |s.tasks|
    ensures forall u :: 0 <= u < |s.tasks| && u != t ==> Stepped(job, s, t).tasks[u] == s.tasks[u]
  {
  }

  // ---------- Runs ----------

  /** A schedule names the task of each step; only tasks that are not done step. */
  ghost predicate IsRun(job: Job, schedule: seq<nat>)
    requires JobOk(job)
  {
    schedule == [] ||
    var n := |schedule| - 1;
    && IsRun(job, schedule[..n])
    && schedule[n] < job.n
    && |After(job, schedule[..n]).tasks| == job.n
    && After(job, schedule[..n]).tasks[schedule[n]] != Done
  }

  /** The state after a schedule; steps that cannot be taken are left out. */
  ghost function After(job: Job, schedule: seq<nat>): State
    requires JobOk(job)
  {
    if schedule == [] then Initial(job.n)
    else
      var s := After(job, schedule[..|schedule| - 1]);
      var t := schedule[|schedule| - 1];
      if t < |s.tasks| && s.tasks[t] != Done then Stepped(job, s, t) else s
  }

  lemma {:induction false} RunInv(job: Job, schedule: seq<nat>)
    requires JobOk(job)
    ensures Inv(job, After(job, schedule))
  {
    hide Inv, Stepped;
    if schedule == [] {
      InitialInv(job);
    } else {
      var s := After(job, schedule[..|schedule| - 1]);
      var t := schedule[|schedule| - 1];
      RunInv(job, schedule[..|schedule| - 1]);
      if t < |s.tasks| && s.tasks[t] != Done { StepInv(job, s, t); }
    }
  }

  /** Whatever the interleaving, and at whatever times, the nonces two tasks test are
    * different, and all of them are below the bound.
    */
  lemma TestsDisjoint(job: Job, a: seq<nat>, b: seq<nat>, t: nat, u: nat)
    requires JobOk(job) && t < job.n && u < job.n && t != u
    requires |After(job, a).tasks| == job.n && After(job, a).tasks[t].Test?
    requires |After(job, b).tasks| == job.n && After(job, b).tasks[u].Test?
    ensures After(job, a).tasks[t].nonce != After(job, b).tasks[u].nonce
    ensures After(job, a).tasks[t].nonce < Bound(job.n)
  {
    hide Bound, Own, After, Finish, Clear, WinnerOk;
    RunInv(job, a);
    RunInv(job, b);
    assert TaskOk(job, After(job, a), t) && TaskOk(job, After(job, b), u);
    var x := After(job, a).tasks[t].nonce;
    OwnBelow(job.n, t, x);
    if x == After(job, b).tasks[u].nonce {
      OwnDisjoint(job.n, t, u, x);
    }
  }

  /** At most one task is ever about to propose, and it is the one that set the flag. */
  lemma OneWriter(job: Job, schedule: seq<nat>, t: nat, u: nat)
    requires JobOk(job) && |After(job, schedule).tasks| == job.n && t < job.n && u < job.n
    requires After(job, schedule).tasks[t].Write? && After(job, schedule).tasks[u].Write?
    ensures t == u
  {
    hide Bound, Own, After, Finish, Clear, WinnerOk;
    RunInv(job, schedule);
    assert TaskOk(job, After(job, schedule), t) && TaskOk(job, After(job, schedule), u);
  }

  /** When all tasks are done: with a usable target the flag is set exactly when some nonce
    * below the bound meets it, and then the proposed nonce does; otherwise it is not set.
    */
  lemma GrindResult(job: Job, schedule: seq<nat>)
    requires JobOk(job)
    requires forall t :: 0 <= t < |After(job, schedule).tasks| ==> After(job, schedule).tasks[t] == Done
    ensures After(job, schedule).found ==> job.meets(After(job, schedule).proposed) && After(job, schedule).proposed < Bound(job.n)
    ensures After(job, schedule).found <==> job.usable && exists x :: 0 <= x < Bound(job.n) && job.meets(x)
  {
    hide Bound, Own, After, Finish;
    RunInv(job, schedule);
    var s := After(job, schedule);
    if !s.found && job.usable {
      forall x | 0 <= x < Bound(job.n) ensures !job.meets(x) {
        OwnCovers(job.n, x);
        FinishExact(job.n, x % job.n);
        assert TaskOk(job, s, x % job.n);
      }
    }
  }

  // ---------- Runs end ----------

  /** How many steps a task can still take at most. */
  ghost function Work(n: nat, t: nat, task: Task): nat
    requires 1 <= n && 5000 * n < UINT32
  {
    match task
    case Start => 2 * UINT32 + 5
    case Check(x) => if x <= Finish(n, t) then 2 * (Finish(n, t) - x) + 4 else 4
    case Test(x, _) => if x <= Finish(n, t) then 2 * (Finish(n, t) - x) + 3 else 3
    case Swap(_) => 2
    case Write(_) => 1
    case Done => 0
  }

  ghost function TotalWork(n: nat, tasks: seq<Task>): nat
    requires 1 <= n && 5000 * n < UINT32
  {
    if tasks == [] then 0 else TotalWork(n, tasks[..|tasks| - 1]) + Work(n, |tasks| - 1, tasks[|tasks| - 1])
  }

  lemma {:induction false} TotalSet(n: nat, tasks: seq<Task>, t: nat, task: Task)
    requires 1 <= n && 5000 * n < UINT32 && t < |tasks|
    ensures TotalWork(n, tasks[t := task]) == TotalWork(n, tasks) - Work(n, t, tasks[t]) + Work(n, t, task)
  {
    hide Work;
    var m := |tasks| - 1;
    if t == m {
      assert tasks[t := task][..m] == tasks[..m];
    } else {
      assert tasks[t := task][..m] == tasks[..m][t := task];
      TotalSet(n, tasks[..m], t, task);
    }
  }

  /** Every step uses up work. */
  lemma StepWork(job: Job, s: State, t: nat)
    requires JobOk(job) && Inv(job, s) && t < |s.tasks| && s.tasks[t] != Done
    ensures TotalWork(job.n, Stepped(job, s, t).tasks) < TotalWork(job.n, s.tasks)
  {
    hide Bound, Own, TotalWork, Clear;
    var n := job.n;
    assert TaskOk(job, s, t);
    FinishExact(n, t);
    var task := Stepped(job, s, t).tasks[t];
    if s.tasks[t].Test? && !job.meets(s.tasks[t].nonce) {
      StepWithin(n, t, s.tasks[t].nonce, s.tasks[t].next);
    }
    assert Work(n, t, task) < Work(n, t, s.tasks[t]);
    assert Stepped(job, s, t).tasks == s.tasks[t := task];
    TotalSet(n, s.tasks, t, task);
  }

  lemma {:induction false} InitialWork(n: nat, k: nat)
    requires 1 <= n && 5000 * n < UINT32 && k <= n
    ensures TotalWork(n, Initial(n).tasks[..k]) == k * (2 * UINT32 + 5)
    decreases k
  {
    if k > 0 {
      assert Initial(n).tasks[..k][..k - 1] == Initial(n).tasks[..k - 1];
      InitialWork(n, k - 1);
    }
  }

  /** No run is longer than the work there is at the start. */
  lemma {:induction false} RunsEnd(job: Job, schedule: seq<nat>)
    requires JobOk(job) && IsRun(job, schedule)
    ensures |schedule| + TotalWork(job.n, After(job, schedule).tasks) <= job.n * (2 * UINT32 + 5)
  {
    hide Stepped, Inv, TotalWork;
    if schedule == [] {
      InitialWork(job.n, job.n);
      assert Initial(job.n).tasks[..job.n] == Initial(job.n).tasks;
    } else {
      var n := |schedule| - 1;
      RunsEnd(job, schedule[..n]);
      RunInv(job, schedule[..n]);
      StepWork(job, After(job, schedule[..n]), schedule[n]);
    }
  }

  // ---------- One task after the other ----------

  /** What the tasks share, in memory. */
  class Shared {
    var found: bool
    var proposed: nat

    constructor ()
      ensures !found
    {
      found, proposed := false, 0;
    }
  }

  lemma ClearStart(job: Job, t: nat)
    requires JobOk(job)
    ensures Clear(job, t, t)
  {
    hide Own;
    forall y: nat | Own(job.n, t, y) ensures y >= t { OwnLeast(job.n, t, y); }
  }

  lemma ClearNext(job: Job, t: nat, x: nat)
    requires JobOk(job) && Own(job.n, t, x) && Clear(job, t, x) && !job.meets(x)
    ensures Clear(job, t, x + job.n)
  {
    hide Own;
    forall y: nat | Own(job.n, t, y) && y < x + job.n ensures !job.meets(y) { OwnGap(job.n, t, x, y); }
  }

  /** A task with nobody else running: it finds the first of its nonces that meets the target,
    * if there is one and the flag is not set yet.
    */
  method GrindTask(job: Job, t: nat, shared: Shared)
    requires JobOk(job) && t < job.n
    modifies shared
    ensures old(shared.found) ==> shared.found && shared.proposed == old(shared.proposed)
    ensures !shared.found ==> !job.usable || Clear(job, t, Finish(job.n, t))
    ensures !old(shared.found) && shared.found ==>
      job.usable && job.meets(shared.proposed) && shared.proposed < Bound(job.n) && Own(job.n, t, shared.proposed) && Clear(job, t, shared.proposed)
  {
    hide Bound, Own, NextBatch, Finish, Clear;
    if !job.usable { return; }
    var nonce := t;
    var finish := Finish(job.n, t);
    OwnFinish(job.n, t);
    ClearStart(job, t);
    while !shared.found && nonce < finish
      invariant Own(job.n, t, nonce) && nonce <= finish && Clear(job, t, nonce)
      invariant shared.found == old(shared.found) && shared.proposed == old(shared.proposed)
      decreases finish - nonce
    {
      var next := NextBatch(job.n, t, nonce);
      BatchLands(job.n, t, nonce);
      ghost var start := nonce;
      while true
        invariant Own(job.n, t, nonce) && start <= nonce < next && Clear(job, t, nonce)
        invariant shared.found == old(shared.found) && shared.proposed == old(shared.proposed)
        decreases next - nonce
      {
        if job.meets(nonce) {
          OwnBelow(job.n, t, nonce);
          var was := shared.found;
          shared.found := true;
          if !was { shared.proposed := nonce; }
          return;
        }
        ClearNext(job, t, nonce);
        StepWithin(job.n, t, nonce, next);
        nonce := (nonce + job.n) % UINT32;
        if nonce == next { break; }
      }
    }
  }

  /** All tasks in turn: a nonce below the bound that meets the target, or none exists. */
  method GrindAll(job: Job) returns (found: bool, proposed: nat)
    requires JobOk(job)
    ensures found ==> job.usable && job.meets(proposed) && proposed < Bound(job.n)
    ensures !found ==> !job.usable || forall x :: 0 <= x < Bound(job.n) ==> !job.meets(x)
  {
    hide Bound, Own, Finish, Clear;
    var shared := new Shared();
    for t := 0 to job.n
      invariant shared.found ==> job.usable && job.meets(shared.proposed) && shared.proposed < Bound(job.n)
      invariant !shared.found ==> !job.usable || forall u :: 0 <= u < t ==> Clear(job, u, Finish(job.n, u))
    {
      GrindTask(job, t, shared);
    }
    found, proposed := shared.found, shared.proposed;
    if !found && job.usable {
      forall x | 0 <= x < Bound(job.n) ensures !job.meets(x) { ClearAt(job, x); }
    }
  }

  lemma ClearAt(job: Job, x: nat)
    requires JobOk(job) && x < Bound(job.n) && Clear(job, x % job.n, Finish(job.n, x % job.n))
    ensures !job.meets(x)
  {
    hide Bound, Own, Finish;
    OwnCovers(job.n, x);
    FinishExact(job.n, x % job.n);
  }
}
