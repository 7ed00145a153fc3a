/** Many workers, one queue: what holds in every run, what the leases add, and what happens when workers die. */
module Leases {
  import opened Numbers
  import opened Options
  import opened Jobs

  /** `busy` says which job each executing worker holds; `claims` counts claims since the job was last queued. */
  datatype System = System(jobs: Table, busy: map<string, string>, claims: map<string, nat>, now: int)

  /** A worker that dies stops executing without touching the row of its job. */
  datatype Step =
    | Enqueue(id: string)
    | Claim(worker: string, id: string)
    | Renew(worker: string)
    | Succeed(worker: string, result: string)
    | Break(worker: string, error: string)
    | Die(worker: string)
    | Retry(id: string)
    | Wait(until: int)

  const IDLE := System(map[], map[], map[], 0)

  predicate Holds(sys: System, worker: string, id: string) {
    worker in sys.busy && sys.busy[worker] == id
  }

  /** A claim returns the first claimable row, and an executing worker claims nothing else. */
  predicate Enabled(sys: System, step: Step) {
    match step
    case Enqueue(id) => id !in sys.jobs
    case Claim(worker, id) => worker !in sys.busy && IsNext(sys.jobs, id, sys.now)
    case Renew(worker) =>
      worker in sys.busy && sys.busy[worker] in sys.jobs && Renewable(sys.jobs[sys.busy[worker]], worker)
    case Succeed(worker, _) => worker in sys.busy && sys.busy[worker] in sys.jobs
    case Break(worker, _) => worker in sys.busy && sys.busy[worker] in sys.jobs
    case Die(worker) => worker in sys.busy
    case Retry(id) => id in sys.jobs && Retryable(sys.jobs[id])
    case Wait(until) => until >= sys.now
  }

  /** A step that cannot happen changes nothing. Settling a job does not look at who owns its row. */
  function Next(s: Settings, sys: System, step: Step): System {
    if !Enabled(sys, step) then sys else
    match step
    case Enqueue(id) => sys.(jobs := sys.jobs[id := NewJob(s, sys.now)], claims := sys.claims[id := 0])
    case Claim(worker, id) =>
      System(sys.jobs[id := Claimed(s, sys.jobs[id], worker, sys.now)], sys.busy[worker := id],
             sys.claims[id := (if id in sys.claims then sys.claims[id] else 0) + 1], sys.now)
    case Renew(worker) =>
      var id := sys.busy[worker];
      sys.(jobs := sys.jobs[id := Renewed(s, sys.jobs[id], sys.now)])
    case Succeed(worker, result) =>
      var id := sys.busy[worker];
      sys.(jobs := sys.jobs[id := Done(sys.jobs[id], result)], busy := sys.busy - {worker})
    case Break(worker, error) =>
      var id := sys.busy[worker];
      sys.(jobs := sys.jobs[id := Failed(sys.jobs[id], error, sys.now)], busy := sys.busy - {worker})
    case Die(worker) => sys.(busy := sys.busy - {worker})
    case Retry(id) => sys.(jobs := sys.jobs[id := Requeued(sys.jobs[id], sys.now)], claims := sys.claims[id := 0])
    case Wait(until) => sys.(now := until)
  }

  function Reach(s: Settings, steps: seq<Step>): System {
    if steps == [] then IDLE else Next(s, Reach(s, steps[..|steps|-1]), steps[|steps|-1])
  }

  lemma ReachSnoc(s: Settings, steps: seq<Step>, step: Step)
    ensures Reach(s, steps + [step]) == Next(s, Reach(s, steps), step)
  {
    assert (steps + [step])[..|steps|] == steps;
  }

  lemma ReachStep(s: Settings, steps: seq<Step>, k: nat)
    requires k < |steps|
    ensures Reach(s, steps[..k+1]) == Next(s, Reach(s, steps[..k]), steps[k])
  {
    assert steps[..k+1][..k] == steps[..k];
  }

  // ---------------------------------------------------------------- rows, in every run

  /** What a row's status says about its attempts and its lease, whoever lives or dies. */
  ghost predicate RowOk(s: Settings, j: Job) {
    && j.maxAttempts == s.maxAttempts
    && (j.status == Queued ==> j.attempts == 0)
    && (j.status == Retrying ==> j.attempts < s.maxAttempts)
    && (j.status == Dead ==> j.attempts >= s.maxAttempts)
    && (j.status == Running ==> j.attempts >= 1 && j.worker.Some?)
    && (j.status == Running <==> j.leaseUntil.Some?)
  }

  ghost predicate RowsOk(s: Settings, sys: System) {
    forall id :: id in sys.jobs ==>
      RowOk(s, sys.jobs[id]) && id in sys.claims && sys.claims[id] == sys.jobs[id].attempts
  }

  lemma StepKeepsRows(s: Settings, sys: System, step: Step)
    ensures RowsOk(s, sys) ==> RowsOk(s, Next(s, sys, step))
  {
    hide Backoff;
  }

  /** Over every run, statuses fit attempts, and the attempt count is the number of claims since last queued. */
  lemma {:induction false} EveryRunKeepsRows(s: Settings, steps: seq<Step>)
    ensures RowsOk(s, Reach(s, steps))
  {
    if steps != [] {
      EveryRunKeepsRows(s, steps[..|steps|-1]);
      StepKeepsRows(s, Reach(s, steps[..|steps|-1]), steps[|steps|-1]);
    }
  }

  // ---------------------------------------------------------------- the attempt limit

  ghost predicate Within(s: Settings, sys: System) {
    forall id :: id in sys.jobs ==> sys.jobs[id].attempts <= Max(1, s.maxAttempts)
  }

  /** A claim of a running job that has used up its attempts: its worker has died, or is late to renew. */
  predicate Overclaims(s: Settings, sys: System, step: Step) {
    && step.Claim? && Enabled(sys, step)
    && sys.jobs[step.id].status == Running && sys.jobs[step.id].attempts >= Max(1, s.maxAttempts)
  }

  lemma StepStaysWithin(s: Settings, sys: System, step: Step)
    ensures RowsOk(s, sys) && Within(s, sys) && !Overclaims(s, sys, step) ==> Within(s, Next(s, sys, step))
  {
    hide Backoff;
  }

  lemma {:induction false} StaysWithin(s: Settings, steps: seq<Step>)
    requires forall k :: 0 <= k < |steps| ==> !Overclaims(s, Reach(s, steps[..k]), steps[k])
    ensures Within(s, Reach(s, steps))
  {
    hide Overclaims, Next, RowsOk, Within;
    if steps == [] {
      NothingAttempted(s);
    } else {
      var init := steps[..|steps|-1];
      assert forall k :: 0 <= k < |init| ==> init[..k] == steps[..k] && init[k] == steps[k];
      StaysWithin(s, init);
      EveryRunKeepsRows(s, init);
      StepStaysWithin(s, Reach(s, init), steps[|steps|-1]);
    }
  }

  lemma NothingAttempted(s: Settings)
    ensures Within(s, IDLE)
  {
  }

  lemma OverclaimExceeds(s: Settings, sys: System, step: Step)
    requires Overclaims(s, sys, step)
    ensures !Within(s, Next(s, sys, step))
  {
    assert Next(s, sys, step).jobs[step.id].attempts > Max(1, s.maxAttempts);
  }

  /**
   * The attempt limit holds throughout a run exactly when no claim takes a running job that has reached it.
   * The claim query does not ask.
   */
  lemma AttemptsAreBoundedIff(s: Settings, steps: seq<Step>)
    ensures (forall k :: 0 <= k <= |steps| ==> Within(s, Reach(s, steps[..k])))
       <==> (forall k :: 0 <= k < |steps| ==> !Overclaims(s, Reach(s, steps[..k]), steps[k]))
  {
    hide Overclaims, Within, Next;
    if forall k :: 0 <= k < |steps| ==> !Overclaims(s, Reach(s, steps[..k]), steps[k]) {
      forall k | 0 <= k <= |steps| ensures Within(s, Reach(s, steps[..k])) {
        assert forall m :: 0 <= m < k ==> steps[..k][..m] == steps[..m];
        StaysWithin(s, steps[..k]);
      }
    } else {
      var k :| 0 <= k < |steps| && Overclaims(s, Reach(s, steps[..k]), steps[k]);
      OverclaimExceeds(s, Reach(s, steps[..k]), steps[k]);
      ReachStep(s, steps, k);
    }
  }

  // ---------------------------------------------------------------- exclusion

  ghost predicate Exclusive(sys: System) {
    forall w, v :: w in sys.busy && v in sys.busy && sys.busy[w] == sys.busy[v] ==> w == v
  }

  /** A claim of a running job whose worker is still executing it. */
  predicate Usurps(sys: System, step: Step) {
    && step.Claim? && Enabled(sys, step) && sys.jobs[step.id].status == Running
    && sys.jobs[step.id].worker.Some? && Holds(sys, sys.jobs[step.id].worker.value, step.id)
  }

  /** The row of a held job is running under its holder's name. */
  ghost predicate NamedOk(sys: System, w: string) {
    w in sys.busy ==>
      sys.busy[w] in sys.jobs && sys.jobs[sys.busy[w]].status == Running && sys.jobs[sys.busy[w]].worker == Some(w)
  }

  lemma StepStaysNamed(s: Settings, sys: System, step: Step, w: string)
    requires (forall v :: NamedOk(sys, v)) && !Usurps(sys, step)
    ensures NamedOk(Next(s, sys, step), w)
  {
    hide IsNext, Backoff;
    assert NamedOk(sys, w);
    if step.Succeed? || step.Break? || step.Renew? {
      assert NamedOk(sys, step.worker);
    }
  }

  lemma {:induction false} StaysNamed(s: Settings, steps: seq<Step>, w: string)
    requires forall k :: 0 <= k < |steps| ==> !Usurps(Reach(s, steps[..k]), steps[k])
    ensures NamedOk(Reach(s, steps), w)
  {
    hide Usurps, Next;
    if steps != [] {
      var init := steps[..|steps|-1];
      assert forall k :: 0 <= k < |init| ==> init[..k] == steps[..k] && init[k] == steps[k];
      forall v ensures NamedOk(Reach(s, init), v) {
        StaysNamed(s, init, v);
      }
      StepStaysNamed(s, Reach(s, init), steps[|steps|-1], w);
    }
  }

  lemma NamedIsExclusive(sys: System)
    requires forall w :: NamedOk(sys, w)
    ensures Exclusive(sys)
  {
    forall w, v | w in sys.busy && v in sys.busy && sys.busy[w] == sys.busy[v] ensures w == v {
      assert NamedOk(sys, w) && NamedOk(sys, v);
    }
  }

  lemma UsurpedIsShared(s: Settings, sys: System, step: Step)
    requires Usurps(sys, step)
    ensures !Exclusive(Next(s, sys, step))
  {
    var first, t := sys.jobs[step.id].worker.value, Next(s, sys, step);
    assert first != step.worker && t.busy[first] == t.busy[step.worker];
  }

  /** No job ever has two workers in a run exactly when no claim takes a job from a worker that still executes it. */
  lemma ExclusiveIff(s: Settings, steps: seq<Step>)
    ensures (forall k :: 0 <= k <= |steps| ==> Exclusive(Reach(s, steps[..k])))
       <==> (forall k :: 0 <= k < |steps| ==> !Usurps(Reach(s, steps[..k]), steps[k]))
  {
    hide Usurps, Next;
    if forall k :: 0 <= k < |steps| ==> !Usurps(Reach(s, steps[..k]), steps[k]) {
      forall k | 0 <= k <= |steps| ensures Exclusive(Reach(s, steps[..k])) {
        assert forall m :: 0 <= m < k ==> steps[..k][..m] == steps[..m];
        forall w ensures NamedOk(Reach(s, steps[..k]), w) {
          StaysNamed(s, steps[..k], w);
        }
        NamedIsExclusive(Reach(s, steps[..k]));
      }
    } else {
      var k :| 0 <= k < |steps| && Usurps(Reach(s, steps[..k]), steps[k]);
      hide Exclusive;
      UsurpedIsShared(s, Reach(s, steps[..k]), steps[k]);
      ReachStep(s, steps, k);
    }
  }

  // ---------------------------------------------------------------- completion

  predicate IsCompleted(sys: System, id: string) {
    id in sys.jobs && sys.jobs[id].status == Completed
  }

  /** A failure reported by a worker that still holds id. */
  predicate FailsHeld(sys: System, step: Step, id: string) {
    step.Break? && Holds(sys, step.worker, id)
  }

  lemma StepStaysCompletedIff(s: Settings, sys: System, step: Step, id: string)
    ensures IsCompleted(sys, id) ==> (IsCompleted(Next(s, sys, step), id) <==> !FailsHeld(sys, step, id))
  {
    hide Backoff;
  }

  lemma {:induction false} StaysCompleted(s: Settings, steps: seq<Step>, k: nat, m: nat, id: string)
    requires k <= m <= |steps| && IsCompleted(Reach(s, steps[..k]), id)
    requires forall n :: k <= n < m ==> !FailsHeld(Reach(s, steps[..n]), steps[n], id)
    ensures IsCompleted(Reach(s, steps[..m]), id)
  {
    hide Next, IsCompleted, FailsHeld;
    if k < m {
      StaysCompleted(s, steps, k, m - 1, id);
      ReachStep(s, steps, m - 1);
      StepStaysCompletedIff(s, Reach(s, steps[..m-1]), steps[m-1], id);
    }
  }

  /** A completed job stays completed exactly when no worker that still holds it reports a failure. */
  lemma CompletedStaysIff(s: Settings, steps: seq<Step>, k: nat, id: string)
    requires k <= |steps| && IsCompleted(Reach(s, steps[..k]), id)
    ensures (forall m :: k <= m <= |steps| ==> IsCompleted(Reach(s, steps[..m]), id))
       <==> (forall n :: k <= n < |steps| ==> !FailsHeld(Reach(s, steps[..n]), steps[n], id))
  {
    hide Next, IsCompleted, FailsHeld;
    if forall n :: k <= n < |steps| ==> !FailsHeld(Reach(s, steps[..n]), steps[n], id) {
      forall m | k <= m <= |steps| ensures IsCompleted(Reach(s, steps[..m]), id) {
        StaysCompleted(s, steps, k, m, id);
      }
    } else {
      var n :| k <= n < |steps| && FailsHeld(Reach(s, steps[..n]), steps[n], id);
      if IsCompleted(Reach(s, steps[..n]), id) {
        StepStaysCompletedIff(s, Reach(s, steps[..n]), steps[n], id);
        ReachStep(s, steps, n);
      }
    }
  }

  // ---------------------------------------------------------------- leases kept in time

  /** Time passes no executing worker's lease: each renews, finishes or dies first. */
  predicate Timely(sys: System, step: Step) {
    step.Wait? ==> forall w :: w in sys.busy && sys.busy[w] in sys.jobs ==>
      var lease := sys.jobs[sys.busy[w]].leaseUntil; lease.Some? && step.until <= lease.value
  }

  ghost predicate TimelyRun(s: Settings, steps: seq<Step>) {
    forall k :: 0 <= k < |steps| ==> Timely(Reach(s, steps[..k]), steps[k])
  }

  lemma TimelyPrefix(s: Settings, steps: seq<Step>, k: nat)
    requires TimelyRun(s, steps) && k <= |steps|
    ensures TimelyRun(s, steps[..k])
    ensures k < |steps| ==> Timely(Reach(s, steps[..k]), steps[k])
  {
    assert forall m :: 0 <= m < k ==> steps[..k][..m] == steps[..m];
  }

  /** An executing worker holds a running job under its own name and a lease that has not run out. */
  ghost predicate HolderOk(sys: System, w: string) {
    w in sys.busy ==>
      && NamedOk(sys, w) && sys.jobs[sys.busy[w]].leaseUntil.Some? && sys.now <= sys.jobs[sys.busy[w]].leaseUntil.value
  }

  ghost predicate HoldersOk(sys: System) {
    forall w :: HolderOk(sys, w)
  }

  /** So whoever holds a claimable job has let its lease run out. */
  lemma ClaimableIsFree(sys: System, id: string, w: string)
    requires HoldersOk(sys) && IsNext(sys.jobs, id, sys.now)
    ensures !Holds(sys, w, id)
  {
    assert HolderOk(sys, w);
  }

  lemma StepKeepsHolder(s: Settings, sys: System, step: Step, w: string)
    requires HoldersOk(sys) && Timely(sys, step) && s.lease >= 0
    ensures HolderOk(Next(s, sys, step), w)
  {
    assert HolderOk(sys, w);
    if step.Claim? && Enabled(sys, step) {
      ClaimableIsFree(sys, step.id, w);
    } else if step.Succeed? || step.Break? || step.Renew? {
      hide Backoff, IsNext;
      assert HolderOk(sys, step.worker);
    }
  }

  lemma {:induction false} TimelyRunKeepsHolders(s: Settings, steps: seq<Step>)
    requires s.lease >= 0 && TimelyRun(s, steps)
    ensures HoldersOk(Reach(s, steps))
  {
    hide Next, Timely, TimelyRun;
    if steps != [] {
      TimelyPrefix(s, steps, |steps| - 1);
      TimelyRunKeepsHolders(s, steps[..|steps|-1]);
      forall w ensures HolderOk(Reach(s, steps), w) {
        StepKeepsHolder(s, Reach(s, steps[..|steps|-1]), steps[|steps|-1], w);
      }
    }
  }

  /** At most one worker executes a job, even when workers die. */
  lemma OneWorkerPerJob(s: Settings, steps: seq<Step>)
    requires s.lease >= 0 && TimelyRun(s, steps)
    ensures Exclusive(Reach(s, steps))
  {
    TimelyRunKeepsHolders(s, steps);
    forall w ensures NamedOk(Reach(s, steps), w) {
      assert HolderOk(Reach(s, steps), w);
    }
    NamedIsExclusive(Reach(s, steps));
  }

  lemma CompletedStep(s: Settings, sys: System, step: Step, id: string)
    requires HoldersOk(sys) && IsCompleted(sys, id)
    ensures id in Next(s, sys, step).jobs && Next(s, sys, step).jobs[id] == sys.jobs[id]
    ensures step.Claim? && Enabled(sys, step) ==> step.id != id
  {
    hide Backoff;
    if step.Renew? || step.Succeed? || step.Break? {
      assert HolderOk(sys, step.worker);
    }
  }

  /** A completed job stays exactly as it was completed, and nobody claims it. */
  lemma {:induction false} CompletedIsFinal(s: Settings, steps: seq<Step>, k: nat, m: nat, id: string)
    requires s.lease >= 0 && TimelyRun(s, steps) && k <= m <= |steps|
    requires IsCompleted(Reach(s, steps[..k]), id)
    ensures IsCompleted(Reach(s, steps[..m]), id)
    ensures Reach(s, steps[..m]).jobs[id] == Reach(s, steps[..k]).jobs[id]
    ensures m < |steps| && steps[m].Claim? && Enabled(Reach(s, steps[..m]), steps[m]) ==> steps[m].id != id
  {
    hide Next, Enabled, HoldersOk, TimelyRun;
    if k < m {
      CompletedIsFinal(s, steps, k, m - 1, id);
      TimelyPrefix(s, steps, m - 1);
      TimelyRunKeepsHolders(s, steps[..m-1]);
      ReachStep(s, steps, m - 1);
      CompletedStep(s, Reach(s, steps[..m-1]), steps[m-1], id);
    }
    if m < |steps| {
      TimelyPrefix(s, steps, m);
      TimelyRunKeepsHolders(s, steps[..m]);
      CompletedStep(s, Reach(s, steps[..m]), steps[m], id);
    }
  }

  // ---------------------------------------------------------------- leases kept in time, and nobody dies

  /** A running job is being executed by the worker on its row. */
  ghost predicate RunnerOk(sys: System, id: string) {
    id in sys.jobs && sys.jobs[id].status == Running ==>
      sys.jobs[id].worker.Some? && Holds(sys, sys.jobs[id].worker.value, id)
  }

  /** Nobody fails a job it does not own, so only tried jobs wait for a retry. */
  ghost predicate TriedOk(sys: System, id: string) {
    id in sys.jobs && sys.jobs[id].status == Retrying ==> sys.jobs[id].attempts >= 1
  }

  lemma StepKeepsRunner(s: Settings, sys: System, step: Step, id: string)
    requires RowsOk(s, sys) && HoldersOk(sys) && RunnerOk(sys, id) && TriedOk(sys, id) && !step.Die?
    ensures RunnerOk(Next(s, sys, step), id) && TriedOk(Next(s, sys, step), id)
  {
    hide IsNext, Backoff;
    if step.Succeed? || step.Break? || step.Renew? {
      assert HolderOk(sys, step.worker);
    }
    if id in sys.jobs && sys.jobs[id].worker.Some? {
      assert HolderOk(sys, sys.jobs[id].worker.value);
    }
  }

  lemma {:induction false} RunnersHold(s: Settings, steps: seq<Step>, id: string)
    requires s.lease >= 0 && TimelyRun(s, steps) && forall k :: 0 <= k < |steps| ==> !steps[k].Die?
    ensures RunnerOk(Reach(s, steps), id) && TriedOk(Reach(s, steps), id)
  {
    hide Next, TimelyRun, RowsOk, HoldersOk;
    if steps != [] {
      var init := steps[..|steps|-1];
      TimelyPrefix(s, steps, |init|);
      RunnersHold(s, init, id);
      TimelyRunKeepsHolders(s, init);
      EveryRunKeepsRows(s, init);
      StepKeepsRunner(s, Reach(s, init), steps[|init|], id);
    }
  }

  lemma NoOverclaim(s: Settings, sys: System, step: Step)
    requires HoldersOk(sys) && step.Claim? ==> RunnerOk(sys, step.id)
    requires HoldersOk(sys)
    ensures !Overclaims(s, sys, step)
  {
    if step.Claim? && Enabled(sys, step) && sys.jobs[step.id].status == Running {
      ClaimableIsFree(sys, step.id, sys.jobs[step.id].worker.value);
    }
  }

  /** When nobody dies, a job is claimed at most max(1, max_attempts) times between operator retries. */
  lemma ClaimsAreBounded(s: Settings, steps: seq<Step>, id: string)
    requires s.lease >= 0 && TimelyRun(s, steps) && forall k :: 0 <= k < |steps| ==> !steps[k].Die?
    requires id in Reach(s, steps).jobs
    ensures id in Reach(s, steps).claims
    ensures Reach(s, steps).claims[id] == Reach(s, steps).jobs[id].attempts <= Max(1, s.maxAttempts)
    ensures Reach(s, steps).jobs[id].status == Retrying ==> 1 <= Reach(s, steps).jobs[id].attempts < s.maxAttempts
  {
    hide Next, TimelyRun, HoldersOk, RunnerOk, Overclaims;
    forall k | 0 <= k < |steps| ensures !Overclaims(s, Reach(s, steps[..k]), steps[k]) {
      TimelyPrefix(s, steps, k);
      TimelyRunKeepsHolders(s, steps[..k]);
      if steps[k].Claim? {
        RunnersHold(s, steps[..k], steps[k].id);
        NoOverclaim(s, Reach(s, steps[..k]), steps[k]);
      } else {
        OnlyClaimsOverclaim(s, Reach(s, steps[..k]), steps[k]);
      }
    }
    StaysWithin(s, steps);
    EveryRunKeepsRows(s, steps);
    RunnersHold(s, steps, id);
  }

  lemma OnlyClaimsOverclaim(s: Settings, sys: System, step: Step)
    ensures !step.Claim? ==> !Overclaims(s, sys, step)
  {
  }

  // ---------------------------------------------------------------- runs that fail

  /** When the n-th lease has run out. */
  function Lapse(s: Settings, n: nat): int {
    if n == 0 then 0 else Lapse(s, n - 1) + s.lease + 1
  }

  /** n times over, a worker claims the job, dies on it, and its lease runs out. */
  function Crashes(s: Settings, n: nat): seq<Step> {
    if n == 0 then [Enqueue("job")]
    else Crashes(s, n - 1) + [Claim("w", "job")] + [Die("w")] + [Wait(Lapse(s, n))]
  }

  function Crashed(s: Settings, n: nat): Job {
    if n == 0 then NewJob(s, 0) else Claimed(s, Crashed(s, n - 1), "w", Lapse(s, n - 1))
  }

  /** The queue with that one job, at rest. */
  function Resting(j: Job, n: nat, now: int): System {
    System(map["job" := j], map[], map["job" := n], now)
  }

  lemma {:induction false} CrashedRow(s: Settings, n: nat)
    requires s.lease >= 0
    ensures Claimable(Crashed(s, n), Lapse(s, n))
    ensures Crashed(s, n).attempts == n && Crashed(s, n).availableAt == 0 <= Lapse(s, n)
  {
    if n > 0 {
      CrashedRow(s, n - 1);
    }
  }

  lemma TimelySnoc(s: Settings, steps: seq<Step>, step: Step)
    requires TimelyRun(s, steps) && Timely(Reach(s, steps), step)
    ensures TimelyRun(s, steps + [step])
  {
    assert (steps + [step])[..|steps|] == steps;
    assert forall k :: 0 <= k < |steps| ==> (steps + [step])[..k] == steps[..k];
  }

  /** Claim, die, and let the lease run out: no executing worker was late. */
  lemma CrashSteps(s: Settings, j: Job, n: nat, now: int)
    requires s.lease >= 0 && Claimable(j, now)
    ensures var claimed := Next(s, Resting(j, n, now), Claim("w", "job"));
      var dead := Next(s, claimed, Die("w"));
      && dead == Resting(Claimed(s, j, "w", now), n + 1, now) && Timely(dead, Wait(now + s.lease + 1))
      && Next(s, dead, Wait(now + s.lease + 1)) == Resting(Claimed(s, j, "w", now), n + 1, now + s.lease + 1)
  {
    assert IsNext(Resting(j, n, now).jobs, "job", now);
    var claimed := Next(s, Resting(j, n, now), Claim("w", "job"));
    assert claimed.busy == map["w" := "job"];
    assert claimed.busy - {"w"} == map[];
  }

  lemma ThreeMore(s: Settings, before: seq<Step>, x: Step, y: Step, z: Step)
    requires TimelyRun(s, before) && !x.Wait? && !y.Wait?
    requires Timely(Next(s, Next(s, Reach(s, before), x), y), z)
    ensures Reach(s, before + [x] + [y] + [z]) == Next(s, Next(s, Next(s, Reach(s, before), x), y), z)
    ensures TimelyRun(s, before + [x] + [y] + [z])
  {
    hide TimelyRun, Timely, Next;
    ReachSnoc(s, before, x);
    ReachSnoc(s, before + [x], y);
    ReachSnoc(s, before + [x] + [y], z);
    hide Reach;
    OnlyWaitsAreLate(Reach(s, before), x);
    OnlyWaitsAreLate(Reach(s, before + [x]), y);
    TimelySnoc(s, before, x);
    TimelySnoc(s, before + [x], y);
    TimelySnoc(s, before + [x] + [y], z);
  }

  lemma CrashUnfolds(s: Settings, n: nat)
    ensures Crashes(s, n + 1) == Crashes(s, n) + [Claim("w", "job")] + [Die("w")] + [Wait(Lapse(s, n) + s.lease + 1)]
    ensures Resting(Crashed(s, n + 1), n + 1, Lapse(s, n + 1))
         == Resting(Claimed(s, Crashed(s, n), "w", Lapse(s, n)), n + 1, Lapse(s, n) + s.lease + 1)
  {
  }

  lemma NoCrashYet(s: Settings)
    ensures TimelyRun(s, Crashes(s, 0)) && Reach(s, Crashes(s, 0)) == Resting(Crashed(s, 0), 0, Lapse(s, 0))
  {
    assert [Enqueue("job")][..0] == [];
  }

  /** Dead workers never reach the attempt limit: with every lease kept, a job can be claimed any number of times. */
  lemma {:induction false} CrashLoopIsUnbounded(s: Settings, n: nat)
    requires s.lease >= 0
    ensures TimelyRun(s, Crashes(s, n))
    ensures Reach(s, Crashes(s, n)) == Resting(Crashed(s, n), n, Lapse(s, n)) && Crashed(s, n).attempts == n
  {
    hide *;
    CrashedRow(s, n);
    if n == 0 {
      NoCrashYet(s);
    } else {
      CrashLoopIsUnbounded(s, n - 1);
      CrashedRow(s, n - 1);
      CrashSteps(s, Crashed(s, n - 1), n - 1, Lapse(s, n - 1));
      CrashUnfolds(s, n - 1);
      ThreeMore(s, Crashes(s, n - 1), Claim("w", "job"), Die("w"), Wait(Lapse(s, n - 1) + s.lease + 1));
    }
  }

  lemma OnlyWaitsAreLate(sys: System, step: Step)
    ensures !step.Wait? ==> Timely(sys, step)
  {
  }

  /** Worker a is late; b takes its job over. */
  function TakenOver(s: Settings): seq<Step> {
    [Enqueue("job")] + [Claim("a", "job")] + [Wait(s.lease + 1)] + [Claim("b", "job")]
  }

  lemma TakeOver(s: Settings)
    requires s.lease >= 0
    ensures var both, j := Reach(s, TakenOver(s)), Claimed(s, NewJob(s, 0), "a", 0);
      && both.jobs == map["job" := Claimed(s, j, "b", s.lease + 1)]
      && both.busy == map["a" := "job", "b" := "job"]
  {
    var enqueue, claim, wait, takeOver := Enqueue("job"), Claim("a", "job"), Wait(s.lease + 1), Claim("b", "job");
    hide Next;
    ReachSnoc(s, [], enqueue);
    ReachSnoc(s, [enqueue], claim);
    ReachSnoc(s, [enqueue] + [claim], wait);
    ReachSnoc(s, [enqueue] + [claim] + [wait], takeOver);
    assert [] + [enqueue] == [enqueue];
    hide Reach;
    TakeOverSteps(s);
  }

  lemma TakeOverSteps(s: Settings)
    requires s.lease >= 0
    ensures var first := Next(s, IDLE, Enqueue("job"));
      var late := Next(s, Next(s, first, Claim("a", "job")), Wait(s.lease + 1));
      var both := Next(s, late, Claim("b", "job"));
      && both.jobs == map["job" := Claimed(s, Claimed(s, NewJob(s, 0), "a", 0), "b", s.lease + 1)]
      && both.busy == map["a" := "job", "b" := "job"]
  {
    var first := Next(s, IDLE, Enqueue("job"));
    var late := Next(s, Next(s, first, Claim("a", "job")), Wait(s.lease + 1));
    assert IsNext(first.jobs, "job", 0);
    assert IsNext(late.jobs, "job", late.now);
  }

  /**
   * One late worker breaks both promises: two workers execute the job, and after the second one completes it,
   * the first one's failure takes it back.
   */
  lemma LateFailureRevives(s: Settings)
    requires s.lease >= 0
    ensures var both, done := Reach(s, TakenOver(s)), Reach(s, TakenOver(s) + [Succeed("b", "ok")]);
      var after := Reach(s, TakenOver(s) + [Succeed("b", "ok")] + [Break("a", "late")]);
      && !Exclusive(both) && Holds(both, "a", "job") && Holds(both, "b", "job")
      && IsCompleted(done, "job") && done.jobs["job"].result == "ok"
      && "job" in after.jobs && after.jobs["job"].status == if s.maxAttempts > 2 then Retrying else Dead
  {
    hide Backoff, TakenOver;
    TakeOver(s);
    ReachSnoc(s, TakenOver(s), Succeed("b", "ok"));
    ReachSnoc(s, TakenOver(s) + [Succeed("b", "ok")], Break("a", "late"));
    hide Reach;
    var both := Reach(s, TakenOver(s));
    assert both.busy["a"] == both.busy["b"];
  }

  // ---------------------------------------------------------------- the worker loop

  /** One step of some process, as calls to the queue. A claim gets whichever first row the queue returns. */
  method Perform(queue: Queue, sys: System, step: Step) returns (taken: Step, after: System)
    requires queue.rows == sys.jobs
    modifies queue
    ensures taken == step || (step.Claim? && taken.Claim? && taken.worker == step.worker)
    ensures step.Claim? && step.worker !in sys.busy && !Enabled(sys, taken) ==>
      forall id :: id in sys.jobs ==> !Claimable(sys.jobs[id], sys.now)
    ensures after == Next(queue.settings, sys, taken) && queue.rows == after.jobs
  {
    taken := step;
    match step {
      case Enqueue(id) => queue.Enqueue(id, sys.now);
      case Claim(worker, _) =>
        if worker !in sys.busy {
          var found := queue.Claim(worker, sys.now);
          if found.Some? {
            taken := Claim(worker, found.value);
          }
        }
      case Renew(worker) =>
        if worker in sys.busy {
          var _ := queue.Renew(sys.busy[worker], worker, sys.now);
        }
      case Succeed(worker, result) =>
        if worker in sys.busy {
          queue.Complete(sys.busy[worker], result);
        }
      case Break(worker, error) =>
        if worker in sys.busy {
          var _ := queue.Fail(sys.busy[worker], error, sys.now);
        }
      case Retry(id) =>
        var _ := queue.Retry(id, sys.now);
      case Die(_) =>
      case Wait(_) =>
    }
    after := Next(queue.settings, sys, taken);
  }

  predicate Settles(step: Step, worker: string) {
    (step.Succeed? || step.Break? || step.Die?) && step.worker == worker
  }

  lemma StepKeepsHold(s: Settings, sys: System, step: Step, worker: string, id: string)
    ensures Holds(sys, worker, id) && id in sys.jobs && !Settles(step, worker) ==>
      Holds(Next(s, sys, step), worker, id) && id in Next(s, sys, step).jobs
  {
    hide Backoff;
  }

  /** How executing a job ends. */
  datatype Outcome = Returned(result: string) | Raised(error: string)

  /** What the worker then does. */
  function Settlement(worker: string, outcome: Outcome): Step {
    match outcome
    case Returned(result) => Succeed(worker, result)
    case Raised(error) => Break(worker, error)
  }

  ghost predicate Settled(j: Job, outcome: Outcome) {
    match outcome
    case Returned(result) => j.status == Completed && j.result == result
    case Raised(_) => j.status == Retrying || j.status == Dead
  }

  /**
   * One pass of `run`: claim, execute, settle, while `meanwhile` happens: the worker's own renewals, and anything
   * other processes do. The pass is part of a run, so what holds in every run holds after it.
   */
  method WorkOnce(queue: Queue, sys: System, worker: string, meanwhile: seq<Step>, outcome: string -> Outcome,
                  ghost before: seq<Step>)
    returns (id: Option<string>, after: System, ghost steps: seq<Step>)
    requires queue.rows == sys.jobs && sys == Reach(queue.settings, before)
    requires worker !in sys.busy && forall k :: 0 <= k < |meanwhile| ==> !Settles(meanwhile[k], worker)
    modifies queue
    ensures queue.rows == after.jobs && after == Reach(queue.settings, before + steps) && worker !in after.busy
    ensures id.None? ==> steps == [] && forall k :: k in sys.jobs ==> !Claimable(sys.jobs[k], sys.now)
    ensures id.Some? ==>
      && |steps| == |meanwhile| + 2 && IsNext(sys.jobs, id.value, sys.now) && steps[0] == Claim(worker, id.value)
      && (forall k :: 0 <= k < |meanwhile| && !meanwhile[k].Claim? ==> steps[k+1] == meanwhile[k])
      && (forall k :: 0 <= k < |meanwhile| && meanwhile[k].Claim? ==>
            steps[k+1].Claim? && steps[k+1].worker == meanwhile[k].worker)
      && steps[|steps|-1] == Settlement(worker, outcome(id.value))
    ensures id.Some? ==> id.value in after.jobs && Settled(after.jobs[id.value], outcome(id.value))
  {
    hide Next, Reach, Backoff;
    var first;
    first, after := Perform(queue, sys, Claim(worker, ""));
    ClaimOutcome(queue.settings, sys, first);
    if !Enabled(sys, first) {
      steps := [];
      assert before + [] == before;
      return None, after, [];
    }
    id, steps := Some(first.id), [first];
    ReachSnoc(queue.settings, before, first);
    for k := 0 to |meanwhile|
      invariant |steps| == k + 1 && steps[0] == first
      invariant queue.rows == after.jobs && after == Reach(queue.settings, before + steps)
      invariant Holds(after, worker, first.id) && first.id in after.jobs
      invariant forall n :: 0 <= n < k && !meanwhile[n].Claim? ==> steps[n+1] == meanwhile[n]
      invariant forall n :: 0 <= n < k && meanwhile[n].Claim? ==>
        steps[n+1].Claim? && steps[n+1].worker == meanwhile[n].worker
    {
      var taken;
      ghost var held := after;
      taken, after := Perform(queue, after, meanwhile[k]);
      StepKeepsHold(queue.settings, held, taken, worker, first.id);
      ReachSnoc(queue.settings, before + steps, taken);
      assert before + (steps + [taken]) == (before + steps) + [taken];
      steps := steps + [taken];
    }
    var last;
    ghost var held := after;
    last, after := Perform(queue, after, Settlement(worker, outcome(first.id)));
    SettlementOutcome(queue.settings, held, worker, outcome(first.id));
    ReachSnoc(queue.settings, before + steps, last);
    assert before + (steps + [last]) == (before + steps) + [last];
    steps := steps + [last];
  }

  lemma ClaimOutcome(s: Settings, sys: System, step: Step)
    ensures !Enabled(sys, step) ==> Next(s, sys, step) == sys
    ensures step.Claim? && Enabled(sys, step) ==>
      IsNext(sys.jobs, step.id, sys.now)
      && Holds(Next(s, sys, step), step.worker, step.id) && step.id in Next(s, sys, step).jobs
  {
  }

  lemma SettlementOutcome(s: Settings, sys: System, worker: string, outcome: Outcome)
    ensures var t := Next(s, sys, Settlement(worker, outcome));
      worker in sys.busy && sys.busy[worker] in sys.jobs ==>
        worker !in t.busy && sys.busy[worker] in t.jobs && Settled(t.jobs[sys.busy[worker]], outcome)
  {
    hide Backoff;
  }
}
