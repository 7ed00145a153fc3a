/** When a job is due again, and in which order due jobs are taken. */
module Scheduling {
  import opened Numbers
  import opened Options
  import opened Jobs
  import opened Leases

  // ---------------------------------------------------------------- one row

  /** When the row that an operation leaves can be claimed: after its lease, after its delay, at once, or never. */
  lemma ClaimableAgainIff(s: Settings, j: Job, worker: string, now: int, later: int, error: string, result: string)
    requires later >= now
    ensures Claimable(NewJob(s, now), later) && Claimable(Requeued(j, now), later)
    ensures j.availableAt <= now ==> (Claimable(Claimed(s, j, worker, now), later) <==> later > now + s.lease)
    ensures j.availableAt <= now && Renewable(j, worker) ==>
      (Claimable(Renewed(s, j, now), later) <==> later > now + s.lease)
    ensures Claimable(Failed(j, error, now), later)
       <==> (j.attempts < j.maxAttempts && later >= now + Backoff(j.attempts))
    ensures !Claimable(Done(j, result), later)
  {
    hide Backoff;
  }

  /** The delay starts at five seconds and doubles with each attempt, up to five minutes. */
  lemma BackoffDoubles(attempts: nat)
    ensures Backoff(0) == 5 && Backoff(attempts + 1) == Min(300, 2 * Backoff(attempts))
  {
  }

  // ---------------------------------------------------------------- nothing happens before it is due

  lemma {:induction false} ClockOnlyRises(s: Settings, before: seq<Step>, steps: seq<Step>)
    ensures Reach(s, before).now <= Reach(s, before + steps).now
  {
    if steps == [] {
      assert before + steps == before;
    } else {
      var init, last := steps[..|steps|-1], steps[|steps|-1];
      ClockOnlyRises(s, before, init);
      assert before + steps == before + init + [last];
      ReachSnoc(s, before + init, last);
      hide Reach;
    }
  }

  /** Nobody executes the job. */
  ghost predicate Unheld(sys: System, id: string) {
    forall w :: w in sys.busy ==> sys.busy[w] != id
  }

  lemma StepLeavesUndue(s: Settings, sys: System, step: Step, id: string)
    requires id in sys.jobs && Unheld(sys, id) && !Claimable(sys.jobs[id], sys.now) && step != Retry(id)
    ensures var next := Next(s, sys, step);
      id in next.jobs && next.jobs[id] == sys.jobs[id] && Unheld(next, id)
  {
    hide Backoff, Claimable;
  }

  /** A job that nobody executes and that is not due is left alone, unless an operator retries it. */
  lemma {:induction false} UntouchedUntilDue(s: Settings, before: seq<Step>, steps: seq<Step>, id: string, due: int)
    requires var sys := Reach(s, before);
      && id in sys.jobs && Unheld(sys, id) && forall t :: sys.now <= t < due ==> !Claimable(sys.jobs[id], t)
    requires Retry(id) !in steps && Reach(s, before + steps).now < due
    ensures var sys := Reach(s, before + steps);
      id in sys.jobs && sys.jobs[id] == Reach(s, before).jobs[id] && Unheld(sys, id)
  {
    hide Claimable, Unheld, Next, Reach;
    if steps == [] {
      assert before + steps == before;
    } else {
      var init, last := steps[..|steps|-1], steps[|steps|-1];
      assert before + steps == before + init + [last] && last in steps;
      assert forall x :: x in init ==> x in steps;
      ClockOnlyRises(s, before, init);
      ClockOnlyRises(s, before + init, [last]);
      UntouchedUntilDue(s, before, init, id, due);
      ReachSnoc(s, before + init, last);
      StepLeavesUndue(s, Reach(s, before + init), last, id);
    }
  }

  /** A failed attempt is followed by no other before the delay is over; a dead job is not attempted at all. */
  lemma FailedJobWaits(s: Settings, before: seq<Step>, worker: string, error: string, steps: seq<Step>, id: string)
    requires var sys := Reach(s, before);
      && Holds(sys, worker, id) && id in sys.jobs && forall w :: Holds(sys, w, id) ==> w == worker
    requires Retry(id) !in steps
    ensures var sys, failed := Reach(s, before), Reach(s, before + [Break(worker, error)]);
      var after := Reach(s, before + [Break(worker, error)] + steps);
      && id in failed.jobs
      && (failed.jobs[id].status == Dead || after.now < sys.now + Backoff(sys.jobs[id].attempts) ==>
            id in after.jobs && after.jobs[id] == failed.jobs[id])
  {
    hide Backoff, Reach;
    var sys := Reach(s, before);
    ReachSnoc(s, before, Break(worker, error));
    var failed := Reach(s, before + [Break(worker, error)]);
    var after := Reach(s, before + [Break(worker, error)] + steps);
    FailedOutcome(sys.jobs[id], error, sys.now);
    assert Unheld(failed, id) by {
      forall w | w in failed.busy ensures failed.busy[w] != id {
        assert sys.busy[w] == id ==> Holds(sys, w, id);
      }
    }
    forall t | t >= sys.now
      ensures Claimable(failed.jobs[id], t)
         <==> (sys.jobs[id].attempts < sys.jobs[id].maxAttempts && t >= sys.now + Backoff(sys.jobs[id].attempts))
    {
      ClaimableAgainIff(s, sys.jobs[id], worker, sys.now, t, error, "");
    }
    hide Claimable, Next;
    if failed.jobs[id].status == Dead {
      UntouchedUntilDue(s, before + [Break(worker, error)], steps, id, after.now + 1);
    } else if after.now < sys.now + Backoff(sys.jobs[id].attempts) {
      UntouchedUntilDue(s, before + [Break(worker, error)], steps, id, sys.now + Backoff(sys.jobs[id].attempts));
    }
  }

  /** A job can be started over exactly when it has failed: afterwards it is as if new, and due at once. */
  lemma RetryStartsOver(s: Settings, sys: System, id: string)
    requires id in sys.jobs
    ensures Enabled(sys, Retry(id)) <==> sys.jobs[id].status !in {Queued, Running, Completed}
    ensures Enabled(sys, Retry(id)) ==>
      var next := Next(s, sys, Retry(id));
      && next.jobs[id] == NewJob(s, sys.now).(maxAttempts := sys.jobs[id].maxAttempts, result := sys.jobs[id].result,
                                              createdAt := sys.jobs[id].createdAt)
      && Claimable(next.jobs[id], sys.now) && next.claims[id] == 0
  {
  }

  /** While leases are kept in time, whoever executes a job can renew its lease, for the full term. */
  lemma HoldersCanRenew(s: Settings, steps: seq<Step>, worker: string)
    requires s.lease >= 0 && TimelyRun(s, steps) && worker in Reach(s, steps).busy
    ensures var sys := Reach(s, steps);
      && Enabled(sys, Renew(worker))
      && Next(s, sys, Renew(worker)).jobs[sys.busy[worker]].leaseUntil == Some(sys.now + s.lease)
  {
    hide Reach, TimelyRun;
    TimelyRunKeepsHolders(s, steps);
    assert HolderOk(Reach(s, steps), worker);
  }

  // ---------------------------------------------------------------- order

  /** A queued row has no lease and is due. */
  ghost predicate QueuedOk(sys: System, id: string) {
    id in sys.jobs && sys.jobs[id].status == Queued ==>
      sys.jobs[id].leaseUntil.None? && sys.jobs[id].availableAt <= sys.now
  }

  lemma StepKeepsQueued(s: Settings, sys: System, step: Step, id: string)
    ensures QueuedOk(sys, id) ==> QueuedOk(Next(s, sys, step), id)
  {
    hide Backoff;
  }

  lemma {:induction false} QueuedAreDue(s: Settings, steps: seq<Step>, id: string)
    ensures QueuedOk(Reach(s, steps), id)
  {
    if steps != [] {
      QueuedAreDue(s, steps[..|steps|-1], id);
      StepKeepsQueued(s, Reach(s, steps[..|steps|-1]), steps[|steps|-1], id);
    }
  }

  /** No claim passes over a queued job that was due earlier, or due then and created earlier. */
  lemma QueuedAreTakenInOrder(s: Settings, steps: seq<Step>, worker: string, id: string, other: string)
    requires var sys := Reach(s, steps);
      Enabled(sys, Claim(worker, id)) && other in sys.jobs && sys.jobs[other].status == Queued
    ensures var taken, queued := Reach(s, steps).jobs[id], Reach(s, steps).jobs[other];
      && taken.availableAt <= queued.availableAt
      && (taken.availableAt == queued.availableAt ==> taken.createdAt <= queued.createdAt)
  {
    QueuedAreDue(s, steps, other);
    hide Reach;
    assert Claimable(Reach(s, steps).jobs[other], Reach(s, steps).now);
  }

  /** While a job is queued, an idle worker finds one to claim. */
  lemma QueuedIsFound(s: Settings, steps: seq<Step>, worker: string, other: string)
    requires var sys := Reach(s, steps);
      worker !in sys.busy && other in sys.jobs && sys.jobs[other].status == Queued
    ensures exists id :: Enabled(Reach(s, steps), Claim(worker, id))
  {
    QueuedAreDue(s, steps, other);
    var sys := Reach(s, steps);
    hide Reach;
    assert Claimable(sys.jobs[other], sys.now);
    NextExists(sys.jobs, sys.now);
    var id :| IsNext(sys.jobs, id, sys.now);
    assert Enabled(sys, Claim(worker, id));
  }
}
