/** The leased job queue and the workers that share it. */
module Jobs {
  import opened Numbers
  import opened Options

  datatype Status = Queued | Running | Retrying | Completed | Dead

  datatype Job = Job(status: Status, attempts: nat, maxAttempts: int, availableAt: int, createdAt: int,
                     leaseUntil: Option<int>, worker: Option<string>, lastError: string, result: string)

  /** Times are in seconds. */
  datatype Settings = Settings(maxAttempts: int, lease: int)

  type Table = map<string, Job>

  function NewJob(s: Settings, now: int): Job {
    Job(Queued, 0, s.maxAttempts, now, now, None, None, "", "")
  }

  /** The WHERE clause of `claim`. It does not look at the attempt count. */
  predicate Claimable(j: Job, now: int) {
    && j.status in {Queued, Retrying, Running}
    && j.availableAt <= now
    && (j.leaseUntil.None? || j.leaseUntil.value < now)
  }

  predicate NoLater(a: Job, b: Job) {
    a.availableAt < b.availableAt || (a.availableAt == b.availableAt && a.createdAt <= b.createdAt)
  }

  /** id is a row that `claim` may return: claimable, and none claimable is due before it. */
  predicate IsNext(t: Table, id: string, now: int) {
    id in t && Claimable(t[id], now) && forall k :: k in t && Claimable(t[k], now) ==> NoLater(t[id], t[k])
  }

  function Claimed(s: Settings, j: Job, worker: string, now: int): Job {
    j.(status := Running, worker := Some(worker), attempts := j.attempts + 1, leaseUntil := Some(now + s.lease))
  }

  function Done(j: Job, result: string): Job {
    j.(status := Completed, result := result, leaseUntil := None)
  }

  function Backoff(attempts: nat): int {
    Min(300, Pow2(attempts) * 5)
  }

  function Failed(j: Job, error: string, now: int): Job {
    var base := j.(lastError := error[..Min(|error|, 10000)], leaseUntil := None);
    if j.attempts >= j.maxAttempts then base.(status := Dead)
    else base.(status := Retrying, availableAt := now + Backoff(j.attempts))
  }

  /** A failed job is dead exactly when its attempts are used up, and otherwise due again 5 to 300 seconds later. */
  lemma FailedOutcome(j: Job, error: string, now: int)
    ensures var f := Failed(j, error, now);
      && (f.status == Dead <==> j.attempts >= j.maxAttempts) && (f.status == Retrying <==> j.attempts < j.maxAttempts)
      && f.leaseUntil.None? && f.attempts == j.attempts && f.maxAttempts == j.maxAttempts && f.worker == j.worker
      && (f.status == Retrying ==> now + 5 <= f.availableAt <= now + 300)
      && (f.status == Dead ==> f.availableAt == j.availableAt)
      && f.lastError == (if |error| <= 10000 then error else error[..10000])
      && f.result == j.result && f.createdAt == j.createdAt
  {
    Pow2Positive(j.attempts);
  }

  predicate Retryable(j: Job) {
    j.status == Dead || j.status == Retrying
  }

  function Requeued(j: Job, now: int): Job {
    j.(status := Queued, attempts := 0, availableAt := now, leaseUntil := None, worker := None, lastError := "")
  }

  predicate Renewable(j: Job, worker: string) {
    j.status == Running && j.worker == Some(worker)
  }

  function Renewed(s: Settings, j: Job, now: int): Job {
    j.(leaseUntil := Some(now + s.lease))
  }

  // ---------------------------------------------------------------- the table

  /** A smallest element under the claim order, found the way ORDER BY ... LIMIT 1 promises one. */
  lemma {:induction false} EarliestExists(t: Table, ids: set<string>, now: int)
    requires ids != {} && forall k :: k in ids ==> k in t && Claimable(t[k], now)
    ensures exists id :: id in ids && forall k :: k in ids ==> NoLater(t[id], t[k])
    decreases |ids|
  {
    var x :| x in ids;
    var rest := ids - {x};
    if rest == {} {
      assert ids == {x};
    } else {
      EarliestExists(t, rest, now);
      var y :| y in rest && forall k :: k in rest ==> NoLater(t[y], t[k]);
      assert ids == rest + {x};
      var first := if NoLater(t[x], t[y]) then x else y;
      assert forall k :: k in ids ==> NoLater(t[first], t[k]);
    }
  }

  lemma NextExists(t: Table, now: int)
    ensures (exists id :: id in t && Claimable(t[id], now)) ==> exists id :: IsNext(t, id, now)
  {
    var ids := set id | id in t && Claimable(t[id], now);
    if id :| id in t && Claimable(t[id], now) {
      assert id in ids;
      EarliestExists(t, ids, now);
      var first :| first in ids && forall k :: k in ids ==> NoLater(t[first], t[k]);
      assert IsNext(t, first, now);
    }
  }

  class Queue {
    const settings: Settings
    var rows: Table

    constructor (s: Settings)
      ensures settings == s && rows == map[]
    {
      settings, rows := s, map[];
    }

    method Enqueue(id: string, now: int)
      modifies this
      ensures rows == if id in old(rows) then old(rows) else old(rows)[id := NewJob(settings, now)]
    {
      if id !in rows {
        rows := rows[id := NewJob(settings, now)];
      }
    }

    method Claim(worker: string, now: int) returns (id: Option<string>)
      modifies this
      ensures id.None? ==> rows == old(rows) && forall k :: k in rows ==> !Claimable(rows[k], now)
      ensures id.Some? ==> IsNext(old(rows), id.value, now)
      ensures id.Some? ==> rows == old(rows)[id.value := Claimed(settings, old(rows)[id.value], worker, now)]
    {
      NextExists(rows, now);
      if k :| k in rows && IsNext(rows, k, now) {
        rows := rows[k := Claimed(settings, rows[k], worker, now)];
        return Some(k);
      }
      return None;
    }

    method Complete(id: string, result: string)
      modifies this
      ensures rows == if id in old(rows) then old(rows)[id := Done(old(rows)[id], result)] else old(rows)
    {
      if id in rows {
        rows := rows[id := Done(rows[id], result)];
      }
    }

    method Fail(id: string, error: string, now: int) returns (status: Option<Status>)
      modifies this
      ensures rows == if id in old(rows) then old(rows)[id := Failed(old(rows)[id], error, now)] else old(rows)
      ensures status == if id in rows then Some(rows[id].status) else None
      ensures id in old(rows) ==>
        var j, f := old(rows)[id], rows[id];
        && f.attempts == j.attempts && f.leaseUntil.None? && f.createdAt == j.createdAt
        && f.lastError == (if |error| <= 10000 then error else error[..10000])
        && if j.attempts >= j.maxAttempts then f.status == Dead
           else f.status == Retrying && now + 5 <= f.availableAt <= now + 300
    {
      if id !in rows {
        return None;
      }
      FailedOutcome(rows[id], error, now);
      rows := rows[id := Failed(rows[id], error, now)];
      return Some(rows[id].status);
    }

    /** None when the job is missing, Some(false) when it is not a failed one. */
    method Retry(id: string, now: int) returns (done: Option<bool>)
      modifies this
      ensures done == if id !in old(rows) then None else Some(Retryable(old(rows)[id]))
      ensures rows == if done == Some(true) then old(rows)[id := Requeued(old(rows)[id], now)] else old(rows)
    {
      if id !in rows {
        return None;
      }
      if !Retryable(rows[id]) {
        return Some(false);
      }
      rows := rows[id := Requeued(rows[id], now)];
      return Some(true);
    }

    method Renew(id: string, worker: string, now: int) returns (held: bool)
      modifies this
      ensures held == (id in old(rows) && Renewable(old(rows)[id], worker))
      ensures rows == if held then old(rows)[id := Renewed(settings, old(rows)[id], now)] else old(rows)
    {
      held := id in rows && Renewable(rows[id], worker);
      if held {
        rows := rows[id := Renewed(settings, rows[id], now)];
      }
    }
  }
}
