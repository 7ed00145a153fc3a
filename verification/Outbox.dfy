/** The publisher's durable outbox and its collect and deliver cycle against the edge room. */
module Outbox {
  import opened LiveRoom
  import opened Numbers
  import opened Sublists

  datatype Row = Row(id: string, payload: Input, createdAt: int, attempts: nat, nextAttemptAt: int, lastError: string)

  /** The two tables; `pending` in insertion order, which is creation order under a nondecreasing clock. */
  datatype Tables = Tables(pending: seq<Row>, delivered: map<string, int>)

  const NO_ROWS := Tables([], map[])

  predicate HasId(rows: seq<Row>, id: string) {
    exists r :: r in rows && r.id == id
  }

  function Enqueue(t: Tables, id: string, payload: Input, now: int): (Tables, bool) {
    if id in t.delivered || HasId(t.pending, id) then (t, false)
    else (t.(pending := t.pending + [Row(id, payload, now, 0, 0, "")]), true)
  }

  function Due(rows: seq<Row>, now: int): seq<Row> {
    if rows == [] then [] else (if rows[0].nextAttemptAt <= now then [rows[0]] else []) + Due(rows[1..], now)
  }

  function Ready(t: Tables, limit: nat, now: int): seq<Row> {
    var due := Due(t.pending, now);
    if |due| <= limit then due else due[..limit]
  }

  function Delete(rows: seq<Row>, id: string): seq<Row> {
    if rows == [] then [] else (if rows[0].id == id then [] else [rows[0]]) + Delete(rows[1..], id)
  }

  function Acknowledge(t: Tables, id: string, now: int): Tables {
    Tables(Delete(t.pending, id), t.delivered[id := now])
  }

  /** Seconds of backoff; the 300 s cap is never the smaller operand. */
  function Delay(attempts: nat, maxAttempts: nat): (d: int)
    ensures 1 <= d <= 256
    ensures attempts >= 8 && maxAttempts >= 8 ==> d == 256
  {
    var exponent := Min(Min(attempts, maxAttempts), 8);
    PowersTo8();
    Min(300, Pow2(exponent))
  }

  lemma PowersTo8()
    ensures forall n: nat :: n <= 8 ==> 1 <= Pow2(n) <= 256
    ensures Pow2(8) == 256
  {
    assert Pow2(4) == 16;
    assert Pow2(8) == 16 * Pow2(4);
    forall n: nat | n <= 8 ensures 1 <= Pow2(n) <= 256 {
      assert n == 0 || n == 1 || n == 2 || n == 3 || n == 4 || n == 5 || n == 6 || n == 7 || n == 8;
    }
  }

  function Postponed(rows: seq<Row>, id: string, attempts: nat, error: string, until: int): seq<Row> {
    if rows == [] then []
    else [if rows[0].id == id then rows[0].(attempts := attempts, nextAttemptAt := until, lastError := error)
          else rows[0]]
         + Postponed(rows[1..], id, attempts, error, until)
  }

  function Fail(t: Tables, id: string, attempts: nat, error: string, maxAttempts: nat, now: int): Tables {
    t.(pending := Postponed(t.pending, id, attempts, error[..Min(|error|, 500)],
                            now + 1000 * Delay(attempts, maxAttempts)))
  }

  function Prune(t: Tables, cutoff: int): Tables {
    t.(delivered := map id | id in t.delivered && t.delivered[id] >= cutoff :: t.delivered[id])
  }

  // ---------------------------------------------------------------- table invariant

  ghost predicate DistinctIds(rows: seq<Row>) {
    forall i, j :: 0 <= i < j < |rows| ==> rows[i].id != rows[j].id
  }

  /** Both primary keys hold, and no event is pending and delivered at once. */
  ghost predicate TablesOk(t: Tables) {
    && DistinctIds(t.pending)
    && (forall r :: r in t.pending ==> r.id == r.payload.id && r.id !in t.delivered)
  }

  lemma EnqueueKeepsTables(t: Tables, payload: Input, now: int)
    requires TablesOk(t)
    ensures var (t', added) := Enqueue(t, payload.id, payload, now);
      && TablesOk(t') && added == (payload.id !in t.delivered && !HasId(t.pending, payload.id))
      && (payload.id in t'.delivered || HasId(t'.pending, payload.id))
      && (forall r :: r in t'.pending <==> r in t.pending || (added && r == Row(payload.id, payload, now, 0, 0, "")))
  {
    var row := Row(payload.id, payload, now, 0, 0, "");
    assert forall k :: 0 <= k < |t.pending| ==> t.pending[k] in t.pending;
    assert row in t.pending + [row];
  }

  lemma {:induction false} DeleteRemoves(rows: seq<Row>, id: string)
    requires DistinctIds(rows)
    ensures var r := Delete(rows, id);
      && (forall x :: x in r <==> x in rows && x.id != id)
      && DistinctIds(r)
  {
    if rows != [] {
      DeleteRemoves(rows[1..], id);
      var r := Delete(rows[1..], id);
      assert forall x :: x in rows <==> x == rows[0] || x in rows[1..];
      assert forall k :: 0 <= k < |r| ==> r[k] in rows[1..];
      assert forall x :: x in rows[1..] ==> x.id != rows[0].id;
    }
  }

  lemma AcknowledgeKeepsTables(t: Tables, id: string, now: int)
    requires TablesOk(t)
    ensures TablesOk(Acknowledge(t, id, now))
    ensures forall r :: r in Acknowledge(t, id, now).pending <==> r in t.pending && r.id != id
  {
    DeleteRemoves(t.pending, id);
  }

  /** The same row up to its retry bookkeeping. */
  predicate SameRow(a: Row, b: Row) {
    a.id == b.id && a.payload == b.payload && a.createdAt == b.createdAt
  }

  lemma {:induction false} PostponedSameRows(rows: seq<Row>, id: string, attempts: nat, error: string, until: int)
    ensures var r := Postponed(rows, id, attempts, error, until);
      && |r| == |rows|
      && forall k :: 0 <= k < |rows| ==> SameRow(r[k], rows[k]) && (rows[k].id != id ==> r[k] == rows[k])
  {
    if rows != [] {
      PostponedSameRows(rows[1..], id, attempts, error, until);
    }
  }

  lemma FailKeepsTables(t: Tables, id: string, attempts: nat, error: string, maxAttempts: nat, now: int)
    requires TablesOk(t)
    ensures var t' := Fail(t, id, attempts, error, maxAttempts, now);
      && TablesOk(t') && t'.delivered == t.delivered && |t'.pending| == |t.pending|
      && (forall k :: 0 <= k < |t.pending| ==> SameRow(t'.pending[k], t.pending[k]))
  {
    PostponedSameRows(t.pending, id, attempts, error[..Min(|error|, 500)], now + 1000 * Delay(attempts, maxAttempts));
    var t' := Fail(t, id, attempts, error, maxAttempts, now);
    forall r | r in t'.pending ensures r.id == r.payload.id && r.id !in t.delivered {
      var k :| 0 <= k < |t'.pending| && t'.pending[k] == r;
      assert t.pending[k] in t.pending;
    }
  }

  lemma {:induction false} DueRows(rows: seq<Row>, now: int)
    ensures forall r :: r in Due(rows, now) <==> r in rows && r.nextAttemptAt <= now
  {
    if rows != [] {
      DueRows(rows[1..], now);
      assert forall x :: x in rows <==> x == rows[0] || x in rows[1..];
    }
  }

  // ---------------------------------------------------------------- what is due, and when

  lemma {:induction false} DueInOrder(rows: seq<Row>, now: int)
    ensures Within(Due(rows, now), rows)
  {
    hide Within;
    if rows == [] {
      WithinSelf(rows);
    } else {
      DueInOrder(rows[1..], now);
      WithinFront(Due(rows[1..], now), rows[1..], rows[0]);
      assert [rows[0]] + rows[1..] == rows && [] + Due(rows[1..], now) == Due(rows[1..], now);
    }
  }

  /** A batch holds due rows, and a due row is left out only by a full batch of rows created before it. */
  lemma ReadyTakesEarliest(t: Tables, limit: nat, now: int)
    ensures var batch := Ready(t, limit, now);
      && |batch| <= limit && Within(batch, t.pending)
      && (forall r :: r in batch ==> r.nextAttemptAt <= now)
      && (forall r :: r in t.pending && r.nextAttemptAt <= now && r !in batch ==>
            |batch| == limit && forall b :: b in batch ==> Precedes(t.pending, b, r))
  {
    hide Within, Precedes;
    var due, batch := Due(t.pending, now), Ready(t, limit, now);
    DueRows(t.pending, now);
    DueInOrder(t.pending, now);
    if |due| > limit {
      PrefixWithin(due, limit);
      WithinTransitive(batch, due, t.pending);
      forall r, b | r in due && r !in batch && b in batch ensures Precedes(t.pending, b, r) {
        PrefixPrecedes(due, limit, b, r);
        WithinKeepsOrder(due, t.pending, b, r);
      }
    }
  }

  lemma PrefixWithin(rows: seq<Row>, n: nat)
    ensures n <= |rows| ==> Within(rows[..n], rows)
  {
    if n <= |rows| {
      assert Places(rows[..n], rows, seq(n, k => k));
    }
  }

  lemma PrefixPrecedes(rows: seq<Row>, n: nat, b: Row, r: Row)
    requires n <= |rows| && b in rows[..n] && r in rows && r !in rows[..n]
    ensures Precedes(rows, b, r)
  {
    var i :| 0 <= i < n && rows[..n][i] == b;
    assert rows == rows[..n] + rows[n..];
    var j :| 0 <= j < |rows| - n && rows[n..][j] == r;
    assert rows[i] == b && rows[n + j] == r;
  }

  /** The delay starts at a second and doubles with each failure up to the eighth, or to the attempt limit. */
  lemma DelayDoubles(attempts: nat, maxAttempts: nat)
    ensures Delay(0, maxAttempts) == 1
    ensures Delay(attempts + 1, maxAttempts)
         == if attempts < Min(maxAttempts, 8) then 2 * Delay(attempts, maxAttempts) else Delay(attempts, maxAttempts)
  {
    PowersTo8();
  }

  lemma {:induction false} PostponedAt(rows: seq<Row>, k: nat, attempts: nat, error: string, until: int)
    requires k < |rows|
    ensures var r := Postponed(rows, rows[k].id, attempts, error, until);
      |r| == |rows| && r[k] == rows[k].(attempts := attempts, nextAttemptAt := until, lastError := error)
  {
    if k > 0 {
      assert rows[1..][k-1] == rows[k];
      PostponedAt(rows[1..], k - 1, attempts, error, until);
    } else {
      PostponedSameRows(rows[1..], rows[0].id, attempts, error, until);
    }
  }

  /** A failure marks its own row and no other: counted, due again after the delay, and with the start of the error. */
  lemma FailMarksOne(t: Tables, k: nat, attempts: nat, error: string, maxAttempts: nat, now: int)
    requires TablesOk(t) && k < |t.pending|
    ensures var row := t.pending[k];
      var failed := row.(attempts := attempts, nextAttemptAt := now + 1000 * Delay(attempts, maxAttempts),
                         lastError := if |error| <= 500 then error else error[..500]);
      Fail(t, row.id, attempts, error, maxAttempts, now) == t.(pending := t.pending[k := failed])
  {
    hide Delay;
    var row, until := t.pending[k], now + 1000 * Delay(attempts, maxAttempts);
    var text := error[..Min(|error|, 500)];
    PostponedAt(t.pending, k, attempts, text, until);
    PostponedSameRows(t.pending, row.id, attempts, text, until);
    var failed := row.(attempts := attempts, nextAttemptAt := until, lastError := text);
    assert Postponed(t.pending, row.id, attempts, text, until) == t.pending[k := failed];
    assert |error| <= 500 ==> text == error;
  }
}
