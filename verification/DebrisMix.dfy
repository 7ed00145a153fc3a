/** Splitting the particles of a simulation over the components of a debris mix. */
module DebrisMix {
  import opened Numbers

  /** `id` is the object's identity, by which the loop tells the last component; equal components may be two objects. */
  datatype Component = Component(id: int, fraction: real, objectType: int)

  /** One seeding call: how many particles, of what type, and where its slice of the factor array starts. */
  datatype Batch = Batch(number: int, objectType: int, offset: int)

  /** Python's round: to the nearest integer, ties to even. */
  function Round(r: real): (n: int)
    ensures -0.5 <= r - n as real <= 0.5
    ensures r - r.Floor as real == 0.5 ==> n % 2 == 0
  {
    var f := r.Floor;
    if r - f as real < 0.5 then f else if r - f as real > 0.5 then f + 1 else if f % 2 == 0 then f else f + 1
  }

  function Quota(c: Component, particles: int): int {
    Max(1, Round(c.fraction * particles as real))
  }

  predicate IsLast(mix: seq<Component>, k: nat)
    requires k < |mix|
  {
    mix[k].id == mix[|mix|-1].id
  }

  function Number(mix: seq<Component>, particles: int, k: nat, offset: int): int
    requires k < |mix|
  {
    var wanted := if IsLast(mix, k) then particles - offset else Quota(mix[k], particles);
    Max(1, Min(wanted, particles - offset))
  }

  /** The seeding calls from component k on, with `offset` particles already placed. */
  function Plan(mix: seq<Component>, particles: int, k: nat, offset: int): seq<Batch>
    requires k <= |mix|
    decreases |mix| - k
  {
    if k == |mix| || offset >= particles then []
    else
      var n := Number(mix, particles, k, offset);
      [Batch(n, mix[k].objectType, offset)] + Plan(mix, particles, k + 1, offset + n)
  }

  lemma PlanStep(mix: seq<Component>, particles: int, k: nat, offset: int)
    requires k < |mix| && offset < particles
    ensures var n := Number(mix, particles, k, offset);
      Plan(mix, particles, k, offset) == [Batch(n, mix[k].objectType, offset)] + Plan(mix, particles, k + 1, offset + n)
  {
  }

  lemma PlanDone(mix: seq<Component>, particles: int, k: nat, offset: int)
    requires k <= |mix| && (k == |mix| || offset >= particles)
    ensures Plan(mix, particles, k, offset) == []
  {
  }

  method Seed(mix: seq<Component>, particles: int) returns (batches: seq<Batch>)
    requires mix != [] && particles >= 1
    ensures batches == Plan(mix, particles, 0, 0)
  {
    hide Plan;
    batches := [];
    var offset := 0;
    for k := 0 to |mix|
      invariant offset < particles
      invariant Plan(mix, particles, 0, 0) == batches + Plan(mix, particles, k, offset)
    {
      var n := if IsLast(mix, k) then particles - offset else Max(1, Round(mix[k].fraction * particles as real));
      n := Max(1, Min(n, particles - offset));
      PlanStep(mix, particles, k, offset);
      batches := batches + [Batch(n, mix[k].objectType, offset)];
      offset := offset + n;
      if offset >= particles {
        PlanDone(mix, particles, k + 1, offset);
        return;
      }
    }
    PlanDone(mix, particles, |mix|, offset);
  }

  function Total(batches: seq<Batch>): int {
    if batches == [] then 0 else batches[0].number + Total(batches[1..])
  }

  /** The slices follow one another from `from` to `to`, each of at least one particle. */
  ghost predicate Tiles(batches: seq<Batch>, from: int, to: int)
    decreases |batches|
  {
    if batches == [] then from == to
    else batches[0].offset == from && batches[0].number >= 1 && Tiles(batches[1..], from + batches[0].number, to)
  }

  lemma {:induction false} TilesTotal(batches: seq<Batch>, from: int, to: int)
    requires Tiles(batches, from, to)
    ensures Total(batches) == to - from
    decreases |batches|
  {
    if batches != [] {
      TilesTotal(batches[1..], from + batches[0].number, to);
    }
  }

  lemma {:induction false} PlanTiles(mix: seq<Component>, particles: int, k: nat, offset: int)
    requires k < |mix| && offset < particles
    ensures Tiles(Plan(mix, particles, k, offset), offset, particles)
    ensures 1 <= |Plan(mix, particles, k, offset)| <= |mix| - k
    decreases |mix| - k
  {
    var n := Number(mix, particles, k, offset);
    var rest := Plan(mix, particles, k + 1, offset + n);
    assert Plan(mix, particles, k, offset)[1..] == rest;
    if offset + n < particles {
      PlanTiles(mix, particles, k + 1, offset + n);
    }
  }

  /** Conservation: whatever the fractions, the counts are positive, sum to `particles`, and tile the factor array. */
  lemma EveryMixIsConserved(mix: seq<Component>, particles: int)
    requires mix != [] && particles >= 1
    ensures var batches := Plan(mix, particles, 0, 0);
      Tiles(batches, 0, particles) && Total(batches) == particles && 1 <= |batches| <= |mix|
  {
    PlanTiles(mix, particles, 0, 0);
    TilesTotal(Plan(mix, particles, 0, 0), 0, particles);
  }

  // ---------------------------------------------------------------- who is seeded, and how fairly

  /** Particles that components i up to k ask for. */
  function Asked(mix: seq<Component>, particles: int, i: nat, k: nat): int
    requires i <= k <= |mix|
    decreases k - i
  {
    if i == k then 0 else Quota(mix[i], particles) + Asked(mix, particles, i + 1, k)
  }

  /** No other entry of the mix is the same object as its last one. */
  predicate LastIsAlone(mix: seq<Component>) {
    forall k :: 0 <= k < |mix| - 1 ==> mix[k].id != mix[|mix|-1].id
  }

  /** From component k on, all are seeded exactly when those before the last leave it something. */
  lemma {:induction false} AllSeededIff(mix: seq<Component>, particles: int, k: nat, offset: int)
    requires k < |mix| && offset < particles && LastIsAlone(mix)
    ensures |Plan(mix, particles, k, offset)| == |mix| - k <==> offset + Asked(mix, particles, k, |mix| - 1) < particles
    decreases |mix| - k
  {
    if k < |mix| - 1 {
      AskedIsPositive(mix, particles, k + 1);
      var n := Number(mix, particles, k, offset);
      if offset + n < particles {
        AllSeededIff(mix, particles, k + 1, offset + n);
      }
    }
  }

  lemma {:induction false} AskedIsPositive(mix: seq<Component>, particles: int, k: nat)
    requires k < |mix|
    ensures Asked(mix, particles, k, |mix| - 1) >= 0
    decreases |mix| - k
  {
    if k < |mix| - 1 {
      AskedIsPositive(mix, particles, k + 1);
    }
  }

  function Share(c: Component, particles: int): real {
    c.fraction * particles as real
  }

  function Shares(mix: seq<Component>, particles: int, k: nat): real
    requires k <= |mix|
    decreases |mix| - k
  {
    if k == |mix| then 0.0 else Share(mix[k], particles) + Shares(mix, particles, k + 1)
  }

  function Fractions(mix: seq<Component>, k: nat): real
    requires k <= |mix|
    decreases |mix| - k
  {
    if k == |mix| then 0.0 else mix[k].fraction + Fractions(mix, k + 1)
  }

  lemma {:induction false} SharesSum(mix: seq<Component>, particles: int, k: nat)
    requires k <= |mix|
    ensures Shares(mix, particles, k) == Fractions(mix, k) * particles as real
    decreases |mix| - k
  {
    if k < |mix| {
      SharesSum(mix, particles, k + 1);
    }
  }

  lemma QuotaIsClose(c: Component, particles: int)
    requires c.fraction >= 0.0 && particles >= 0
    ensures Abs(Quota(c, particles) as real - Share(c, particles)) <= 1.0
  {
    Scale(particles as real, 0.0, c.fraction);
  }

  function Error(b: Batch, c: Component, particles: int): real {
    b.number as real - Share(c, particles)
  }

  /** Each batch but the last meets its share to within one particle, and the last takes up the differences. */
  ghost predicate Fair(batches: seq<Batch>, mix: seq<Component>, particles: int, k: nat, offset: int) {
    && k < |mix| && |batches| == |mix| - k
    && (forall i :: k <= i < |mix| - 1 ==> Abs(Error(batches[i-k], mix[i], particles)) <= 1.0)
    && Abs(Error(batches[|batches|-1], mix[|mix|-1], particles)
           - ((particles - offset) as real - Shares(mix, particles, k))) <= (|mix| - 1 - k) as real
  }

  lemma LastIsFair(mix: seq<Component>, particles: int, offset: int)
    requires mix != [] && 0 <= offset < particles
    ensures Fair(Plan(mix, particles, |mix| - 1, offset), mix, particles, |mix| - 1, offset)
  {
    hide Share, Quota, Plan;
    var k := |mix| - 1;
    PlanStep(mix, particles, k, offset);
    PlanDone(mix, particles, k + 1, particles);
    assert Shares(mix, particles, k) == Share(mix[k], particles) + 0.0;
  }

  lemma FairBefore(rest: seq<Batch>, b: Batch, mix: seq<Component>, particles: int, k: nat, offset: int)
    requires k < |mix| - 1 && Fair(rest, mix, particles, k + 1, offset + b.number)
    requires Abs(Error(b, mix[k], particles)) <= 1.0
    ensures Fair([b] + rest, mix, particles, k, offset)
  {
    hide Share, Shares;
    SharesUnfold(mix, particles, k);
    var batches := [b] + rest;
    assert batches[|batches|-1] == rest[|rest|-1];
    forall i | k <= i < |mix| - 1 ensures Abs(Error(batches[i-k], mix[i], particles)) <= 1.0 {
      if i > k {
        assert batches[i-k] == rest[i-(k+1)];
      }
    }
  }

  lemma SharesUnfold(mix: seq<Component>, particles: int, k: nat)
    ensures k < |mix| ==> Shares(mix, particles, k) == Share(mix[k], particles) + Shares(mix, particles, k + 1)
  {
  }

  /** A component before the last, seeded with more to come, gets its quota. */
  lemma GetsQuota(mix: seq<Component>, particles: int, k: nat, offset: int)
    requires k < |mix| - 1 && 0 <= offset < particles && LastIsAlone(mix)
    requires |Plan(mix, particles, k, offset)| == |mix| - k
    ensures Number(mix, particles, k, offset) == Quota(mix[k], particles) >= 1
    ensures offset + Quota(mix[k], particles) < particles
    ensures |Plan(mix, particles, k + 1, offset + Quota(mix[k], particles))| == |mix| - (k + 1)
  {
    hide Plan, Share;
    PlanStep(mix, particles, k, offset);
    var n := Number(mix, particles, k, offset);
    if offset + n >= particles {
      PlanDone(mix, particles, k + 1, offset + n);
    }
  }

  /**
   * When every component is seeded, each but the last gets its share to within one particle, and the last one
   * takes up the differences.
   */
  lemma {:induction false} SharesAreFair(mix: seq<Component>, particles: int, k: nat, offset: int)
    requires k < |mix| && 0 <= offset < particles && LastIsAlone(mix)
    requires forall i :: 0 <= i < |mix| ==> mix[i].fraction >= 0.0
    requires |Plan(mix, particles, k, offset)| == |mix| - k
    ensures Fair(Plan(mix, particles, k, offset), mix, particles, k, offset)
    decreases |mix| - k
  {
    hide Plan, Number, Quota, Share, Fair, LastIsAlone;
    if k == |mix| - 1 {
      LastIsFair(mix, particles, offset);
    } else {
      var n := Quota(mix[k], particles);
      GetsQuota(mix, particles, k, offset);
      PlanStep(mix, particles, k, offset);
      QuotaIsClose(mix[k], particles);
      SharesAreFair(mix, particles, k + 1, offset + n);
      var rest, b := Plan(mix, particles, k + 1, offset + n), Batch(n, mix[k].objectType, offset);
      FairBefore(rest, b, mix, particles, k, offset);
    }
  }

  /** With fractions that sum to one, the last share is met to within the number of the other components. */
  lemma LastShareIsClose(mix: seq<Component>, particles: int)
    requires mix != [] && particles >= 1 && LastIsAlone(mix) && Fractions(mix, 0) == 1.0
    requires forall i :: 0 <= i < |mix| ==> mix[i].fraction >= 0.0
    requires Asked(mix, particles, 0, |mix| - 1) < particles
    ensures var batches := Plan(mix, particles, 0, 0);
      && |batches| == |mix|
      && (forall i :: 0 <= i < |mix| - 1 ==> Abs(Error(batches[i], mix[i], particles)) <= 1.0)
      && Abs(Error(batches[|mix|-1], mix[|mix|-1], particles)) <= (|mix| - 1) as real
  {
    hide Plan, Share, Shares, Fractions, Asked;
    AllSeededIff(mix, particles, 0, 0);
    SharesAreFair(mix, particles, 0, 0);
    SharesSum(mix, particles, 0);
    assert 1.0 * particles as real == particles as real;
  }
}
