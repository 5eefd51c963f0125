/**
 * Model of server/app/core/model_pool.py: weighted, health-aware lane selection and
 * the failover loop with its circuit breaker. Times, tokens and weights are reals;
 * the clock, the random tokens, the network outcomes and the trips made by
 * concurrently running calls all come from an arbitrary `World`.
 */
module ModelPool {
  import opened Common

  datatype Kind = Chat | Embedding

  /** load_deployments clamps every weight to at least zero. */
  type Weight = w: real | w >= 0.0

  datatype Deployment = Deployment(name: string, kind: Kind, deploymentId: string, weight: Weight, high: bool)

  /** name -> cooling_until; an absent name reads as 0.0 */
  type Health = map<string, real>

  // ---------------------------------------------------------------------------
  // Candidates and health
  // ---------------------------------------------------------------------------

  function OfKind(lanes: seq<Deployment>, kind: Kind): seq<Deployment> {
    Filter(lanes, (d: Deployment) => d.kind == kind)
  }

  /** Lanes of the kind, narrowed to high lanes for a "high" request when there are any. */
  function Candidates(lanes: seq<Deployment>, kind: Kind, tier: string): (r: seq<Deployment>)
    ensures forall d :: d in r ==> d in lanes && d.kind == kind
    ensures r == [] <==> forall d :: d in lanes ==> d.kind != kind
  {
    var all := OfKind(lanes, kind);
    var high := Filter(all, (d: Deployment) => d.high);
    if tier == "high" && high != [] then assert high[0] in high; high
    else assert all != [] ==> all[0] in all; all
  }

  function CoolingUntil(health: Health, d: Deployment): real {
    if d.name in health then health[d.name] else 0.0
  }

  function Healthy(lanes: seq<Deployment>, health: Health, now: real): seq<Deployment> {
    Filter(lanes, (d: Deployment) => CoolingUntil(health, d) <= now)
  }

  /** The first lane with the smallest deadline, as Python's `min` returns it. */
  function Soonest(lanes: seq<Deployment>, health: Health): (d: Deployment)
    requires lanes != []
    ensures d in lanes
    ensures forall c :: c in lanes ==> CoolingUntil(health, d) <= CoolingUntil(health, c)
  {
    if |lanes| == 1 then lanes[0]
    else
      var rest := Soonest(lanes[1..], health);
      if CoolingUntil(health, lanes[0]) <= CoolingUntil(health, rest) then lanes[0] else rest
  }

  // ---------------------------------------------------------------------------
  // The weighted pick
  // ---------------------------------------------------------------------------

  /** Total weight of the first i lanes. */
  function Cumulative(lanes: seq<Deployment>, i: nat): (c: real)
    requires i <= |lanes|
    ensures c >= 0.0
  {
    if i == 0 then 0.0 else Cumulative(lanes, i - 1) + lanes[i - 1].weight
  }

  function Total(lanes: seq<Deployment>): real {
    Cumulative(lanes, |lanes|)
  }

  function Clamp01(token: real): (t: real)
    ensures 0.0 <= t <= 1.0
  {
    if token < 0.0 then 0.0 else if token > 1.0 then 1.0 else token
  }

  /** First position from i on whose cumulative weight exceeds the target; the last lane if there is none. */
  function FirstAbove(lanes: seq<Deployment>, target: real, i: nat): (r: nat)
    requires i < |lanes|
    ensures i <= r < |lanes|
    decreases |lanes| - i
  {
    if target < Cumulative(lanes, i + 1) || i == |lanes| - 1 then i
    else FirstAbove(lanes, target, i + 1)
  }

  function Pick(lanes: seq<Deployment>, token: real): (i: nat)
    requires lanes != []
    ensures i < |lanes|
  {
    var t := Clamp01(token);
    if Total(lanes) <= 0.0 then UniformIndex(t, |lanes|)
    else FirstAbove(lanes, Scale(t, Total(lanes)), 0)
  }

  function UniformIndex(t: real, n: nat): (i: nat)
    requires 0.0 <= t <= 1.0 && n > 0
    ensures i < n
  {
    Min(n - 1, Scale(t, n as real).Floor)
  }

  /** t * total, for a token already clamped to [0, 1]. */
  function Scale(t: real, total: real): (r: real)
    requires 0.0 <= t <= 1.0 && 0.0 <= total
    ensures 0.0 <= r <= total
    ensures total > 0.0 ==> (r < total <==> t < 1.0)
  {
    ScaleMonotone(0.0, t, total);
    ScaleMonotone(t, 1.0, total);
    t * total
  }

  lemma ScaleIsProduct(t: real, total: real, product: real)
    requires 0.0 <= t <= 1.0 && 0.0 <= total && product == t * total
    ensures Scale(t, total) == product
  {
  }

  lemma ScaleMonotone(a: real, b: real, c: real)
    requires a <= b && 0.0 <= c
    ensures a * c <= b * c
    ensures a < b && 0.0 < c ==> a * c < b * c
  {
  }

  lemma {:induction false} CumulativeMonotone(lanes: seq<Deployment>, i: nat, j: nat)
    requires i <= j <= |lanes|
    ensures Cumulative(lanes, i) <= Cumulative(lanes, j)
    decreases j - i
  {
    if i < j {
      CumulativeMonotone(lanes, i, j - 1);
    }
  }

  lemma {:induction false} FirstAboveIsFirst(lanes: seq<Deployment>, target: real, i: nat)
    requires i < |lanes|
    requires Cumulative(lanes, i) <= target
    ensures var r := FirstAbove(lanes, target, i);
            && Cumulative(lanes, r) <= target
            && (target < Total(lanes) ==> target < Cumulative(lanes, r + 1))
            && (target >= Total(lanes) ==> r == |lanes| - 1)
    decreases |lanes| - i
  {
    CumulativeMonotone(lanes, i + 1, |lanes|);
    if !(target < Cumulative(lanes, i + 1) || i == |lanes| - 1) {
      FirstAboveIsFirst(lanes, target, i + 1);
    }
  }

  lemma FirstAbovePartitions(lanes: seq<Deployment>, target: real, i: nat)
    requires i < |lanes| && 0.0 <= target < Total(lanes)
    ensures FirstAbove(lanes, target, 0) == i <==> Cumulative(lanes, i) <= target < Cumulative(lanes, i + 1)
  {
    FirstAboveIsFirst(lanes, target, 0);
    var r := FirstAbove(lanes, target, 0);
    if i < r {
      CumulativeMonotone(lanes, i + 1, r);
    } else if r < i {
      CumulativeMonotone(lanes, r + 1, i);
    }
  }

  /** A token in [0, 1) picks lane i exactly when the scaled token lies in lane i's weight interval. */
  lemma PickPartitions(lanes: seq<Deployment>, token: real, i: nat)
    requires i < |lanes| && Total(lanes) > 0.0 && 0.0 <= token < 1.0
    ensures Pick(lanes, token) == i
       <==> Cumulative(lanes, i) <= Scale(token, Total(lanes)) < Cumulative(lanes, i + 1)
  {
    assert Clamp01(token) == token;
    FirstAbovePartitions(lanes, Scale(token, Total(lanes)), i);
  }

  /**
   * With positive total weight, a zero-weight lane is picked exactly when the token is 1 or more and that lane
   * is last.
   */
  lemma ZeroWeightPicked(lanes: seq<Deployment>, token: real)
    requires lanes != [] && Total(lanes) > 0.0
    ensures lanes[Pick(lanes, token)].weight == 0.0
       <==> token >= 1.0 && lanes[|lanes| - 1].weight == 0.0
  {
    FirstAboveIsFirst(lanes, Scale(Clamp01(token), Total(lanes)), 0);
  }

  lemma FirstAboveMonotone(lanes: seq<Deployment>, s: real, t: real)
    requires lanes != [] && 0.0 <= s <= t <= Total(lanes)
    ensures FirstAbove(lanes, s, 0) <= FirstAbove(lanes, t, 0)
  {
    FirstAboveIsFirst(lanes, s, 0);
    FirstAboveIsFirst(lanes, t, 0);
    var i, j := FirstAbove(lanes, s, 0), FirstAbove(lanes, t, 0);
    if j < i {
      CumulativeMonotone(lanes, j + 1, i);
    }
  }

  lemma ScaleOrder(s: real, t: real, total: real)
    requires 0.0 <= s <= t <= 1.0 && 0.0 <= total
    ensures Scale(s, total) <= Scale(t, total)
  {
  }

  /** The picked position never moves back as the token grows, whatever the weights. */
  lemma PickMonotone(lanes: seq<Deployment>, a: real, b: real)
    requires lanes != [] && a <= b
    ensures Pick(lanes, a) <= Pick(lanes, b)
  {
    var s, t := Clamp01(a), Clamp01(b);
    if Total(lanes) <= 0.0 {
      ScaleOrder(s, t, |lanes| as real);
    } else {
      ScaleOrder(s, t, Total(lanes));
      FirstAboveMonotone(lanes, Scale(s, Total(lanes)), Scale(t, Total(lanes)));
    }
  }

  /** All-zero weights: a token in [0, 1) splits the range evenly over the lanes. */
  lemma ZeroWeightsPickEvenly(lanes: seq<Deployment>, token: real, i: nat)
    requires i < |lanes| && Total(lanes) <= 0.0 && 0.0 <= token < 1.0
    ensures Pick(lanes, token) == i <==> i as real <= token * |lanes| as real < (i + 1) as real
  {
  }

  // ---------------------------------------------------------------------------
  // select_deployment
  // ---------------------------------------------------------------------------

  function Select(lanes: seq<Deployment>, health: Health, token: real, kind: Kind, tier: string, now: real)
    : Option<Deployment>
  {
    var candidates := Candidates(lanes, kind, tier);
    var healthy := Healthy(candidates, health, now);
    if candidates == [] then None
    else if healthy == [] then Some(Soonest(candidates, health))
    else Some(healthy[Pick(healthy, token)])
  }

  /**
   * No lane only without eligible ones; a cooling lane only when all of them cool, and then one that recovers
   * soonest.
   */
  ghost predicate PrefersHealthyAt(r: Option<Deployment>, eligible: seq<Deployment>, h: Health, now: real) {
    && (r == None <==> eligible == [])
    && (r.Some? ==> r.value in eligible)
    && (r.Some? && CoolingUntil(h, r.value) > now ==>
          forall d :: d in eligible ==> CoolingUntil(h, d) > now && CoolingUntil(h, r.value) <= CoolingUntil(h, d))
  }

  /** Selection fails only without lanes of the kind; it never skips a healthy candidate for a cooling one. */
  lemma SelectIsHealthAware(lanes: seq<Deployment>, health: Health, token: real, kind: Kind, tier: string, now: real)
    ensures PrefersHealthyAt(Select(lanes, health, token, kind, tier, now), Candidates(lanes, kind, tier), health, now)
  {
  }

  // ---- The selection in terms of lanes, weights and deadlines alone ----------

  /** Eligible are the lanes of the kind; for a "high" request only high ones, if there are any. */
  lemma CandidatesAre(lanes: seq<Deployment>, kind: Kind, tier: string, d: Deployment)
    ensures d in Candidates(lanes, kind, tier)
       <==> && d in lanes && d.kind == kind
            && (tier == "high" && (exists e :: e in lanes && e.kind == kind && e.high) ==> d.high)
  {
    var all := OfKind(lanes, kind);
    var high := Filter(all, (e: Deployment) => e.high);
    if high != [] {
      assert high[0] in high && high[0] in all;
    }
    assert forall e :: e in lanes && e.kind == kind && e.high ==> e in high;
  }

  /** They keep the configured order. */
  lemma CandidatesInOrder(lanes: seq<Deployment>, kind: Kind, tier: string, i: nat, j: nat) returns (p: nat, q: nat)
    requires i < j < |Candidates(lanes, kind, tier)|
    ensures p < q < |lanes|
    ensures lanes[p] == Candidates(lanes, kind, tier)[i] && lanes[q] == Candidates(lanes, kind, tier)[j]
  {
    var all := OfKind(lanes, kind);
    var a, b := i, j;
    if tier == "high" && Filter(all, (d: Deployment) => d.high) != [] {
      a, b := FilterInOrder(all, (d: Deployment) => d.high, i, j);
    }
    p, q := FilterInOrder(lanes, (d: Deployment) => d.kind == kind, a, b);
  }

  /** Healthy are the lanes whose deadline, zero if they were never tripped, has passed. */
  lemma HealthyAre(lanes: seq<Deployment>, health: Health, now: real, d: Deployment)
    ensures d in Healthy(lanes, health, now)
       <==> d in lanes && (if d.name in health then health[d.name] <= now else 0.0 <= now)
  {
  }

  lemma HealthyInOrder(lanes: seq<Deployment>, health: Health, now: real, i: nat, j: nat) returns (p: nat, q: nat)
    requires i < j < |Healthy(lanes, health, now)|
    ensures p < q < |lanes| && lanes[p] == Healthy(lanes, health, now)[i] && lanes[q] == Healthy(lanes, health, now)[j]
  {
    p, q := FilterInOrder(lanes, (d: Deployment) => CoolingUntil(health, d) <= now, i, j);
  }

  lemma CumulativeSums(lanes: seq<Deployment>, i: nat)
    requires i < |lanes|
    ensures Cumulative(lanes, 0) == 0.0 && Cumulative(lanes, i + 1) - Cumulative(lanes, i) == lanes[i].weight
  {
  }

  /** Distinct lanes: the one picked is lanes[i] exactly when i is the position picked. */
  lemma PickedPosition(lanes: seq<Deployment>, token: real, i: nat)
    requires i < |lanes| && Distinct(lanes)
    ensures lanes[Pick(lanes, token)] == lanes[i] <==> Pick(lanes, token) == i
  {
  }

  lemma SelectsFromHealthy(lanes: seq<Deployment>, health: Health, token: real, kind: Kind, tier: string, now: real,
                           h: seq<Deployment>)
    requires h == Healthy(Candidates(lanes, kind, tier), health, now) && h != []
    ensures Select(lanes, health, token, kind, tier, now) == Some(h[Pick(h, token)])
  {
    assert h[0] in Candidates(lanes, kind, tier);
  }

  /**
   * The healthy candidates share the token range by weight: h[i] is selected when the token,
   * scaled to their total weight, lies on its own interval, and never else.
   */
  lemma SelectsByWeight(lanes: seq<Deployment>, health: Health, token: real, kind: Kind, tier: string, now: real,
                        h: seq<Deployment>, i: nat, total: real, target: real)
    requires h == Healthy(Candidates(lanes, kind, tier), health, now) && i < |h| && Distinct(h)
    requires total == Cumulative(h, |h|) && total > 0.0 && 0.0 <= token < 1.0 && target == token * total
    ensures Select(lanes, health, token, kind, tier, now) == Some(h[i])
       <==> Cumulative(h, i) <= target < Cumulative(h, i + 1)
  {
    ScaleIsProduct(token, total, target);
    SelectsFromHealthy(lanes, health, token, kind, tier, now, h);
    PickedPosition(h, token, i);
    PickPartitions(h, token, i);
  }

  /** Without any weight among them, evenly. */
  lemma SelectsEvenly(lanes: seq<Deployment>, health: Health, token: real, kind: Kind, tier: string, now: real,
                      h: seq<Deployment>, i: nat)
    requires h == Healthy(Candidates(lanes, kind, tier), health, now) && i < |h| && Distinct(h)
    requires (forall d :: d in h ==> d.weight == 0.0) && 0.0 <= token < 1.0
    ensures Select(lanes, health, token, kind, tier, now) == Some(h[i])
       <==> i as real <= token * |h| as real < (i + 1) as real
  {
    SelectsFromHealthy(lanes, health, token, kind, tier, now, h);
    PickedPosition(h, token, i);
    NoWeight(h, |h|);
    ZeroWeightsPickEvenly(h, token, i);
  }

  lemma {:induction false} NoWeight(lanes: seq<Deployment>, n: nat)
    requires n <= |lanes| && forall d :: d in lanes ==> d.weight == 0.0
    ensures Cumulative(lanes, n) == 0.0
  {
    if n > 0 {
      NoWeight(lanes, n - 1);
      assert lanes[n - 1] in lanes;
    }
  }

  /** A token below the range selects like zero, one at or above its end selects the last healthy lane. */
  lemma SelectsAtTheEnds(lanes: seq<Deployment>, health: Health, token: real, kind: Kind, tier: string, now: real,
                         h: seq<Deployment>)
    requires h == Healthy(Candidates(lanes, kind, tier), health, now) && h != []
    ensures token < 0.0 ==> Select(lanes, health, token, kind, tier, now) == Select(lanes, health, 0.0, kind, tier, now)
    ensures token >= 1.0 ==> Select(lanes, health, token, kind, tier, now) == Some(h[|h| - 1])
  {
    SelectsFromHealthy(lanes, health, token, kind, tier, now, h);
    SelectsFromHealthy(lanes, health, 0.0, kind, tier, now, h);
    if token >= 1.0 {
      LastPicked(h, token);
    }
  }

  lemma LastPicked(lanes: seq<Deployment>, token: real)
    requires lanes != [] && token >= 1.0
    ensures Pick(lanes, token) == |lanes| - 1
  {
    var t := Clamp01(token);
    if Total(lanes) > 0.0 {
      ScaleIsProduct(t, Total(lanes), Total(lanes));
      FirstAboveIsFirst(lanes, Total(lanes), 0);
    } else {
      ScaleIsProduct(t, |lanes| as real, |lanes| as real);
    }
  }

  /** When all candidates cool, the one selected is the first among those that recover soonest. */
  lemma SelectsSoonest(lanes: seq<Deployment>, health: Health, token: real, kind: Kind, tier: string, now: real,
                       c: seq<Deployment>, i: nat)
    requires c == Candidates(lanes, kind, tier) && i < |c| && Distinct(c)
    requires forall d :: d in c ==> d.name in health && health[d.name] > now
    ensures Select(lanes, health, token, kind, tier, now) == Some(c[i])
       <==> && (forall j :: 0 <= j < i ==> health[c[i].name] < health[c[j].name])
            && forall j :: i <= j < |c| ==> health[c[i].name] <= health[c[j].name]
  {
    NoneHealthy(c, health, now);
    assert Select(lanes, health, token, kind, tier, now) == Some(Soonest(c, health));
    SoonestIsFirst(c, health, i);
    DeadlinesRead(c, health, i);
  }

  lemma NoneHealthy(lanes: seq<Deployment>, health: Health, now: real)
    requires forall d :: d in lanes ==> d.name in health && health[d.name] > now
    ensures Healthy(lanes, health, now) == []
  {
    if Healthy(lanes, health, now) != [] {
      HealthyAre(lanes, health, now, Healthy(lanes, health, now)[0]);
      assert false;
    }
  }

  lemma DeadlinesRead(lanes: seq<Deployment>, health: Health, i: nat)
    requires i < |lanes| && forall d :: d in lanes ==> d.name in health
    ensures FirstSoonest(lanes, health, i)
       <==> && (forall j :: 0 <= j < i ==> health[lanes[i].name] < health[lanes[j].name])
            && forall j :: i <= j < |lanes| ==> health[lanes[i].name] <= health[lanes[j].name]
  {
    assert forall j :: 0 <= j < |lanes| ==>
             lanes[j] in lanes && CoolingUntil(health, lanes[j]) == health[lanes[j].name];
  }

  /** Lane i has the earliest deadline, and earlier lanes later ones. */
  ghost predicate FirstSoonest(lanes: seq<Deployment>, health: Health, i: nat)
    requires i < |lanes|
  {
    && (forall j :: 0 <= j < i ==> CoolingUntil(health, lanes[i]) < CoolingUntil(health, lanes[j]))
    && forall j :: i <= j < |lanes| ==> CoolingUntil(health, lanes[i]) <= CoolingUntil(health, lanes[j])
  }

  lemma {:induction false} SoonestPosition(lanes: seq<Deployment>, health: Health) returns (i: nat)
    requires lanes != []
    ensures i < |lanes| && lanes[i] == Soonest(lanes, health) && FirstSoonest(lanes, health, i)
  {
    i := 0;
    if |lanes| > 1 {
      var k := SoonestPosition(lanes[1..], health);
      assert forall j :: 1 <= j < |lanes| ==> lanes[j] == lanes[1..][j - 1];
      if CoolingUntil(health, lanes[0]) > CoolingUntil(health, Soonest(lanes[1..], health)) {
        i := k + 1;
      }
    }
  }

  lemma SoonestIsFirst(lanes: seq<Deployment>, health: Health, i: nat)
    requires i < |lanes| && Distinct(lanes)
    ensures Soonest(lanes, health) == lanes[i] <==> FirstSoonest(lanes, health, i)
  {
    var k := SoonestPosition(lanes, health);
    assert FirstSoonest(lanes, health, i) ==> i == k;
  }

  method SelectDeployment(lanes: seq<Deployment>, health: Health, token: real, kind: Kind, tier: string, now: real)
    returns (d: Option<Deployment>)
    ensures d == Select(lanes, health, token, kind, tier, now)
  {
    var candidates := Candidates(lanes, kind, tier);
    if candidates == [] {
      return None;
    }
    var healthy := Healthy(candidates, health, now);
    if healthy == [] {
      return Some(Soonest(candidates, health));
    }
    var i := WeightedPick(healthy, token);
    return Some(healthy[i]);
  }

  method WeightedPick(lanes: seq<Deployment>, token: real) returns (i: nat)
    requires lanes != []
    ensures i == Pick(lanes, token)
  {
    var t, total := Clamp01(token), Total(lanes);
    if total <= 0.0 {
      return UniformIndex(t, |lanes|);
    }
    i := ScanWeights(lanes, Scale(t, total));
  }

  /** The scan that adds up weights until their sum exceeds the target. */
  method ScanWeights(lanes: seq<Deployment>, target: real) returns (r: nat)
    requires lanes != []
    ensures r == FirstAbove(lanes, target, 0)
  {
    var cumulative := 0.0;
    for i := 0 to |lanes|
      invariant cumulative == Cumulative(lanes, i)
      invariant FirstAbove(lanes, target, 0) == if i < |lanes| then FirstAbove(lanes, target, i) else |lanes| - 1
    {
      cumulative := cumulative + lanes[i].weight;
      if target < cumulative {
        return i;
      }
    }
    return |lanes| - 1;
  }

  // ---------------------------------------------------------------------------
  // One call as a trace of attempts
  // ---------------------------------------------------------------------------

  datatype Outcome = Success | Throttled | OtherError

  /**
   * What the environment does around attempt i: the deadlines that other calls' trips
   * wrote since the previous attempt, the clock and the token at
   * selection, and the network outcome with the time it arrives.
   */
  datatype Step = Step(others: Health, selectAt: real, token: real, outcome: Outcome, failAt: real)

  type World = seq<Step>

  datatype CallResult =
    | Answered(lane: Deployment)     // the response is returned
    | Raised(lane: Deployment)       // an exception that is neither a 429 nor a timeout
    | Exhausted(lane: Deployment)    // the last 429 or timeout is re-raised
    | NoLane                         // RuntimeError: no deployment of the kind

  /**
   * One call in progress or done: the breaker state it found, the pool's cooldown, the world it runs in,
   * the lanes it tried, and for each of them the breaker state its selection read.
   */
  datatype Course = Course(h0: Health, cooldown: real, world: World, attempts: seq<Deployment>, seen: seq<Health>)

  /** The breaker state left by the first k attempts. */
  function LeftBy(c: Course, k: nat): Health
    requires k <= |c.attempts| == |c.seen| && k <= |c.world|
  {
    if k == 0 then c.h0 else c.seen[k - 1][c.attempts[k - 1].name := c.world[k - 1].failAt + c.cooldown]
  }

  ghost predicate Tried(attempts: seq<Deployment>, name: string) {
    exists i :: 0 <= i < |attempts| && attempts[i].name == name
  }

  ghost predicate DistinctNames(attempts: seq<Deployment>) {
    forall i, j :: 0 <= i < j < |attempts| ==> attempts[i].name != attempts[j].name
  }

  /** A selection rule: the lane picked from the health map it reads and the clock and token of its step. */
  type Picker = (Health, Step) -> Option<Deployment>

  function Picked(pick: Picker, health: Health, step: Step): Option<Deployment> {
    pick(health, step)
  }

  function PickerFor(lanes: seq<Deployment>, kind: Kind, tier: string): Picker {
    (health: Health, step: Step) => Select(lanes, health, step.token, kind, tier, step.selectAt)
  }

  /** Selection i read the state left before it, plus other calls' trips, and picked attempt i. */
  ghost predicate SelectsAt(pick: Picker, c: Course, i: nat)
    requires i < |c.attempts| == |c.seen| && |c.attempts| <= |c.world|
  {
    && c.seen[i] == LeftBy(c, i) + c.world[i].others
    && Picked(pick, c.seen[i], c.world[i]) == Some(c.attempts[i])
  }

  /** `attempts` are the lanes a call picks one after the other, each new to the call. */
  ghost predicate Trace(pick: Picker, c: Course) {
    && |c.attempts| == |c.seen| && |c.attempts| <= |c.world|
    && DistinctNames(c.attempts)
    && forall i :: 0 <= i < |c.attempts| ==> SelectsAt(pick, c, i)
  }

  /** The loop stops when it is given no lane, or one that was tried already. */
  ghost predicate GivesUpOn(attempts: seq<Deployment>, d: Option<Deployment>) {
    d == None || Tried(attempts, d.value.name)
  }

  /** The loop stops at the next selection. */
  ghost predicate Stuck(pick: Picker, world: World, attempts: seq<Deployment>, health: Health)
    requires |attempts| < |world|
  {
    var step := world[|attempts|];
    GivesUpOn(attempts, Picked(pick, health + step.others, step))
  }

  /** Everything one call does: the attempts, why it stopped, and what it returns. */
  ghost predicate CallRun(pick: Picker, c: Course, maxAttempts: nat, result: CallResult)
  {
    var n := |c.attempts|;
    && n <= maxAttempts < |c.world|
    && Trace(pick, c)
    && (forall i :: 0 <= i < n - 1 ==> c.world[i].outcome == Throttled)
    && match result
       case NoLane => n == 0 && Stuck(pick, c.world, c.attempts, c.h0)
       case Answered(d) => n > 0 && c.attempts[n - 1] == d && c.world[n - 1].outcome == Success
       case Raised(d) => n > 0 && c.attempts[n - 1] == d && c.world[n - 1].outcome == OtherError
       case Exhausted(d) =>
         && n > 0 && c.attempts[n - 1] == d && c.world[n - 1].outcome == Throttled
         && (n < maxAttempts ==> Stuck(pick, c.world, c.attempts, LeftBy(c, n)))
  }

  /** The breaker state a call leaves behind: only throttled lanes were tripped, besides what other calls did. */
  ghost function HealthAfter(pick: Picker, c: Course, maxAttempts: nat, result: CallResult): Health
    requires CallRun(pick, c, maxAttempts, result)
  {
    var n := |c.attempts|;
    if result.Answered? || result.Raised? then c.seen[n - 1]
    else if n < maxAttempts then LeftBy(c, n) + c.world[n].others
    else LeftBy(c, n)
  }

  /** A call in progress: every attempt so far was throttled, and `health` is what the last trip left. */
  ghost predicate Failing(pick: Picker, c: Course, health: Health)
  {
    && Trace(pick, c)
    && (forall j :: 0 <= j < |c.attempts| ==> c.world[j].outcome == Throttled)
    && health == LeftBy(c, |c.attempts|)
  }

  /** Names that other calls tripped while this one was running. */
  ghost predicate TrippedByOthers(world: World, k: nat, name: string)
    requires k < |world|
  {
    exists i :: 0 <= i <= k && name in world[i].others
  }

  /**
   * Every trip made between the start of the call and selection k, by it or by another call, lasts until `until`
   * at least.
   */
  ghost predicate TripsLast(world: World, k: nat, cooldown: real, until: real)
    requires k < |world|
  {
    && (forall i :: 0 <= i < k ==> until <= world[i].failAt + cooldown)
    && (forall i, n :: 0 <= i <= k && n in world[i].others ==> until <= world[i].others[n])
  }

  /** A tried lane still has at least `until` as its deadline at selection k. */
  lemma {:induction false} TriedLanesCool(pick: Picker, c: Course, k: nat, until: real, i: nat)
    requires i < k <= |c.attempts| && k < |c.world|
    requires Trace(pick, c) && TripsLast(c.world, k, c.cooldown, until)
    ensures var h := LeftBy(c, k) + c.world[k].others;
            c.attempts[i].name in h && h[c.attempts[i].name] >= until
  {
    assert c.world[k - 1].failAt + c.cooldown >= until;
    if i < k - 1 {
      TriedLanesCool(pick, c, k - 1, until, i);
      assert SelectsAt(pick, c, k - 1);
    }
  }

  /** A lane nobody touched keeps its old deadline. */
  lemma {:induction false} UntouchedLanes(pick: Picker, c: Course, k: nat, name: string)
    requires Trace(pick, c)
    requires k <= |c.attempts| && k < |c.world|
    requires (forall j :: 0 <= j < k ==> c.attempts[j].name != name) && !TrippedByOthers(c.world, k, name)
    ensures var h := LeftBy(c, k) + c.world[k].others;
            (name in h <==> name in c.h0) && (name in h ==> h[name] == c.h0[name])
  {
    assert name !in c.world[k].others;
    if k > 0 {
      assert !TrippedByOthers(c.world, k - 1, name);
      UntouchedLanes(pick, c, k - 1, name);
      assert SelectsAt(pick, c, k - 1);
      assert c.attempts[k - 1].name != name;
    }
  }

  /** The lanes of a call are candidates with pairwise distinct names, and it finds no lane only without candidates. */
  lemma AttemptsAreCandidates(lanes: seq<Deployment>, kind: Kind, tier: string, c: Course, maxAttempts: nat,
                              result: CallResult)
    requires maxAttempts >= 1
    requires CallRun(PickerFor(lanes, kind, tier), c, maxAttempts, result)
    ensures |c.attempts| <= maxAttempts && DistinctNames(c.attempts)
    ensures forall d :: d in c.attempts ==> d in Candidates(lanes, kind, tier)
    ensures result == NoLane <==> Candidates(lanes, kind, tier) == []
  {
    forall i | 0 <= i < |c.attempts| ensures c.attempts[i] in Candidates(lanes, kind, tier) {
      assert SelectsAt(PickerFor(lanes, kind, tier), c, i);
      SelectIsHealthAware(lanes, c.seen[i], c.world[i].token, kind, tier, c.world[i].selectAt);
    }
    if c.attempts == [] {
      SelectIsHealthAware(lanes, c.h0 + c.world[0].others, c.world[0].token, kind, tier, c.world[0].selectAt);
    } else {
      assert c.attempts[0] in Candidates(lanes, kind, tier);
    }
  }

  /** A selection rule that never prefers a cooling lane to a healthy one, nor a later deadline to an earlier one. */
  ghost predicate PrefersHealthy(pick: Picker, eligible: seq<Deployment>) {
    forall h: Health, step: Step :: PrefersHealthyAt(Picked(pick, h, step), eligible, h, step.selectAt)
  }

  lemma SelectionPrefersHealthy(lanes: seq<Deployment>, kind: Kind, tier: string)
    ensures PrefersHealthy(PickerFor(lanes, kind, tier), Candidates(lanes, kind, tier))
  {
    forall h: Health, step: Step
      ensures PrefersHealthyAt(Picked(PickerFor(lanes, kind, tier), h, step), Candidates(lanes, kind, tier), h,
                               step.selectAt)
    {
      SelectIsHealthAware(lanes, h, step.token, kind, tier, step.selectAt);
    }
  }

  /** The argument of EarlyGiveUpTriedEveryLane, for any selection rule that prefers healthy lanes. */
  lemma EarlyGiveUpMissesNoLane(pick: Picker, eligible: seq<Deployment>, c: Course, maxAttempts: nat,
                                result: CallResult, until: real, lane: Deployment)
    requires PrefersHealthy(pick, eligible)
    requires CallRun(pick, c, maxAttempts, result)
    requires result.Exhausted? && |c.attempts| < maxAttempts
    requires TripsLast(c.world, |c.attempts|, c.cooldown, until) && c.world[|c.attempts|].selectAt < until
    requires lane in eligible && CoolingUntil(c.h0, lane) < until
    ensures Tried(c.attempts, lane.name) || TrippedByOthers(c.world, |c.attempts|, lane.name)
  {
    var k := |c.attempts|;
    var h := LeftBy(c, k) + c.world[k].others;
    assert PrefersHealthyAt(Picked(pick, h, c.world[k]), eligible, h, c.world[k].selectAt);
    var again := Picked(pick, h, c.world[k]).value;
    var i :| 0 <= i < k && c.attempts[i].name == again.name;
    TriedLanesCool(pick, c, k, until, i);
    if !Tried(c.attempts, lane.name) && !TrippedByOthers(c.world, k, lane.name) {
      UntouchedLanes(pick, c, k, lane.name);
      assert false;
    }
  }

  /**
   * A call that ends in a 429 or timeout before its attempts are used up has missed no lane, as long
   * as no trip made during the call has run out at its last selection. Every candidate whose deadline
   * at the start lies before the end of those trips (every lane healthy at the last selection, and
   * more) was tried or was tripped by another call meanwhile.
   */
  lemma EarlyGiveUpTriedEveryLane(lanes: seq<Deployment>, kind: Kind, tier: string, c: Course, maxAttempts: nat,
                                  result: CallResult, until: real)
    requires CallRun(PickerFor(lanes, kind, tier), c, maxAttempts, result)
    requires result.Exhausted? && |c.attempts| < maxAttempts
    requires TripsLast(c.world, |c.attempts|, c.cooldown, until) && c.world[|c.attempts|].selectAt < until
    ensures forall d :: d in Candidates(lanes, kind, tier) && CoolingUntil(c.h0, d) < until
              ==> Tried(c.attempts, d.name) || TrippedByOthers(c.world, |c.attempts|, d.name)
  {
    SelectionPrefersHealthy(lanes, kind, tier);
    forall d | d in Candidates(lanes, kind, tier) && CoolingUntil(c.h0, d) < until
      ensures Tried(c.attempts, d.name) || TrippedByOthers(c.world, |c.attempts|, d.name)
    {
      EarlyGiveUpMissesNoLane(PickerFor(lanes, kind, tier), Candidates(lanes, kind, tier), c, maxAttempts, result,
                              until, d);
    }
  }

  ghost predicate DeadlinesWithin(health: Health, latest: real) {
    forall n :: n in health ==> health[n] <= latest
  }

  /**
   * The pool keeps every deadline within one cooldown of the last time it looked at the clock, `from`.
   * A call it starts later whose trips all end after that tries every candidate before it gives up
   * early, also those that were cooling when it began.
   */
  lemma PoolCallTriesEveryLane(lanes: seq<Deployment>, kind: Kind, tier: string, c: Course, maxAttempts: nat,
                               result: CallResult, from: real, until: real)
    requires CallRun(PickerFor(lanes, kind, tier), c, maxAttempts, result)
    requires result.Exhausted? && |c.attempts| < maxAttempts
    requires c.cooldown >= 0.0 && from >= 0.0 && DeadlinesWithin(c.h0, from + c.cooldown)
    requires TripsLast(c.world, |c.attempts|, c.cooldown, until) && c.world[|c.attempts|].selectAt < until
             && from + c.cooldown < until
    ensures forall d :: d in Candidates(lanes, kind, tier)
              ==> Tried(c.attempts, d.name) || TrippedByOthers(c.world, |c.attempts|, d.name)
  {
    EarlyGiveUpTriedEveryLane(lanes, kind, tier, c, maxAttempts, result, until);
  }

  // ---------------------------------------------------------------------------
  // When a call running alone gives up although a healthy lane is left
  // ---------------------------------------------------------------------------

  ghost predicate Alone(world: World) {
    forall i :: 0 <= i < |world| ==> world[i].others == map[]
  }

  /** A lane that some token in [0, 1) draws from the healthy ones: it has weight, or none of them has. */
  predicate Drawable(healthy: seq<Deployment>, d: Deployment) {
    d in healthy && (d.weight > 0.0 || Total(healthy) == 0.0)
  }

  lemma Quotient(a: real, b: real)
    requires 0.0 <= a < b
    ensures 0.0 <= a / b < 1.0 && Scale(a / b, b) == a
  {
  }

  lemma WithinTotal(lanes: seq<Deployment>, i: nat)
    requires i < |lanes|
    ensures lanes[i].weight > 0.0 ==> Cumulative(lanes, i) < Cumulative(lanes, i + 1) <= Total(lanes)
  {
    CumulativeMonotone(lanes, i + 1, |lanes|);
  }

  lemma TokenDrawing(healthy: seq<Deployment>, d: Deployment) returns (token: real)
    requires Drawable(healthy, d)
    ensures 0.0 <= token < 1.0 && healthy[Pick(healthy, token)] == d
  {
    var i :| 0 <= i < |healthy| && healthy[i] == d;
    WithinTotal(healthy, i);
    if Total(healthy) == 0.0 {
      Quotient(i as real, |healthy| as real);
      token := i as real / |healthy| as real;
      ZeroWeightsPickEvenly(healthy, token, i);
    } else {
      Quotient(Cumulative(healthy, i), Total(healthy));
      token := Cumulative(healthy, i) / Total(healthy);
      PickPartitions(healthy, token, i);
    }
  }

  /** Tokens in [0, 1) draw exactly the drawable lanes. */
  lemma DrawnIffDrawable(healthy: seq<Deployment>, d: Deployment)
    requires healthy != []
    ensures (exists token :: 0.0 <= token < 1.0 && healthy[Pick(healthy, token)] == d) <==> Drawable(healthy, d)
  {
    if Drawable(healthy, d) {
      var token := TokenDrawing(healthy, d);
      assert healthy[Pick(healthy, token)] == d;
    }
    forall token | 0.0 <= token < 1.0 && healthy[Pick(healthy, token)] == d ensures Drawable(healthy, d) {
      if Total(healthy) > 0.0 {
        ZeroWeightPicked(healthy, token);
      }
    }
  }

  /** Alone, a tried lane's deadline is one cooldown past its own failure. */
  lemma {:induction false} OwnDeadline(pick: Picker, c: Course, k: nat, i: nat)
    requires i < k <= |c.attempts|
    requires Trace(pick, c) && Alone(c.world)
    ensures var h := LeftBy(c, k);
            c.attempts[i].name in h && h[c.attempts[i].name] == c.world[i].failAt + c.cooldown
  {
    if i < k - 1 {
      OwnDeadline(pick, c, k - 1, i);
      assert SelectsAt(pick, c, k - 1);
    }
  }

  function WithToken(world: World, k: nat, token: real): World
    requires k < |world|
  {
    world[k := world[k].(token := token)]
  }

  /** The same call with another token at its next selection. */
  function Redrawn(c: Course, token: real): Course
    requires |c.attempts| < |c.world|
  {
    c.(world := WithToken(c.world, |c.attempts|, token))
  }

  /** With this token at its next selection the call re-raises the last failure, attempts left over. */
  ghost predicate GivesUpWith(lanes: seq<Deployment>, kind: Kind, tier: string, c: Course, maxAttempts: nat,
                              token: real)
    requires |c.attempts| < |c.world|
  {
    && 0.0 <= token < 1.0 && 0 < |c.attempts| < maxAttempts
    && CallRun(PickerFor(lanes, kind, tier), Redrawn(c, token), maxAttempts, Exhausted(c.attempts[|c.attempts| - 1]))
  }

  /** A candidate the call has not tried is healthy at its next selection. */
  ghost predicate LaneLeft(eligible: seq<Deployment>, c: Course, now: real) {
    exists d :: d in eligible && !Tried(c.attempts, d.name) && CoolingUntil(c.h0, d) <= now
  }

  /** The lane tried at attempt i is out of its cooldown again and can be drawn. */
  ghost predicate BackInDraw(healthy: seq<Deployment>, c: Course, i: nat, now: real)
    requires i < |c.attempts| <= |c.world|
  {
    && c.world[i].failAt + c.cooldown <= now
    && exists d: Deployment :: d.name == c.attempts[i].name && Drawable(healthy, d)
  }

  /** The token of selection k has no part in the attempts before it. */
  lemma TraceWithToken(pick: Picker, c: Course, token: real)
    requires Trace(pick, c) && |c.attempts| < |c.world|
    ensures Trace(pick, Redrawn(c, token))
    ensures LeftBy(Redrawn(c, token), |c.attempts|) == LeftBy(c, |c.attempts|)
  {
    var c' := Redrawn(c, token);
    forall i | 0 <= i < |c.attempts| ensures SelectsAt(pick, c', i) {
      assert SelectsAt(pick, c, i);
      assert c'.world[i] == c.world[i] && (i > 0 ==> c'.world[i - 1] == c.world[i - 1]);
    }
  }

  /** A failing call that runs alone stops at its next selection exactly when it is stuck there. */
  lemma StopsIffStuck(pick: Picker, c: Course, maxAttempts: nat, health: Health)
    requires Failing(pick, c, health)
    requires 0 < |c.attempts| < maxAttempts < |c.world|
    ensures CallRun(pick, c, maxAttempts, Exhausted(c.attempts[|c.attempts| - 1]))
       <==> Stuck(pick, c.world, c.attempts, health)
  {
  }

  lemma RedrawnFails(pick: Picker, c: Course, token: real, health: Health)
    requires Failing(pick, c, health) && |c.attempts| < |c.world|
    ensures Failing(pick, Redrawn(c, token), health)
  {
    TraceWithToken(pick, c, token);
  }

  /** With another token, a call running alone is stuck exactly when the selection with that token makes it give up. */
  lemma RedrawnStuck(lanes: seq<Deployment>, kind: Kind, tier: string, c: Course, health: Health, token: real)
    requires Alone(c.world) && |c.attempts| < |c.world|
    ensures Stuck(PickerFor(lanes, kind, tier), Redrawn(c, token).world, c.attempts, health)
       <==> GivesUpOn(c.attempts, Select(lanes, health, token, kind, tier, c.world[|c.attempts|].selectAt))
  {
    assert health + Redrawn(c, token).world[|c.attempts|].others == health;
  }

  lemma GivesUpIffStuck(lanes: seq<Deployment>, kind: Kind, tier: string, c: Course, maxAttempts: nat, health: Health,
                        token: real)
    requires Failing(PickerFor(lanes, kind, tier), c, health) && Alone(c.world)
    requires 0 < |c.attempts| < maxAttempts < |c.world| && 0.0 <= token < 1.0
    ensures GivesUpWith(lanes, kind, tier, c, maxAttempts, token)
       <==> GivesUpOn(c.attempts, Select(lanes, health, token, kind, tier, c.world[|c.attempts|].selectAt))
  {
    RedrawnFails(PickerFor(lanes, kind, tier), c, token, health);
    StopsIffStuck(PickerFor(lanes, kind, tier), Redrawn(c, token), maxAttempts, health);
    RedrawnStuck(lanes, kind, tier, c, health, token);
  }

  /** With a healthy lane left, a token that makes the call give up draws a tried lane that has recovered. */
  lemma GivesUpOnRecovered(lanes: seq<Deployment>, kind: Kind, tier: string, c: Course, health: Health, now: real,
                           token: real) returns (i: nat)
    requires Failing(PickerFor(lanes, kind, tier), c, health) && Alone(c.world)
    requires Healthy(Candidates(lanes, kind, tier), health, now) != [] && 0.0 <= token < 1.0
    requires GivesUpOn(c.attempts, Select(lanes, health, token, kind, tier, now))
    ensures i < |c.attempts| && BackInDraw(Healthy(Candidates(lanes, kind, tier), health, now), c, i, now)
  {
    var healthy := Healthy(Candidates(lanes, kind, tier), health, now);
    var d := healthy[Pick(healthy, token)];
    assert healthy[0] in Candidates(lanes, kind, tier);
    assert Select(lanes, health, token, kind, tier, now) == Some(d);
    DrawnIffDrawable(healthy, d);
    i :| 0 <= i < |c.attempts| && c.attempts[i].name == d.name;
    OwnDeadline(PickerFor(lanes, kind, tier), c, |c.attempts|, i);
    assert d in healthy;
  }

  /** A tried lane back in the draw is drawn by some token, and the call gives up on it. */
  lemma RecoveredGivesUp(lanes: seq<Deployment>, kind: Kind, tier: string, c: Course, health: Health, now: real, i: nat)
    returns (token: real)
    requires i < |c.attempts| <= |c.world|
    requires BackInDraw(Healthy(Candidates(lanes, kind, tier), health, now), c, i, now)
    ensures 0.0 <= token < 1.0 && GivesUpOn(c.attempts, Select(lanes, health, token, kind, tier, now))
  {
    var healthy := Healthy(Candidates(lanes, kind, tier), health, now);
    var d: Deployment :| d.name == c.attempts[i].name && Drawable(healthy, d);
    token := TokenDrawing(healthy, d);
    assert d in Candidates(lanes, kind, tier);
  }

  /** A lane left is healthy in the map the next selection reads. */
  lemma LaneLeftIsHealthy(pick: Picker, eligible: seq<Deployment>, c: Course, health: Health, now: real)
    requires Failing(pick, c, health) && Alone(c.world) && |c.attempts| < |c.world|
    requires LaneLeft(eligible, c, now)
    ensures Healthy(eligible, health, now) != []
  {
    var left :| left in eligible && !Tried(c.attempts, left.name) && CoolingUntil(c.h0, left) <= now;
    UntouchedLanes(pick, c, |c.attempts|, left.name);
    assert health + c.world[|c.attempts|].others == health;
    assert left in Healthy(eligible, health, now);
  }

  /**
   * The exact condition under which a call running alone breaks the promise of the next lane: while a
   * healthy lane is left, some token makes it give up exactly when a lane it tried before has come out
   * of its cooldown and can be drawn again.
   */
  lemma GivesUpOnHealthyLaneIff(lanes: seq<Deployment>, kind: Kind, tier: string, c: Course, maxAttempts: nat,
                                health: Health, eligible: seq<Deployment>, now: real)
    requires Failing(PickerFor(lanes, kind, tier), c, health) && Alone(c.world)
    requires 0 < |c.attempts| < maxAttempts < |c.world|
    requires eligible == Candidates(lanes, kind, tier) && now == c.world[|c.attempts|].selectAt
    requires LaneLeft(eligible, c, now)
    ensures (exists token :: GivesUpWith(lanes, kind, tier, c, maxAttempts, token))
       <==> exists i :: 0 <= i < |c.attempts| && BackInDraw(Healthy(eligible, health, now), c, i, now)
  {
    LaneLeftIsHealthy(PickerFor(lanes, kind, tier), eligible, c, health, now);
    forall token | GivesUpWith(lanes, kind, tier, c, maxAttempts, token)
      ensures exists i :: 0 <= i < |c.attempts| && BackInDraw(Healthy(eligible, health, now), c, i, now)
    {
      GivesUpIffStuck(lanes, kind, tier, c, maxAttempts, health, token);
      var i := GivesUpOnRecovered(lanes, kind, tier, c, health, now, token);
    }
    forall i | 0 <= i < |c.attempts| && BackInDraw(Healthy(eligible, health, now), c, i, now)
      ensures exists token :: GivesUpWith(lanes, kind, tier, c, maxAttempts, token)
    {
      var token := RecoveredGivesUp(lanes, kind, tier, c, health, now, i);
      GivesUpIffStuck(lanes, kind, tier, c, maxAttempts, health, token);
    }
  }

  /** When every candidate has weight, any recovered lane will do: the condition is one on the clock alone. */
  lemma GivesUpOnHealthyLaneIffRecovered(lanes: seq<Deployment>, kind: Kind, tier: string, c: Course,
                                         maxAttempts: nat, health: Health)
    requires Failing(PickerFor(lanes, kind, tier), c, health) && Alone(c.world)
    requires 0 < |c.attempts| < maxAttempts < |c.world|
    requires forall d :: d in Candidates(lanes, kind, tier) ==> d.weight > 0.0
    requires LaneLeft(Candidates(lanes, kind, tier), c, c.world[|c.attempts|].selectAt)
    ensures (exists token :: GivesUpWith(lanes, kind, tier, c, maxAttempts, token))
       <==> exists i :: 0 <= i < |c.attempts| && c.world[i].failAt + c.cooldown <= c.world[|c.attempts|].selectAt
  {
    var pick, eligible := PickerFor(lanes, kind, tier), Candidates(lanes, kind, tier);
    var now := c.world[|c.attempts|].selectAt;
    var healthy := Healthy(eligible, health, now);
    GivesUpOnHealthyLaneIff(lanes, kind, tier, c, maxAttempts, health, eligible, now);
    forall i | 0 <= i < |c.attempts|
      ensures BackInDraw(healthy, c, i, now) <==> c.world[i].failAt + c.cooldown <= now
    {
      assert SelectsAt(pick, c, i);
      SelectIsHealthAware(lanes, c.seen[i], c.world[i].token, kind, tier, c.world[i].selectAt);
      OwnDeadline(pick, c, |c.attempts|, i);
      if c.world[i].failAt + c.cooldown <= now {
        assert Drawable(healthy, c.attempts[i]);
      }
    }
  }

  /**
   * It happens with the default timings: two 30-second timeouts, a 20-second cooldown, four attempts
   * and three equal healthy lanes. The first lane is back at 50, is drawn again at 60, and the
   * call gives up without trying the third.
   */
  lemma SlowTimeoutsMissLane(lanes: seq<Deployment>, c: Course)
    requires lanes == [Lane("a"), Lane("b"), Lane("c")] && SlowTimeouts(c, lanes)
    ensures CallRun(PickerFor(lanes, Chat, "standard"), c, 4, Exhausted(lanes[1]))
    ensures LaneLeft(Candidates(lanes, Chat, "standard"), c, c.world[2].selectAt)
  {
    var left: Health := map["a" := 50.0, "b" := 80.0];
    SlowTimeoutsFailing(lanes, c);
    assert left + c.world[2].others == left;
    assert Healthy(lanes, left, 60.0)[0] == lanes[0];
    FirstHealthyPicked(lanes, left, 60.0, lanes[0]);
    assert c.attempts[0].name == lanes[0].name;
    assert Picked(PickerFor(lanes, Chat, "standard"), left, c.world[2]) == Some(lanes[0]);
    StopsIffStuck(PickerFor(lanes, Chat, "standard"), c, 4, left);
    assert lanes[2] in lanes && lanes[2].name != lanes[0].name && lanes[2].name != lanes[1].name;
    assert !Tried(c.attempts, lanes[2].name);
  }

  /** Selected with token zero, timed out after 30 seconds, nothing else going on. */
  function SlowTimeout(at: real): Step {
    Step(map[], at, 0.0, Throttled, at + 30.0)
  }

  ghost predicate SlowTimeouts(c: Course, lanes: seq<Deployment>) {
    && |lanes| >= 2 && c.h0 == map[] && c.cooldown == 20.0
    && c.world == [SlowTimeout(0.0), SlowTimeout(30.0), SlowTimeout(60.0), SlowTimeout(90.0), SlowTimeout(120.0)]
    && c.attempts == lanes[..2] && c.seen == [map[], map["a" := 50.0]]
  }

  lemma SlowTimeoutsFailing(lanes: seq<Deployment>, c: Course)
    requires lanes == [Lane("a"), Lane("b"), Lane("c")] && SlowTimeouts(c, lanes)
    ensures Failing(PickerFor(lanes, Chat, "standard"), c, map["a" := 50.0, "b" := 80.0])
  {
    var pick := PickerFor(lanes, Chat, "standard");
    assert lanes[0].name != lanes[1].name;
    assert Healthy(lanes, c.h0, 0.0)[0] == lanes[0];
    FirstHealthyPicked(lanes, c.h0, 0.0, lanes[0]);
    assert SelectsAt(pick, c, 0);
    assert Healthy(lanes, map["a" := 50.0], 30.0) == [lanes[1], lanes[2]];
    FirstHealthyPicked(lanes, map["a" := 50.0], 30.0, lanes[1]);
    assert SelectsAt(pick, c, 1);
  }

  function Lane(name: string): Deployment {
    Deployment(name, Chat, name, 1.0, false)
  }

  /** Token zero draws the first healthy lane that has weight. */
  lemma FirstHealthyPicked(lanes: seq<Deployment>, health: Health, now: real, d: Deployment)
    requires lanes == [Lane("a"), Lane("b"), Lane("c")]
    requires Healthy(lanes, health, now) != [] && Healthy(lanes, health, now)[0] == d
    ensures Candidates(lanes, Chat, "standard") == lanes
    ensures Select(lanes, health, 0.0, Chat, "standard", now) == Some(d)
  {
    var healthy := Healthy(lanes, health, now);
    assert d in healthy && d in lanes && d.weight == 1.0;
    CumulativeMonotone(healthy, 1, |healthy|);
    assert Cumulative(healthy, 1) == Cumulative(healthy, 0) + healthy[0].weight;
    PickPartitions(healthy, 0.0, 0);
  }

  // ---------------------------------------------------------------------------
  // The loop
  // ---------------------------------------------------------------------------

  /** The set `tried` that the loop keeps. */
  ghost function Names(attempts: seq<Deployment>): set<string> {
    if attempts == [] then {}
    else Names(attempts[..|attempts| - 1]) + {attempts[|attempts| - 1].name}
  }

  lemma {:induction false} TriedIsName(attempts: seq<Deployment>, name: string)
    ensures name in Names(attempts) <==> Tried(attempts, name)
  {
    if attempts != [] {
      var rest := attempts[..|attempts| - 1];
      TriedIsName(rest, name);
      if Tried(rest, name) {
        var i :| 0 <= i < |rest| && rest[i].name == name;
        assert attempts[i].name == name;
      }
    }
  }

  lemma NamesGrow(attempts: seq<Deployment>, d: Deployment)
    ensures Names(attempts + [d]) == Names(attempts) + {d.name}
  {
  }

  lemma NamesStayDistinct(attempts: seq<Deployment>, d: Deployment)
    requires DistinctNames(attempts) && !Tried(attempts, d.name)
    ensures DistinctNames(attempts + [d])
  {
  }

  function WithAttempt(c: Course, d: Deployment, read: Health): Course {
    c.(attempts := c.attempts + [d], seen := c.seen + [read])
  }

  /** Calling one more lane extends the trace. */
  lemma TraceExtends(pick: Picker, c: Course, health: Health, d: Deployment)
    requires Trace(pick, c) && |c.attempts| < |c.world|
    requires health == LeftBy(c, |c.attempts|) + c.world[|c.attempts|].others
    requires Picked(pick, health, c.world[|c.attempts|]) == Some(d) && !Tried(c.attempts, d.name)
    ensures Trace(pick, WithAttempt(c, d, health))
  {
    NamesStayDistinct(c.attempts, d);
    var c' := WithAttempt(c, d, health);
    forall i | 0 <= i < |c'.attempts| ensures SelectsAt(pick, c', i) {
      assert LeftBy(c', i) == LeftBy(c, i);
      if i < |c.attempts| {
        assert SelectsAt(pick, c, i);
      }
    }
  }

  /** A call in progress goes on after a throttled attempt; `read` is what the selection read. */
  lemma ThrottledGoesOn(pick: Picker, c: Course, before: Health, read: Health, d: Deployment, deadline: real)
    requires Failing(pick, c, before) && |c.attempts| < |c.world|
    requires var step := c.world[|c.attempts|];
             && read == before + step.others && Picked(pick, read, step) == Some(d) && step.outcome == Throttled
             && deadline == step.failAt + c.cooldown
    requires !Tried(c.attempts, d.name)
    ensures Failing(pick, WithAttempt(c, d, read), read[d.name := deadline])
  {
    TraceExtends(pick, c, read, d);
  }

  /** A call in progress ends with its first attempt that is not throttled. */
  lemma AnswerEnds(pick: Picker, c: Course, maxAttempts: nat, before: Health, read: Health, d: Deployment)
    requires Failing(pick, c, before) && |c.attempts| < maxAttempts < |c.world|
    requires var step := c.world[|c.attempts|];
             read == before + step.others && Picked(pick, read, step) == Some(d) && step.outcome != Throttled
    requires !Tried(c.attempts, d.name)
    ensures CallRun(pick, WithAttempt(c, d, read), maxAttempts,
                    if c.world[|c.attempts|].outcome == Success then Answered(d) else Raised(d))
    ensures HealthAfter(pick, WithAttempt(c, d, read), maxAttempts,
                        if c.world[|c.attempts|].outcome == Success then Answered(d) else Raised(d)) == read
  {
    TraceExtends(pick, c, read, d);
  }

  /** A call in progress that finds no new lane, or has used up its attempts, ends here. */
  lemma AttemptsEnd(pick: Picker, c: Course, maxAttempts: nat, before: Health)
    requires Failing(pick, c, before) && |c.attempts| <= maxAttempts < |c.world| && maxAttempts >= 1
    requires |c.attempts| < maxAttempts ==> Stuck(pick, c.world, c.attempts, before)
    ensures CallRun(pick, c, maxAttempts,
                    if c.attempts == [] then NoLane else Exhausted(c.attempts[|c.attempts| - 1]))
    ensures HealthAfter(pick, c, maxAttempts,
                        if c.attempts == [] then NoLane else Exhausted(c.attempts[|c.attempts| - 1]))
         == if |c.attempts| < maxAttempts then before + c.world[|c.attempts|].others else before
  {
  }

  /** The loop's own variables after i throttled attempts: the names tried and the lane tried last. */
  ghost predicate Underway(pick: Picker, c: Course, i: nat, tried: set<string>, last: Option<Deployment>,
                           health: Health) {
    && |c.attempts| == i && Failing(pick, c, health)
    && tried == Names(c.attempts)
    && last == if i == 0 then None else Some(c.attempts[i - 1])
  }

  lemma UnderwayNext(pick: Picker, c: Course, i: nat, tried: set<string>, last: Option<Deployment>, before: Health,
                     read: Health, d: Deployment, deadline: real)
    requires Underway(pick, c, i, tried, last, before) && i < |c.world|
    requires var step := c.world[i];
             && read == before + step.others && Picked(pick, read, step) == Some(d) && step.outcome == Throttled
             && deadline == step.failAt + c.cooldown
    requires d.name !in tried
    ensures Underway(pick, WithAttempt(c, d, read), i + 1, tried + {d.name}, Some(d), read[d.name := deadline])
  {
    TriedIsName(c.attempts, d.name);
    ThrottledGoesOn(pick, c, before, read, d, deadline);
    NamesGrow(c.attempts, d);
  }

  /** The call ends when it is given no new lane, or has used up its attempts. */
  lemma UnderwayEnds(pick: Picker, c: Course, i: nat, tried: set<string>, last: Option<Deployment>, before: Health,
                     maxAttempts: nat, result: CallResult)
    requires Underway(pick, c, i, tried, last, before) && i <= maxAttempts < |c.world| && maxAttempts >= 1
    requires i < maxAttempts ==>
               var d := Picked(pick, before + c.world[i].others, c.world[i]); d == None || d.value.name in tried
    requires result == if last == None then NoLane else Exhausted(last.value)
    ensures CallRun(pick, c, maxAttempts, result)
    ensures HealthAfter(pick, c, maxAttempts, result) == if i < maxAttempts then before + c.world[i].others else before
  {
    if i < maxAttempts {
      var d := Picked(pick, before + c.world[i].others, c.world[i]);
      if d.Some? {
        TriedIsName(c.attempts, d.value.name);
      }
    }
    AttemptsEnd(pick, c, maxAttempts, before);
  }

  lemma UnderwayAnswered(pick: Picker, c: Course, i: nat, tried: set<string>, last: Option<Deployment>, before: Health,
                         maxAttempts: nat, read: Health, d: Deployment, result: CallResult)
    requires Underway(pick, c, i, tried, last, before) && i < maxAttempts < |c.world|
    requires var step := c.world[i];
             && read == before + step.others && Picked(pick, read, step) == Some(d) && step.outcome != Throttled
             && result == if step.outcome == Success then Answered(d) else Raised(d)
    requires d.name !in tried
    ensures CallRun(pick, WithAttempt(c, d, read), maxAttempts, result)
    ensures HealthAfter(pick, WithAttempt(c, d, read), maxAttempts, result) == read
  {
    TriedIsName(c.attempts, d.name);
    AnswerEnds(pick, c, maxAttempts, before, read, d);
  }

  /** Only throttled attempts go on, and the outcome of the last attempt is the outcome of the call. */
  lemma CallOutcome(pick: Picker, c: Course, maxAttempts: nat, result: CallResult)
    requires CallRun(pick, c, maxAttempts, result)
    ensures |c.attempts| <= maxAttempts < |c.world|
    ensures forall i :: 0 <= i < |c.attempts| - 1 ==> c.world[i].outcome == Throttled
    ensures result ==
            if c.attempts == [] then NoLane
            else
              var last, outcome := c.attempts[|c.attempts| - 1], c.world[|c.attempts| - 1].outcome;
              match outcome
              case Success => Answered(last)
              case OtherError => Raised(last)
              case Throttled => Exhausted(last)
  {
  }

  /**
   * A call running alone leaves the lanes it was throttled on cooling from their failure, and all others as they
   * were.
   */
  lemma HealthLeft(pick: Picker, c: Course, maxAttempts: nat, result: CallResult, name: string)
    requires CallRun(pick, c, maxAttempts, result) && Alone(c.world)
    ensures var after := HealthAfter(pick, c, maxAttempts, result);
            && (forall i :: 0 <= i < |c.attempts| && c.world[i].outcome == Throttled && c.attempts[i].name == name ==>
                  name in after && after[name] == c.world[i].failAt + c.cooldown)
            && ((forall i ::
                   0 <= i < |c.attempts| && c.world[i].outcome == Throttled ==> c.attempts[i].name != name) ==>
                  (name in after <==> name in c.h0) && (name in after ==> after[name] == c.h0[name]))
  {
    var n := |c.attempts|;
    var k := if result.Answered? || result.Raised? then n - 1 else n;
    if k < n {
      assert SelectsAt(pick, c, k);
    }
    assert HealthAfter(pick, c, maxAttempts, result) == LeftBy(c, k);
    assert LeftBy(c, k) + c.world[k].others == LeftBy(c, k);
    if i :| 0 <= i < k && c.attempts[i].name == name {
      OwnDeadline(pick, c, k, i);
    } else {
      UntouchedLanes(pick, c, k, name);
    }
  }

  /** Selection i happens after `from`, its failure later still, and trips by others lie in the past. */
  ghost predicate TicksAt(world: World, from: real, i: nat, cooldown: real)
    requires i < |world|
  {
    && (if i == 0 then from else world[i - 1].failAt) <= world[i].selectAt <= world[i].failAt
    && forall n :: n in world[i].others ==> world[i].others[n] <= world[i].selectAt + cooldown
  }

  class ModelPool {
    const lanes: seq<Deployment>
    const cooldown: real
    const maxAttempts: nat
    var health: Health
    ghost var clock: real

    /** No deadline is more than one cooldown past the last time the pool looked at the clock. */
    ghost predicate Valid()
      reads this
    {
      cooldown >= 0.0 && maxAttempts >= 1 && clock >= 0.0 && DeadlinesWithin(health, clock + cooldown)
    }

    constructor (lanes: seq<Deployment>, cooldownSeconds: real, maxFailoverAttempts: int)
      ensures Valid() && this.lanes == lanes && health == map[]
      ensures cooldown == (if cooldownSeconds < 0.0 then 0.0 else cooldownSeconds)
      ensures maxAttempts == Max(1, maxFailoverAttempts)
    {
      this.lanes := lanes;
      cooldown := if cooldownSeconds < 0.0 then 0.0 else cooldownSeconds;
      maxAttempts := Max(1, maxFailoverAttempts);
      health := map[];
      clock := 0.0;
    }

    method Trip(d: Deployment, now: real) returns (deadline: real)
      requires Valid() && clock <= now
      modifies this
      ensures Valid() && clock == now && deadline == now + cooldown
      ensures health == old(health)[d.name := deadline]
    {
      deadline := now + cooldown;
      health := health[d.name := deadline];
      clock := now;
    }

    /** What the next selection sees: the trips other calls made meanwhile, then the lane picked. */
    method Next(kind: Kind, tier: string, step: Step) returns (d: Option<Deployment>)
      requires Valid() && clock <= step.selectAt
      requires forall n :: n in step.others ==> step.others[n] <= step.selectAt + cooldown
      modifies this
      ensures Valid() && clock == step.selectAt && health == old(health) + step.others
      ensures d == Picked(PickerFor(lanes, kind, tier), health, step)
    {
      health := health + step.others;
      clock := step.selectAt;
      d := SelectDeployment(lanes, health, step.token, kind, tier, step.selectAt);
    }

    method Call(kind: Kind, tier: string, world: World) returns (result: CallResult, ghost c: Course)
      requires Valid() && |world| == maxAttempts + 1
      requires forall i :: 0 <= i <= maxAttempts ==> TicksAt(world, clock, i, cooldown)
      modifies this
      ensures Valid()
      ensures c.h0 == old(health) && c.cooldown == cooldown && c.world == world
      ensures CallRun(PickerFor(lanes, kind, tier), c, maxAttempts, result)
      ensures health == HealthAfter(PickerFor(lanes, kind, tier), c, maxAttempts, result)
    {
      var tried: set<string>, last: Option<Deployment> := {}, None;
      ghost var pick := PickerFor(lanes, kind, tier);
      c := Course(health, cooldown, world, [], []);
      for i := 0 to maxAttempts
        invariant Valid() && Underway(pick, c, i, tried, last, health)
        invariant c.h0 == old(health) && c.cooldown == cooldown && c.world == world
        invariant clock == if i == 0 then old(clock) else world[i - 1].failAt
      {
        assert TicksAt(world, old(clock), i, cooldown);
        ghost var before := health;
        var d := Next(kind, tier, world[i]);
        if d == None || d.value.name in tried {
          result := if last == None then NoLane else Exhausted(last.value);
          UnderwayEnds(pick, c, i, tried, last, before, maxAttempts, result);
          return;
        }
        var lane, outcome, failAt := d.value, world[i].outcome, world[i].failAt;
        ghost var read := health;
        if outcome != Throttled {
          result := if outcome == Success then Answered(lane) else Raised(lane);
          UnderwayAnswered(pick, c, i, tried, last, before, maxAttempts, read, lane, result);
          c := WithAttempt(c, lane, read);
          return;
        }
        var deadline := Trip(lane, failAt);
        UnderwayNext(pick, c, i, tried, last, before, read, lane, deadline);
        tried, last, c := tried + {lane.name}, Some(lane), WithAttempt(c, lane, read);
      }
      result := Exhausted(last.value);
      UnderwayEnds(pick, c, maxAttempts, tried, last, health, maxAttempts, result);
    }
  }
}
