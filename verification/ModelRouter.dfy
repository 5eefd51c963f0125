/**
 * Model of server/pdf_chat/model_router.py: the per-tenant escalation budget, which reads the
 * counter and reserves in two separate steps, and the choice of model behind it.
 */
module ModelRouter {
  import opened Common

  // ---------------------------------------------------------------------------
  // Signals, cap and choice
  // ---------------------------------------------------------------------------

  datatype Signals = Signals(confidence: Option<real>, figureRatio: Option<real>, crossDomain: bool, definitional: bool)

  /** Per-tenant tunables; `window` is the page window when one is configured. */
  datatype Tunables = Tunables(confidenceFloor: real, figureRatio: real, budgetFraction: real, window: Option<real>,
                               bulkId: string, strongId: string, queryTimeStrongId: Option<string>)

  predicate SignalsFire(t: Tunables, s: Signals) {
    || (s.confidence.Some? && s.confidence.value < t.confidenceFloor)
    || (s.figureRatio.Some? && s.figureRatio.value > t.figureRatio)
    || s.crossDomain || s.definitional
  }

  /** Python's int() on a float: truncation toward zero. */
  function Truncate(x: real): int {
    if x >= 0.0 then x.Floor else -((-x).Floor)
  }

  function Cap(t: Tunables, total: int): (cap: int)
    ensures cap >= 1
  {
    var window := if t.window.Some? then t.window.value else Max(total, 1) as real;
    Max(1, Truncate(t.budgetFraction * window))
  }

  datatype Task = Extraction | Synthesis | QuerySynthesis | QueryPlanning

  datatype ModelChoice = ModelChoice(provider: string, modelId: string, isStrong: bool)

  function ProviderOf(modelId: string): string {
    if "claude" <= modelId then "anthropic" else "azure"
  }

  function Choose(task: Task, t: Tunables, escalate: bool): ModelChoice {
    if !escalate then ModelChoice(ProviderOf(t.bulkId), t.bulkId, false)
    else
      var id := if task.Extraction? || task.Synthesis? || t.queryTimeStrongId == None then t.strongId
                else t.queryTimeStrongId.value;
      ModelChoice(ProviderOf(id), id, true)
  }

  function ChooseWith(task: Task, t: Tunables, queryTimeId: Option<string>, escalate: bool): ModelChoice {
    Choose(task, t.(queryTimeStrongId := queryTimeId), escalate)
  }

  /**
   * A signal fires below the confidence floor, above the figure ratio, or on either flag; a missing value fires
   * nothing.
   */
  lemma SignalsFireIff(t: Tunables, s: Signals)
    ensures SignalsFire(t, s)
       <==> || (exists c :: s.confidence == Some(c) && c < t.confidenceFloor)
            || (exists r :: s.figureRatio == Some(r) && r > t.figureRatio)
            || s.crossDomain || s.definitional
  {
  }

  /** The cap is the budget rounded toward zero, but never below one. */
  lemma CapIs(t: Tunables, total: int, budget: real)
    requires budget
          == t.budgetFraction * if t.window.Some? then t.window.value else (if total > 1 then total as real else 1.0)
    ensures budget >= 1.0 ==> Cap(t, total) as real <= budget < Cap(t, total) as real + 1.0
    ensures budget < 1.0 ==> Cap(t, total) == 1
  {
  }

  /**
   * A call that is not escalated gets the bulk model. One that is gets the strong model, unless it is a
   * query-time task for which a query-time strong model is configured. Claude models are Anthropic's.
   */
  lemma ChosenModel(task: Task, t: Tunables)
    ensures Choose(task, t, false) == ModelChoice(ProviderOf(t.bulkId), t.bulkId, false)
    ensures task == Extraction || task == Synthesis || t.queryTimeStrongId == None ==>
              Choose(task, t, true) == ModelChoice(ProviderOf(t.strongId), t.strongId, true)
    ensures (task == QuerySynthesis || task == QueryPlanning) && t.queryTimeStrongId.Some? ==>
              Choose(task, t, true)
              == ModelChoice(ProviderOf(t.queryTimeStrongId.value), t.queryTimeStrongId.value, true)
  {
  }

  lemma ProviderIs(modelId: string)
    ensures ProviderOf(modelId) == if |modelId| >= 6 && modelId[..6] == "claude" then "anthropic" else "azure"
  {
  }

  /** The query-time strong id has no influence exactly on ingestion tasks and on calls that do not escalate. */
  lemma QueryTimeModelReachesOnlyQueries(task: Task, t: Tunables, escalate: bool)
    ensures (forall a, b :: ChooseWith(task, t, a, escalate) == ChooseWith(task, t, b, escalate))
       <==> task.Extraction? || task.Synthesis? || !escalate
  {
    if !(task.Extraction? || task.Synthesis? || !escalate) {
      assert |ChooseWith(task, t, Some("x"), escalate).modelId| != |ChooseWith(task, t, Some("yy"), escalate).modelId|;
    }
  }

  // ---------------------------------------------------------------------------
  // Workers that interleave the read and the reserve
  // ---------------------------------------------------------------------------

  type Tenant = string

  const USED_PREFIX := "pdf:escbudget:"
  const TOTAL_MARK := "total:"

  /** The key of a tenant's escalation counter. */
  function UsedKey(t: Tenant): string {
    USED_PREFIX + t
  }

  /** The key of a tenant's page count. */
  function TotalKey(t: Tenant): string {
    USED_PREFIX + TOTAL_MARK + t
  }

  /**
   * Two tenants never share a counter, nor a page count; but the counter of the tenant called
   * "total:" + b is the page count of tenant b.
   */
  lemma KeysApart(a: Tenant, b: Tenant)
    ensures UsedKey(a) == UsedKey(b) <==> a == b
    ensures TotalKey(a) == TotalKey(b) <==> a == b
    ensures UsedKey(a) == TotalKey(b) <==> a == TOTAL_MARK + b
  {
    assert UsedKey(a)[|USED_PREFIX|..] == a && UsedKey(b)[|USED_PREFIX|..] == b;
    assert TotalKey(a) == UsedKey(TOTAL_MARK + a) && TotalKey(b) == UsedKey(TOTAL_MARK + b);
    assert TotalKey(b)[|USED_PREFIX|..] == TOTAL_MARK + b;
    assert (TOTAL_MARK + a)[|TOTAL_MARK|..] == a && (TOTAL_MARK + b)[|TOTAL_MARK|..] == b;
    assert TotalKey(a)[|USED_PREFIX|..] == TOTAL_MARK + a;
  }

  /** Between the read of `used` and the increment a worker is about to reserve. */
  datatype Worker = Idle | AboutToReserve(tenant: Tenant)

  /** `data` are the stored integers by key; `granted` counts the calls that returned true. */
  datatype State = State(data: map<string, int>, workers: seq<Worker>, granted: map<Tenant, int>)

  datatype Step =
    | Read(worker: nat, tenant: Tenant, cap: int)   // decides on the cap that the same call computes
    | Reserve(worker: nat)

  function Count(m: map<string, int>, key: string): int {
    if key in m then m[key] else 0
  }

  function Used(data: map<string, int>, t: Tenant): int {
    Count(data, UsedKey(t))
  }

  function TotalPages(data: map<string, int>, t: Tenant): int {
    Count(data, TotalKey(t))
  }

  /** INCR on the tenant's counter. */
  function Reserved(data: map<string, int>, t: Tenant): map<string, int> {
    data[UsedKey(t) := Used(data, t) + 1]
  }

  /**
   * A reservation counts for its own tenant alone, except that it also counts as a page of the tenant it is
   * named after.
   */
  lemma ReservedChanges(data: map<string, int>, t: Tenant, u: Tenant)
    ensures Used(Reserved(data, t), u) == Used(data, u) + if u == t then 1 else 0
    ensures TotalPages(Reserved(data, t), u) == TotalPages(data, u) + if t == TOTAL_MARK + u then 1 else 0
  {
    KeysApart(t, u);
  }

  function Apply(s: State, step: Step): State {
    match step
    case Read(w, t, cap) =>
      if w < |s.workers| && s.workers[w].Idle? && Used(s.data, t) < cap
      then s.(workers := s.workers[w := AboutToReserve(t)]) else s
    case Reserve(w) =>
      if w < |s.workers| && s.workers[w].AboutToReserve? then
        var t := s.workers[w].tenant;
        State(Reserved(s.data, t), s.workers[w := Idle], s.granted[t := Count(s.granted, t) + 1])
      else s
  }

  function Run(s: State, steps: seq<Step>): State {
    if steps == [] then s else Apply(Run(s, steps[..|steps| - 1]), steps[|steps| - 1])
  }

  ghost predicate AllIdle(s: State) {
    forall w :: 0 <= w < |s.workers| ==> s.workers[w].Idle?
  }

  ghost function Pending(s: State, t: Tenant): set<nat> {
    set w: nat | w < |s.workers| && s.workers[w] == AboutToReserve(t)
  }

  /** Every cap a worker computes for the tenant is at most `cap`. */
  ghost predicate CapsAtMost(steps: seq<Step>, t: Tenant, cap: int) {
    forall i :: 0 <= i < |steps| && steps[i].Read? && steps[i].tenant == t ==> steps[i].cap <= cap
  }

  lemma PendingBounded(s: State, t: Tenant)
    ensures |Pending(s, t)| <= |s.workers|
  {
    var ids := seq(|s.workers|, i => i);
    assert forall w :: w in Pending(s, t) ==> w < |s.workers| && ids[w] == w;
    SubsetCardinality(Pending(s, t), Elements(ids));
    DistinctCardinality(ids);
  }

  lemma StepBound(s: State, step: Step, t: Tenant, cap: int, limit: int)
    requires step.Read? && step.tenant == t ==> step.cap <= cap
    requires cap - 1 + |s.workers| <= limit
    requires Used(s.data, t) + |Pending(s, t)| <= limit
    ensures Used(Apply(s, step).data, t) + |Pending(Apply(s, step), t)| <= limit
    ensures |Apply(s, step).workers| == |s.workers|
    ensures Used(Apply(s, step).data, t) - Used(s.data, t) == Count(Apply(s, step).granted, t) - Count(s.granted, t)
  {
    var s' := Apply(s, step);
    var w := step.worker;
    if w < |s.workers| && s.workers[w].AboutToReserve? {
      ReservedChanges(s.data, s.workers[w].tenant, t);
    }
    if s' != s {
      if step.Read? {
        if step.tenant == t {
          PendingBounded(s', t);
        } else {
          assert Pending(s', t) == Pending(s, t);
        }
      } else if s.workers[w].tenant == t {
        assert Pending(s', t) == Pending(s, t) - {w};
      } else {
        assert Pending(s', t) == Pending(s, t);
      }
    }
  }

  /**
   * k workers, each idle at first, never push a tenant's counter above cap + k - 1 (or above where it
   * started, if that was higher). With one worker the limit is the cap itself. Every increment is a grant.
   */
  lemma {:induction false} OvershootBound(s: State, steps: seq<Step>, t: Tenant, cap: int)
    requires AllIdle(s) && CapsAtMost(steps, t, cap)
    ensures var r := Run(s, steps);
            && Used(r.data, t) <= Max(Used(s.data, t), cap - 1 + |s.workers|)
            && Used(r.data, t) - Used(s.data, t) == Count(r.granted, t) - Count(s.granted, t)
  {
    OvershootInvariant(s, steps, t, cap);
  }

  lemma {:induction false} OvershootInvariant(s: State, steps: seq<Step>, t: Tenant, cap: int)
    requires AllIdle(s) && CapsAtMost(steps, t, cap)
    ensures var r := Run(s, steps);
            && |r.workers| == |s.workers|
            && Used(r.data, t) + |Pending(r, t)| <= Max(Used(s.data, t), cap - 1 + |s.workers|)
            && Used(r.data, t) - Used(s.data, t) == Count(r.granted, t) - Count(s.granted, t)
  {
    if steps == [] {
      assert Pending(s, t) == {};
    } else {
      var init := steps[..|steps| - 1];
      assert forall i :: 0 <= i < |init| ==> init[i] == steps[i];
      OvershootInvariant(s, init, t, cap);
      var r := Run(s, init);
      StepBound(r, steps[|steps| - 1], t, cap, Max(Used(s.data, t), cap - 1 + |s.workers|));
    }
  }

  /** Steps taken for other tenants leave a tenant's counter alone, whatever the tenants are called. */
  lemma {:induction false} OtherTenantsUntouched(s: State, steps: seq<Step>, t: Tenant)
    requires AllIdle(s) && forall i :: 0 <= i < |steps| && steps[i].Read? ==> steps[i].tenant != t
    ensures var r := Run(s, steps);
            && Used(r.data, t) == Used(s.data, t)
            && forall w :: 0 <= w < |r.workers| ==> r.workers[w] != AboutToReserve(t)
  {
    if steps != [] {
      var init := steps[..|steps| - 1];
      assert forall i :: 0 <= i < |init| ==> init[i] == steps[i];
      OtherTenantsUntouched(s, init, t);
      var r, last := Run(s, init), steps[|steps| - 1];
      if last.Reserve? && last.worker < |r.workers| && r.workers[last.worker].AboutToReserve? {
        ReservedChanges(r.data, r.workers[last.worker].tenant, t);
      }
    }
  }

  /**
   * A tenant's page count, and so its cap, is not safe from other tenants: it grows by exactly the
   * escalations granted to the tenant called "total:" + t, and by no other step.
   */
  lemma PagesGrowByGrants(s: State, steps: seq<Step>, t: Tenant)
    requires AllIdle(s)
    ensures var r := Run(s, steps);
            TotalPages(r.data, t) - TotalPages(s.data, t)
            == Count(r.granted, TOTAL_MARK + t) - Count(s.granted, TOTAL_MARK + t)
  {
    KeysApart(TOTAL_MARK + t, t);
    GrantsAreReserves(s, steps, TOTAL_MARK + t);
  }

  lemma {:induction false} GrantsAreReserves(s: State, steps: seq<Step>, t: Tenant)
    ensures var r := Run(s, steps);
            Used(r.data, t) - Used(s.data, t) == Count(r.granted, t) - Count(s.granted, t)
  {
    if steps != [] {
      var init, last := steps[..|steps| - 1], steps[|steps| - 1];
      GrantsAreReserves(s, init, t);
      var r := Run(s, init);
      if last.Reserve? && last.worker < |r.workers| && r.workers[last.worker].AboutToReserve? {
        ReservedChanges(r.data, r.workers[last.worker].tenant, t);
      }
    }
  }

  /** A stored integer is read under its literal key, and a missing one as zero. */
  lemma CountersRead(data: map<string, int>, t: Tenant)
    ensures Used(data, t) == if "pdf:escbudget:" + t in data then data["pdf:escbudget:" + t] else 0
    ensures TotalPages(data, t) == if "pdf:escbudget:total:" + t in data then data["pdf:escbudget:total:" + t] else 0
    ensures Reserved(data, t) == data["pdf:escbudget:" + t := Used(data, t) + 1]
  {
    assert UsedKey(t) == "pdf:escbudget:" + t && TotalKey(t) == "pdf:escbudget:total:" + t;
  }

  // ---- The bound is reached -------------------------------------------------

  function Reads(k: nat, t: Tenant, cap: int): seq<Step> {
    seq(k, i requires 0 <= i => Read(i, t, cap))
  }

  function Reserves(k: nat): seq<Step> {
    seq(k, i requires 0 <= i => Reserve(i))
  }

  function Fresh(k: nat, t: Tenant, used: int): State {
    State(map[UsedKey(t) := used], seq(k, _ => Idle), map[])
  }

  lemma {:induction false} RunConcat(s: State, a: seq<Step>, b: seq<Step>)
    ensures Run(s, a + b) == Run(Run(s, a), b)
  {
    if b == [] {
      assert a + b == a;
    } else {
      assert (a + b)[..|a + b| - 1] == a + b[..|b| - 1];
      RunConcat(s, a, b[..|b| - 1]);
    }
  }

  lemma {:induction false} AllRead(k: nat, j: nat, t: Tenant, cap: int)
    requires j <= k
    ensures Run(Fresh(k, t, cap - 1), Reads(j, t, cap))
         == Fresh(k, t, cap - 1).(workers := seq(k, w => if w < j then AboutToReserve(t) else Idle))
  {
    if j > 0 {
      AllRead(k, j - 1, t, cap);
      assert Reads(j, t, cap)[..j - 1] == Reads(j - 1, t, cap);
    }
  }

  lemma {:induction false} AllReserve(s: State, k: nat, j: nat, t: Tenant)
    requires j <= k && s.workers == seq(k, _ => AboutToReserve(t))
    ensures Used(Run(s, Reserves(j)).data, t) == Used(s.data, t) + j
    ensures Run(s, Reserves(j)).workers == seq(k, w => if w < j then Idle else AboutToReserve(t))
  {
    if j > 0 {
      AllReserve(s, k, j - 1, t);
      assert Reserves(j)[..j - 1] == Reserves(j - 1);
    }
  }

  /** All k workers read one below the cap, then all reserve: the counter ends at exactly cap + k - 1. */
  lemma OvershootIsReached(k: nat, t: Tenant, cap: int)
    ensures AllIdle(Fresh(k, t, cap - 1)) && CapsAtMost(Reads(k, t, cap) + Reserves(k), t, cap)
    ensures Used(Run(Fresh(k, t, cap - 1), Reads(k, t, cap) + Reserves(k)).data, t) == cap - 1 + k
  {
    var s := Fresh(k, t, cap - 1);
    RunConcat(s, Reads(k, t, cap), Reserves(k));
    AllRead(k, k, t, cap);
    AllReserve(Run(s, Reads(k, t, cap)), k, k, t);
  }

  // ---------------------------------------------------------------------------
  // The calls of one worker
  // ---------------------------------------------------------------------------

  /** RedisBudgetStore over the integers of one Redis. */
  class BudgetStore {
    var data: map<string, int>

    constructor (data: map<string, int>)
      ensures this.data == data
    {
      this.data := data;
    }

    method Reserve(t: Tenant)
      modifies this`data
      ensures data == Reserved(old(data), t)
    {
      data := data[UsedKey(t) := Used(data, t) + 1];
    }
  }

  /** What one call does to a store: a reservation for its tenant when it is granted, nothing otherwise. */
  ghost predicate Charged(before: map<string, int>, after: map<string, int>, t: Tenant, granted: bool) {
    && after == (if granted then Reserved(before, t) else before)
    && Used(after, t) == Used(before, t) + (if granted then 1 else 0)
    && (forall u: Tenant :: u != t ==> Used(after, u) == Used(before, u))
    && forall u: Tenant ::
         TotalPages(after, u) == TotalPages(before, u) + if granted && t == TOTAL_MARK + u then 1 else 0
  }

  lemma ChargedIs(before: map<string, int>, t: Tenant, granted: bool)
    ensures Charged(before, if granted then Reserved(before, t) else before, t, granted)
  {
    if granted {
      forall u: Tenant
        ensures Used(Reserved(before, t), u) == Used(before, u) + if u == t then 1 else 0
        ensures TotalPages(Reserved(before, t), u) == TotalPages(before, u) + if t == TOTAL_MARK + u then 1 else 0
      {
        ReservedChanges(before, t, u);
      }
    }
  }

  /** One call with nothing in between: allowed exactly when a signal fires, a store is wired, and budget is left. */
  method EscalationAllowed(t: Tenant, signals: Signals, tun: Tunables, store: BudgetStore?) returns (allowed: bool)
    modifies store
    ensures allowed
       <==> && SignalsFire(tun, signals) && store != null
            && Used(old(store.data), t) < Cap(tun, TotalPages(old(store.data), t))
    ensures store != null ==> Charged(old(store.data), store.data, t, allowed)
    ensures store != null ==>
              Used(store.data, t) <= Max(Used(old(store.data), t), Cap(tun, TotalPages(old(store.data), t)))
  {
    if store != null {
      ChargedIs(store.data, t, false);
      ChargedIs(store.data, t, true);
    }
    if !SignalsFire(tun, signals) || store == null {
      return false;
    }
    var cap := Cap(tun, TotalPages(store.data, t));
    if Used(store.data, t) >= cap {
      return false;
    }
    store.Reserve(t);
    return true;
  }

  method SelectModel(task: Task, t: Tenant, signals: Signals, tun: Tunables, store: BudgetStore?)
    returns (choice: ModelChoice)
    modifies store
    ensures choice.isStrong
       <==> && SignalsFire(tun, signals) && store != null
            && Used(old(store.data), t) < Cap(tun, TotalPages(old(store.data), t))
    ensures choice == Choose(task, tun, choice.isStrong)
    ensures store != null ==> Charged(old(store.data), store.data, t, choice.isStrong)
  {
    var allowed := EscalationAllowed(t, signals, tun, store);
    choice := Choose(task, tun, allowed);
  }
}
