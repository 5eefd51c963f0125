/**
 * Model of server/app/core/embed_batcher.py: the two-cap batch planner and the
 * shell that scatters the returned vectors back into input order.
 */
module EmbedBatcher {
  import opened Common

  datatype BatchPlan = BatchPlan(indices: seq<nat>)

  // ---------------------------------------------------------------------------
  // What a plan must look like, independently of how it is computed.
  // ---------------------------------------------------------------------------

  /** lo, lo + 1, ..., hi - 1 */
  function Interval(lo: nat, hi: nat): (r: seq<nat>)
    requires lo <= hi
    ensures |r| == hi - lo
    ensures forall i :: 0 <= i < |r| ==> r[i] == lo + i
  {
    seq(hi - lo, i requires 0 <= i < hi - lo => lo + i)
  }

  predicate InRange(tokens: seq<int>, group: seq<nat>) {
    forall k :: 0 <= k < |group| ==> group[k] < |tokens|
  }

  /** Token total of a group of input positions; negative counts are clamped to 0. */
  function Weight(tokens: seq<int>, group: seq<nat>): (w: nat)
    requires InRange(tokens, group)
  {
    if group == [] then 0
    else Max(0, tokens[group[0]]) + Weight(tokens, group[1..])
  }

  function Flatten(plans: seq<BatchPlan>): seq<nat> {
    if plans == [] then [] else plans[0].indices + Flatten(plans[1..])
  }

  /** One request obeys the caps: few enough items, and within budget unless it is a lone item. */
  ghost predicate Legal(tokens: seq<int>, batchMax: nat, budget: nat, plan: BatchPlan) {
    && 1 <= |plan.indices| <= batchMax
    && InRange(tokens, plan.indices)
    && (|plan.indices| == 1 || Weight(tokens, plan.indices) <= budget)
  }

  /** An order-preserving split of positions [from, |tokens|) into legal groups. */
  ghost predicate PacksFrom(tokens: seq<int>, batchMax: nat, budget: nat, from: nat, plans: seq<BatchPlan>) {
    && from <= |tokens|
    && Flatten(plans) == Interval(from, |tokens|)
    && forall j :: 0 <= j < |plans| ==> Legal(tokens, batchMax, budget, plans[j])
  }

  /** `plans` is a legal split of the whole input and no legal split has fewer groups. */
  ghost predicate OptimalPacking(tokens: seq<int>, batchMax: nat, budget: nat, plans: seq<BatchPlan>) {
    && PacksFrom(tokens, batchMax, budget, 0, plans)
    && forall other :: PacksFrom(tokens, batchMax, budget, 0, other) ==> |plans| <= |other|
  }

  /** A batch that starts at lo and stops before hi may not take item hi as well. */
  ghost predicate Closed(tokens: seq<int>, batchMax: nat, budget: nat, lo: nat, hi: nat)
    requires lo < hi < |tokens|
  {
    hi - lo >= batchMax || Weight(tokens, Interval(lo, hi + 1)) > budget
  }

  lemma WeightConcat(tokens: seq<int>, a: seq<nat>, b: seq<nat>)
    requires InRange(tokens, a) && InRange(tokens, b)
    ensures InRange(tokens, a + b)
    ensures Weight(tokens, a + b) == Weight(tokens, a) + Weight(tokens, b)
  {
    if a == [] {
      assert a + b == b;
    } else {
      WeightConcat(tokens, a[1..], b);
      assert (a + b)[1..] == a[1..] + b;
    }
  }

  lemma WeightSplit(tokens: seq<int>, lo: nat, mid: nat, hi: nat)
    requires lo <= mid <= hi <= |tokens|
    ensures Weight(tokens, Interval(lo, hi)) == Weight(tokens, Interval(lo, mid)) + Weight(tokens, Interval(mid, hi))
  {
    assert Interval(lo, hi) == Interval(lo, mid) + Interval(mid, hi);
    WeightConcat(tokens, Interval(lo, mid), Interval(mid, hi));
  }

  /** Widening an interval never lowers its token total. */
  lemma WeightMonotone(tokens: seq<int>, a: nat, lo: nat, hi: nat, b: nat)
    requires a <= lo <= hi <= b <= |tokens|
    ensures Weight(tokens, Interval(lo, hi)) <= Weight(tokens, Interval(a, b))
  {
    WeightSplit(tokens, a, lo, b);
    WeightSplit(tokens, lo, hi, b);
  }

  lemma WeightLast(tokens: seq<int>, lo: nat, hi: nat)
    requires lo <= hi < |tokens|
    ensures Weight(tokens, Interval(lo, hi + 1)) == Weight(tokens, Interval(lo, hi)) + Max(0, tokens[hi])
  {
    WeightSplit(tokens, lo, hi, hi + 1);
    assert Interval(hi, hi + 1) == [hi];
    assert Weight(tokens, [hi]) == Max(0, tokens[hi]) + Weight(tokens, []);
  }

  // ---------------------------------------------------------------------------
  // The plan as a function: each batch is the longest legal run from where the
  // previous one stopped.
  // ---------------------------------------------------------------------------

  /** End of the longest legal run that starts at lo and already covers [lo, hi). */
  function RunEnd(tokens: seq<int>, batchMax: nat, budget: nat, lo: nat, hi: nat): (end: nat)
    requires lo < hi <= |tokens|
    ensures hi <= end <= |tokens|
    decreases |tokens| - hi
  {
    if hi < |tokens| && hi - lo < batchMax && Weight(tokens, Interval(lo, hi + 1)) <= budget
    then RunEnd(tokens, batchMax, budget, lo, hi + 1)
    else hi
  }

  function PlanFrom(tokens: seq<int>, batchMax: nat, budget: nat, from: nat): seq<BatchPlan>
    requires from <= |tokens|
    decreases |tokens| - from
  {
    if from == |tokens| then []
    else
      var end := RunEnd(tokens, batchMax, budget, from, from + 1);
      [BatchPlan(Interval(from, end))] + PlanFrom(tokens, batchMax, budget, end)
  }

  /** The planner's answer, with both caps clamped to at least one. */
  function Plan(tokens: seq<int>, batchMax: int, budget: int): seq<BatchPlan> {
    PlanFrom(tokens, Max(1, batchMax), Max(1, budget), 0)
  }

  lemma {:induction false} RunEndIsMaximal(tokens: seq<int>, batchMax: nat, budget: nat, lo: nat, hi: nat)
    requires lo < hi <= |tokens| && hi - lo <= batchMax
    requires hi == lo + 1 || Weight(tokens, Interval(lo, hi)) <= budget
    ensures var end := RunEnd(tokens, batchMax, budget, lo, hi);
            && Legal(tokens, batchMax, budget, BatchPlan(Interval(lo, end)))
            && (end < |tokens| ==> Closed(tokens, batchMax, budget, lo, end))
    decreases |tokens| - hi
  {
    if hi < |tokens| && hi - lo < batchMax && Weight(tokens, Interval(lo, hi + 1)) <= budget {
      RunEndIsMaximal(tokens, batchMax, budget, lo, hi + 1);
    }
  }

  /** Every position is planned exactly once, in order, and every request obeys both caps. */
  lemma {:induction false} PlanPacks(tokens: seq<int>, batchMax: nat, budget: nat, from: nat)
    requires batchMax >= 1 && from <= |tokens|
    ensures PacksFrom(tokens, batchMax, budget, from, PlanFrom(tokens, batchMax, budget, from))
    decreases |tokens| - from
  {
    if from < |tokens| {
      var end := RunEnd(tokens, batchMax, budget, from, from + 1);
      RunEndIsMaximal(tokens, batchMax, budget, from, from + 1);
      PlanPacks(tokens, batchMax, budget, end);
      assert Interval(from, |tokens|) == Interval(from, end) + Interval(end, |tokens|);
    }
  }

  // ---------------------------------------------------------------------------
  // Optimality: greedy stays ahead of every other legal split.
  // ---------------------------------------------------------------------------

  /** In any legal split the first group is the interval that starts the range. */
  lemma FirstGroup(tokens: seq<int>, batchMax: nat, budget: nat, from: nat, plans: seq<BatchPlan>) returns (mid: nat)
    requires PacksFrom(tokens, batchMax, budget, from, plans) && plans != []
    ensures from < mid <= |tokens|
    ensures plans[0].indices == Interval(from, mid)
    ensures PacksFrom(tokens, batchMax, budget, mid, plans[1..])
  {
    var head, tail := plans[0].indices, Flatten(plans[1..]);
    var all := Interval(from, |tokens|);
    assert Legal(tokens, batchMax, budget, plans[0]);
    assert all == head + tail;
    assert |all| == |head| + |tail|;
    mid := from + |head|;
    assert head == all[..|head|] == Interval(from, mid);
    assert tail == all[|head|..] == Interval(mid, |tokens|);
  }

  /** A legal run that starts no later than lo cannot reach past the greedy end from lo. */
  lemma GreedyReachesFurther(tokens: seq<int>, batchMax: nat, budget: nat, a: nat, b: nat, lo: nat)
    requires a <= lo < |tokens| && a < b <= |tokens| && batchMax >= 1
    requires Legal(tokens, batchMax, budget, BatchPlan(Interval(a, b)))
    ensures b <= RunEnd(tokens, batchMax, budget, lo, lo + 1)
  {
    var end := RunEnd(tokens, batchMax, budget, lo, lo + 1);
    RunEndIsMaximal(tokens, batchMax, budget, lo, lo + 1);
    if b > end {
      WeightMonotone(tokens, a, lo, end + 1, b);
    }
  }

  /** Starting further along, greedy needs no more batches than any legal split of more input. */
  lemma {:induction false} GreedyStaysAhead(tokens: seq<int>, batchMax: nat, budget: nat, from: nat, ahead: nat,
                                            other: seq<BatchPlan>)
    requires batchMax >= 1 && from <= ahead <= |tokens|
    requires PacksFrom(tokens, batchMax, budget, from, other)
    ensures |PlanFrom(tokens, batchMax, budget, ahead)| <= |other|
    decreases |other|
  {
    if ahead < |tokens| {
      if other == [] {
        assert false;
      }
      var mid := FirstGroup(tokens, batchMax, budget, from, other);
      var end := RunEnd(tokens, batchMax, budget, ahead, ahead + 1);
      assert Legal(tokens, batchMax, budget, other[0]);
      GreedyReachesFurther(tokens, batchMax, budget, from, mid, ahead);
      GreedyStaysAhead(tokens, batchMax, budget, mid, end, other[1..]);
    }
  }

  /** The plan is a legal order-preserving split, and none uses fewer requests. */
  lemma PlanIsOptimal(tokens: seq<int>, batchMax: int, budget: int)
    ensures OptimalPacking(tokens, Max(1, batchMax), Max(1, budget), Plan(tokens, batchMax, budget))
  {
    PlanPacks(tokens, Max(1, batchMax), Max(1, budget), 0);
    forall other | PacksFrom(tokens, Max(1, batchMax), Max(1, budget), 0, other)
      ensures |Plan(tokens, batchMax, budget)| <= |other|
    {
      GreedyStaysAhead(tokens, Max(1, batchMax), Max(1, budget), 0, 0, other);
    }
  }

  // ---------------------------------------------------------------------------
  // How many batches: each non-final batch was closed by one of the two caps.
  // ---------------------------------------------------------------------------

  lemma MulMonotone(a: int, b: int, c: nat)
    requires a <= b
    ensures a * c <= b * c
  {
  }

  lemma MulAdd(a: int, b: int, c: int)
    ensures (a + b) * c == a * c + b * c
  {
  }

  /** What one closed batch contributes, in units of items * budget + tokens * batchMax. */
  lemma ClosedBatchPays(batchMax: nat, budget: nat, items: nat, tokens: nat)
    requires items >= batchMax || tokens > budget
    ensures batchMax * budget <= items * budget + tokens * batchMax
  {
    if items >= batchMax {
      MulMonotone(batchMax, items, budget);
      MulMonotone(0, tokens, batchMax);
    } else {
      MulMonotone(budget, tokens, batchMax);
      MulMonotone(0, items, budget);
    }
  }

  /** Adds one closed batch's contribution to the bound for the rest. */
  lemma NextBatchPays(k: nat, unit: nat, m: nat, rest: nat, whole: nat, budget: nat, batchMax: nat,
                      paid: nat, restLoad: nat, load: nat)
    requires unit == batchMax * budget && (m >= batchMax || paid > budget)
    requires (k - 1) * unit <= rest * budget + restLoad * batchMax
    requires whole == m + rest && paid + restLoad <= load
    ensures k * unit <= whole * budget + load * batchMax
  {
    ClosedBatchPays(batchMax, budget, m, paid);
    MulAdd(k - 1, 1, unit);
    MulAdd(m, rest, budget);
    MulAdd(paid, restLoad, batchMax);
    MulMonotone(paid + restLoad, load, batchMax);
  }

  /** The weights around the first batch from `from`, and why that batch was closed. */
  lemma FirstBatch(tokens: seq<int>, batchMax: nat, budget: nat, from: nat) returns (end: nat, head: nat, tail: nat)
    requires batchMax >= 1 && from < |tokens|
    ensures from < end <= |tokens|
    ensures |PlanFrom(tokens, batchMax, budget, from)| == 1 + |PlanFrom(tokens, batchMax, budget, end)|
    ensures head + tail == Weight(tokens, Interval(from, |tokens|))
    ensures tail == Weight(tokens, Interval(end, |tokens|))
    ensures Max(0, tokens[from]) <= head
    ensures end < |tokens| ==> end - from >= batchMax || head + Max(0, tokens[end]) > budget
  {
    end := RunEnd(tokens, batchMax, budget, from, from + 1);
    head, tail := Weight(tokens, Interval(from, end)), Weight(tokens, Interval(end, |tokens|));
    WeightSplit(tokens, from, end, |tokens|);
    WeightMonotone(tokens, from, from, from + 1, end);
    WeightLast(tokens, from, from);
    RunEndIsMaximal(tokens, batchMax, budget, from, from + 1);
    if end < |tokens| {
      WeightLast(tokens, from, end);
    }
  }

  /** `load` is twice the tokens from `from` on, less those of the first item. */
  lemma {:induction false} CountBoundFrom(tokens: seq<int>, batchMax: nat, budget: nat, from: nat, unit: nat,
                                          k: nat, whole: nat, load: nat)
    requires batchMax >= 1 && from < |tokens| && unit == batchMax * budget
    requires k == |PlanFrom(tokens, batchMax, budget, from)| && whole == |tokens| - from
    requires load == 2 * Weight(tokens, Interval(from, |tokens|)) - Max(0, tokens[from])
    ensures k >= 1
    ensures (k - 1) * unit <= whole * budget + load * batchMax
    decreases |tokens| - from
  {
    var end, head, tail := FirstBatch(tokens, batchMax, budget, from);
    if end == |tokens| {
      MulMonotone(0, whole, budget);
      MulMonotone(0, load, batchMax);
    } else {
      var next := Max(0, tokens[end]);
      CountBoundFrom(tokens, batchMax, budget, end, unit, k - 1, |tokens| - end, 2 * tail - next);
      NextBatchPays(k - 1, unit, end - from, |tokens| - end, whole, budget, batchMax, head + next, 2 * tail - next,
                    load);
    }
  }

  lemma CountBoundClamped(tokens: seq<int>, batchMax: nat, budget: nat, k: nat)
    requires batchMax >= 1 && k == |PlanFrom(tokens, batchMax, budget, 0)|
    ensures (k - 1) * (batchMax * budget)
         <= |tokens| * budget + (2 * Weight(tokens, Interval(0, |tokens|))) * batchMax
  {
    var t := Weight(tokens, Interval(0, |tokens|));
    if tokens != [] {
      WeightMonotone(tokens, 0, 0, 1, |tokens|);
      WeightLast(tokens, 0, 0);
      CountBoundFrom(tokens, batchMax, budget, 0, batchMax * budget, k, |tokens|, 2 * t - Max(0, tokens[0]));
      MulMonotone(2 * t - Max(0, tokens[0]), 2 * t, batchMax);
    } else {
      MulMonotone(-1, 0, batchMax * budget);
    }
  }

  /** With n inputs and T tokens, k batches satisfy (k - 1) * max * budget <= n * budget + 2 * T * max. */
  lemma BatchCountBound(tokens: seq<int>, batchMax: int, budget: int)
    ensures var m, b := Max(1, batchMax), Max(1, budget);
            var k, t := |Plan(tokens, batchMax, budget)|, Weight(tokens, Interval(0, |tokens|));
            (k - 1) * (m * b) <= |tokens| * b + (2 * t) * m
  {
    CountBoundClamped(tokens, Max(1, batchMax), Max(1, budget), |Plan(tokens, batchMax, budget)|);
  }

  // ---------------------------------------------------------------------------
  // The loop.
  // ---------------------------------------------------------------------------

  /** [lo, i) is a run the plan is still growing, and `done` are the batches before it. */
  ghost predicate Growing(tokens: seq<int>, batchMax: nat, budget: nat, done: seq<BatchPlan>, lo: nat, i: nat) {
    && lo < i <= |tokens|
    && RunEnd(tokens, batchMax, budget, lo, lo + 1) == RunEnd(tokens, batchMax, budget, lo, i)
    && done + PlanFrom(tokens, batchMax, budget, lo) == PlanFrom(tokens, batchMax, budget, 0)
  }

  /** When item i would break a cap, the run so far is the next batch of the plan. */
  lemma FlushClosesBatch(tokens: seq<int>, batchMax: nat, budget: nat, done: seq<BatchPlan>, lo: nat, i: nat)
    requires Growing(tokens, batchMax, budget, done, lo, i)
    requires i == |tokens| || Closed(tokens, batchMax, budget, lo, i)
    ensures done + [BatchPlan(Interval(lo, i))] + PlanFrom(tokens, batchMax, budget, i)
         == PlanFrom(tokens, batchMax, budget, 0)
    ensures i < |tokens| ==> Growing(tokens, batchMax, budget, done + [BatchPlan(Interval(lo, i))], i, i + 1)
  {
  }

  lemma IntervalGrows(lo: nat, hi: nat)
    requires lo <= hi
    ensures Interval(lo, hi) + [hi] == Interval(lo, hi + 1)
  {
  }

  lemma FirstItemGrows(tokens: seq<int>, batchMax: nat, budget: nat)
    requires tokens != []
    ensures Growing(tokens, batchMax, budget, [], 0, 1)
  {
  }

  lemma ItemExtendsBatch(tokens: seq<int>, batchMax: nat, budget: nat, done: seq<BatchPlan>, lo: nat, i: nat)
    requires Growing(tokens, batchMax, budget, done, lo, i) && i < |tokens| && !Closed(tokens, batchMax, budget, lo, i)
    ensures Growing(tokens, batchMax, budget, done, lo, i + 1)
  {
  }

  method PlanBatches(tokenCounts: seq<int>, batchMax: int, tokenBudget: int) returns (plans: seq<BatchPlan>)
    ensures plans == Plan(tokenCounts, batchMax, tokenBudget)
    ensures OptimalPacking(tokenCounts, Max(1, batchMax), Max(1, tokenBudget), plans)
  {
    var cap, budget := Max(1, batchMax), Max(1, tokenBudget);
    plans := [];
    var current: seq<nat>, currentTokens := [], 0;
    ghost var lo := 0;
    for i := 0 to |tokenCounts|
      invariant 0 <= lo <= i && current == Interval(lo, i)
      invariant currentTokens == Weight(tokenCounts, Interval(lo, i))
      invariant if i == 0 then plans == [] && lo == 0 else Growing(tokenCounts, cap, budget, plans, lo, i)
    {
      var tok := Max(0, tokenCounts[i]);
      WeightLast(tokenCounts, lo, i);
      assert |current| == i - lo;
      if |current| >= cap || (current != [] && currentTokens + tok > budget) {
        FlushClosesBatch(tokenCounts, cap, budget, plans, lo, i);
        plans := plans + [BatchPlan(current)];
        current, currentTokens := [], 0;
        lo := i;
        WeightLast(tokenCounts, lo, i);
      } else if i == 0 {
        FirstItemGrows(tokenCounts, cap, budget);
      } else {
        ItemExtendsBatch(tokenCounts, cap, budget, plans, lo, i);
      }
      IntervalGrows(lo, i);
      current, currentTokens := current + [i as nat], currentTokens + tok;
    }
    if current != [] {
      FlushClosesBatch(tokenCounts, cap, budget, plans, lo, |tokenCounts|);
      plans := plans + [BatchPlan(current)];
    }
    PlanIsOptimal(tokenCounts, batchMax, tokenBudget);
  }

  // ---------------------------------------------------------------------------
  // embed_all: one pool call per plan, vectors scattered back by index.
  // ---------------------------------------------------------------------------

  /** What the pool does with one request: it raises, or returns a list of vectors of any length. */
  datatype Reply<+V> = Failed | Vectors(data: seq<V>)

  datatype EmbedError = PoolFailed | IndexError

  /** An arbitrary pool: its answer may depend on the call number as well as on the request. */
  type Pool<!I, +V> = (nat, seq<I>) -> Reply<V>

  /** Call number `call` of the pool. */
  function Ask<I, V>(pool: Pool<I, V>, call: nat, req: seq<I>): Reply<V> {
    pool(call, req)
  }

  function Nones<V>(n: nat): (r: seq<Option<V>>)
    ensures |r| == n && forall i :: 0 <= i < n ==> r[i] == None
  {
    seq(n, _ => None)
  }

  /** The n slots of one request: short replies leave the tail empty, long ones are cut. */
  function Slots<V>(data: seq<V>, n: nat): (r: seq<Option<V>>)
    ensures |r| == n
    ensures forall p :: 0 <= p < n ==> r[p] == if p < |data| then Some(data[p]) else None
  {
    seq(n, p requires 0 <= p => if p < |data| then Some(data[p]) else None)
  }

  predicate GroupInRange(group: seq<nat>, n: nat) {
    forall k :: 0 <= k < |group| ==> group[k] < n
  }

  function Request<I>(inputs: seq<I>, group: seq<nat>): seq<I>
    requires GroupInRange(group, |inputs|)
  {
    seq(|group|, k requires 0 <= k < |group| => inputs[group[k]])
  }

  /** The result as plain concatenation of the replies in call order, stopping at the first error. */
  function Assemble<I, V>(inputs: seq<I>, pool: Pool<I, V>, plans: seq<BatchPlan>, call: nat)
    : (r: Result<seq<Option<V>>, EmbedError>)
    ensures r.Ok? ==> |r.value| == |Flatten(plans)|
  {
    if plans == [] then Ok([])
    else
      var g := plans[0].indices;
      if !GroupInRange(g, |inputs|) then Err(IndexError)
      else
        match Ask(pool, call, Request(inputs, g))
        case Failed => Err(PoolFailed)
        case Vectors(data) =>
          match Assemble(inputs, pool, plans[1..], call + 1)
          case Err(e) => Err(e)
          case Ok(rest) => Ok(Slots(data, |g|) + rest)
  }

  function EmbedSpec<I, V>(inputs: seq<I>, tokens: seq<int>, batchMax: int, budget: int, pool: Pool<I, V>)
    : Result<seq<Option<V>>, EmbedError>
  {
    if inputs == [] then Ok([])
    else
      match Assemble(inputs, pool, Plan(tokens, batchMax, budget), 0)
      case Err(e) => Err(e)
      case Ok(v) => Ok(v + Nones(Max(0, |inputs| - |v|)))
  }

  /** A pool that embeds each text on its own, whatever the call and whatever its neighbours. */
  ghost predicate Pointwise<I(!new), V>(pool: Pool<I, V>, f: I -> V) {
    forall call: nat, req: seq<I> {:trigger Ask(pool, call, req)} ::
      Ask(pool, call, req).Vectors? ==>
        && |Ask(pool, call, req).data| == |req|
        && forall k :: 0 <= k < |req| ==> Ask(pool, call, req).data[k] == f(req[k])
  }

  /** `v` holds the vectors of the inputs from position `from` on, in order. */
  ghost predicate AlignedFrom<I, V>(inputs: seq<I>, f: I -> V, from: nat, v: seq<Option<V>>) {
    && from + |v| <= |inputs|
    && forall k :: 0 <= k < |v| ==> v[k] == Some(f(inputs[from + k]))
  }

  /** The slots of one answered request hold the vectors of that request's inputs. */
  lemma SlotsAligned<I(!new), V>(inputs: seq<I>, pool: Pool<I, V>, f: I -> V, from: nat, end: nat, call: nat)
    requires from < end && Pointwise(pool, f)
    requires GroupInRange(Interval(from, end), |inputs|)
    requires Ask(pool, call, Request(inputs, Interval(from, end))).Vectors?
    ensures AlignedFrom(inputs, f, from, Slots(Ask(pool, call, Request(inputs, Interval(from, end))).data, end - from))
  {
    assert Interval(from, end)[end - from - 1] == end - 1;
  }

  lemma AlignedConcat<I, V>(inputs: seq<I>, f: I -> V, from: nat, a: seq<Option<V>>, b: seq<Option<V>>)
    requires AlignedFrom(inputs, f, from, a) && AlignedFrom(inputs, f, from + |a|, b)
    ensures AlignedFrom(inputs, f, from, a + b)
  {
  }

  lemma {:induction false} AssembleAligned<I(!new), V>(inputs: seq<I>, tokens: seq<int>, batchMax: nat, budget: nat,
                                                        pool: Pool<I, V>, f: I -> V, from: nat, call: nat)
    requires batchMax >= 1 && from <= |tokens| && from <= |inputs| && Pointwise(pool, f)
    ensures var r := Assemble(inputs, pool, PlanFrom(tokens, batchMax, budget, from), call);
            r.Ok? ==> |r.value| == |tokens| - from && AlignedFrom(inputs, f, from, r.value)
    decreases |tokens| - from
  {
    if from < |tokens| {
      var end := RunEnd(tokens, batchMax, budget, from, from + 1);
      var g := Interval(from, end);
      var rest := PlanFrom(tokens, batchMax, budget, end);
      assert PlanFrom(tokens, batchMax, budget, from) == [BatchPlan(g)] + rest;
      if GroupInRange(g, |inputs|) && Ask(pool, call, Request(inputs, g)).Vectors? {
        SlotsAligned(inputs, pool, f, from, end, call);
        AssembleAligned(inputs, tokens, batchMax, budget, pool, f, end, call + 1);
        var r := Assemble(inputs, pool, rest, call + 1);
        if r.Ok? {
          AlignedConcat(inputs, f, from, Slots(Ask(pool, call, Request(inputs, g)).data, |g|), r.value);
        }
      }
    }
  }

  /** Alignment: each returned vector is the one for the input at its own position. */
  lemma EmbedAligned<I(!new), V>(inputs: seq<I>, tokens: seq<int>, batchMax: int, budget: int, pool: Pool<I, V>,
                                 f: I -> V)
    requires Pointwise(pool, f)
    ensures var r := EmbedSpec(inputs, tokens, batchMax, budget, pool);
            r.Ok? ==>
              && |r.value| == |inputs|
              && forall i :: 0 <= i < |inputs| ==> r.value[i] == if i < |tokens| then Some(f(inputs[i])) else None
  {
    if inputs != [] {
      AssembleAligned(inputs, tokens, Max(1, batchMax), Max(1, budget), pool, f, 0, 0);
    }
  }

  /** With no more token counts than inputs and no failing request, the call succeeds. */
  lemma {:induction false} AssembleSucceeds<I, V>(inputs: seq<I>, tokens: seq<int>, batchMax: nat, budget: nat,
                                                   pool: Pool<I, V>, from: nat, call: nat)
    requires batchMax >= 1 && from <= |tokens| <= |inputs|
    requires forall c: nat, req: seq<I> :: Ask(pool, c, req).Vectors?
    ensures Assemble(inputs, pool, PlanFrom(tokens, batchMax, budget, from), call).Ok?
    decreases |tokens| - from
  {
    if from < |tokens| {
      var plans := PlanFrom(tokens, batchMax, budget, from);
      var end := RunEnd(tokens, batchMax, budget, from, from + 1);
      assert plans[1..] == PlanFrom(tokens, batchMax, budget, end);
      AssembleSucceeds(inputs, tokens, batchMax, budget, pool, end, call + 1);
    }
  }

  /** Number of items in the first j batches: the position at which batch j starts. */
  function StartOf(plans: seq<BatchPlan>, j: nat): nat
    requires j <= |plans|
  {
    if j == 0 then 0 else |plans[0].indices| + StartOf(plans[1..], j - 1)
  }

  /**
   * For any pool at all: slot p of batch j holds item p of what call j returned for exactly the inputs of
   * that batch, in order, and is empty when the reply was shorter.
   */
  lemma {:induction false} AssembledSlot<I, V>(inputs: seq<I>, pool: Pool<I, V>, plans: seq<BatchPlan>, call: nat,
                                               j: nat, p: nat)
    requires j < |plans| && p < |plans[j].indices| && Assemble(inputs, pool, plans, call).Ok?
    ensures var (g, v, at) := (plans[j].indices, Assemble(inputs, pool, plans, call).value, StartOf(plans, j) + p);
            && at < |v| && GroupInRange(g, |inputs|)
            && var req := seq(|g|, k requires 0 <= k < |g| => inputs[g[k]]);
               && Ask(pool, call + j, req).Vectors?
               && v[at] == if p < |Ask(pool, call + j, req).data| then Some(Ask(pool, call + j, req).data[p]) else None
  {
    var g := plans[0].indices;
    var rest := Assemble(inputs, pool, plans[1..], call + 1);
    if j == 0 {
      assert Request(inputs, g) == seq(|g|, k requires 0 <= k < |g| => inputs[g[k]]);
    } else {
      AssembledSlot(inputs, pool, plans[1..], call + 1, j - 1, p);
    }
  }

  /**
   * The outcome: no inputs give an empty list without a call; otherwise the call fails at the first batch
   * that reaches past the inputs or whose request fails, with the error of that batch.
   */
  lemma EmbedOutcome<I, V>(inputs: seq<I>, tokens: seq<int>, batchMax: int, budget: int, pool: Pool<I, V>)
    ensures inputs == [] ==> EmbedSpec(inputs, tokens, batchMax, budget, pool) == Ok([])
    ensures inputs != [] ==>
              var r := EmbedSpec(inputs, tokens, batchMax, budget, pool);
              var plans := Plan(tokens, batchMax, budget);
              (r.Ok? <==> forall j :: 0 <= j < |plans| ==> Answers(inputs, pool, plans[j], j))
  {
    if inputs != [] {
      AssembleOutcome(inputs, pool, Plan(tokens, batchMax, budget), 0);
    }
  }

  /** The batch lies within the inputs and the pool answers its request at call j. */
  ghost predicate Answers<I, V>(inputs: seq<I>, pool: Pool<I, V>, plan: BatchPlan, call: nat) {
    && GroupInRange(plan.indices, |inputs|)
    && Ask(pool, call, Request(inputs, plan.indices)).Vectors?
  }

  lemma {:induction false} AssembleOutcome<I, V>(inputs: seq<I>, pool: Pool<I, V>, plans: seq<BatchPlan>, call: nat)
    ensures Assemble(inputs, pool, plans, call).Ok?
       <==> forall j :: 0 <= j < |plans| ==> Answers(inputs, pool, plans[j], call + j)
  {
    if plans != [] {
      AssembleOutcome(inputs, pool, plans[1..], call + 1);
      if Answers(inputs, pool, plans[0], call) {
        if Assemble(inputs, pool, plans[1..], call + 1).Ok? {
          forall j | 0 <= j < |plans| ensures Answers(inputs, pool, plans[j], call + j) {
            if j > 0 {
              assert Answers(inputs, pool, plans[1..][j - 1], call + 1 + (j - 1));
            }
          }
        }
        if forall j :: 0 <= j < |plans| ==> Answers(inputs, pool, plans[j], call + j) {
          forall j | 0 <= j < |plans[1..]| ensures Answers(inputs, pool, plans[1..][j], call + 1 + j) {
            assert Answers(inputs, pool, plans[j + 1], call + (j + 1));
          }
        }
      } else {
        assert !Answers(inputs, pool, plans[0], call + 0);
      }
    }
  }

  /** The error is that of the first batch that is not answered. */
  lemma {:induction false} AssembleError<I, V>(inputs: seq<I>, pool: Pool<I, V>, plans: seq<BatchPlan>, call: nat,
                                               j: nat)
    requires j < |plans| && !Answers(inputs, pool, plans[j], call + j)
    requires forall k :: 0 <= k < j ==> Answers(inputs, pool, plans[k], call + k)
    ensures Assemble(inputs, pool, plans, call)
         == Err(if GroupInRange(plans[j].indices, |inputs|) then PoolFailed else IndexError)
  {
    if j > 0 {
      assert Answers(inputs, pool, plans[0], call + 0);
      forall k | 0 <= k < j - 1 ensures Answers(inputs, pool, plans[1..][k], call + 1 + k) {
        assert Answers(inputs, pool, plans[k + 1], call + (k + 1));
      }
      AssembleError(inputs, pool, plans[1..], call + 1, j - 1);
    }
  }

  function Prepend<V>(done: seq<Option<V>>, r: Result<seq<Option<V>>, EmbedError>): Result<seq<Option<V>>, EmbedError> {
    match r
    case Err(e) => Err(e)
    case Ok(v) => Ok(done + v)
  }

  /** The first j requests were answered, `done` holds their slots, and the rest is still to come. */
  ghost predicate Answered<I, V>(inputs: seq<I>, pool: Pool<I, V>, n: nat, plans: seq<BatchPlan>, j: nat,
                                 done: seq<Option<V>>)
  {
    && j <= |plans| && |done| <= n && |done| <= |inputs|
    && Flatten(plans[j..]) == Interval(|done|, n)
    && Assemble(inputs, pool, plans, 0) == Prepend(done, Assemble(inputs, pool, plans[j..], j))
  }

  lemma AnsweredStart<I, V>(inputs: seq<I>, pool: Pool<I, V>, n: nat, plans: seq<BatchPlan>)
    requires Flatten(plans) == Interval(0, n)
    ensures Answered(inputs, pool, n, plans, 0, [])
  {
    assert plans[0..] == plans;
    var r := Assemble(inputs, pool, plans, 0);
    if r.Ok? {
      assert [] + r.value == r.value;
    }
  }

  lemma AssembleStep<I, V>(inputs: seq<I>, pool: Pool<I, V>, g: seq<nat>, rest: seq<BatchPlan>, call: nat,
                           done: seq<Option<V>>)
    requires GroupInRange(g, |inputs|) && Ask(pool, call, Request(inputs, g)).Vectors?
    ensures Prepend(done, Assemble(inputs, pool, [BatchPlan(g)] + rest, call))
         == Prepend(done + Slots(Ask(pool, call, Request(inputs, g)).data, |g|), Assemble(inputs, pool, rest, call + 1))
  {
    var slots := Slots(Ask(pool, call, Request(inputs, g)).data, |g|);
    var tail := Assemble(inputs, pool, rest, call + 1);
    if tail.Ok? {
      assert done + (slots + tail.value) == (done + slots) + tail.value;
    }
  }

  /** Request j either decides the outcome or moves its slots into the answered part. */
  lemma AnswerNext<I, V>(inputs: seq<I>, pool: Pool<I, V>, n: nat, plans: seq<BatchPlan>, j: nat, done: seq<Option<V>>)
    requires Answered(inputs, pool, n, plans, j, done) && j < |plans|
    ensures var g := plans[j].indices;
            && |done| + |g| <= n && g == Interval(|done|, |done| + |g|)
            && (!GroupInRange(g, |inputs|) ==> Assemble(inputs, pool, plans, 0) == Err(IndexError))
            && (GroupInRange(g, |inputs|) ==>
                  && |done| + |g| <= |inputs|
                  && match Ask(pool, j, Request(inputs, g))
                     case Failed => Assemble(inputs, pool, plans, 0) == Err(PoolFailed)
                     case Vectors(data) => Answered(inputs, pool, n, plans, j + 1, done + Slots(data, |g|)))
  {
    var g, rest := plans[j].indices, plans[j + 1..];
    assert plans[j..] == [BatchPlan(g)] + rest;
    IntervalHead(g, Flatten(rest), |done|, n);
    if GroupInRange(g, |inputs|) {
      if g != [] {
        assert g[|g| - 1] == |done| + |g| - 1;
      }
      if Ask(pool, j, Request(inputs, g)).Vectors? {
        AssembleStep(inputs, pool, g, rest, j, done);
      }
    }
  }

  lemma AnsweredAll<I, V>(inputs: seq<I>, pool: Pool<I, V>, n: nat, plans: seq<BatchPlan>, done: seq<Option<V>>)
    requires Answered(inputs, pool, n, plans, |plans|, done)
    ensures Assemble(inputs, pool, plans, 0) == Ok(done)
  {
    assert plans[|plans|..] == [];
    assert done + [] == done;
  }

  /** A list of slots padded with empty ones up to the number of inputs. */
  function Padded<V>(r: Result<seq<Option<V>>, EmbedError>, n: nat): Result<seq<Option<V>>, EmbedError> {
    match r
    case Err(e) => Err(e)
    case Ok(v) => Ok(v + Nones(Max(0, n - |v|)))
  }

  /** The loop over the plans: one pool call each, scattered into the list of vectors. */
  method SendPlans<I, V>(inputs: seq<I>, n: nat, plans: seq<BatchPlan>, pool: Pool<I, V>)
    returns (r: Result<seq<Option<V>>, EmbedError>)
    requires Flatten(plans) == Interval(0, n)
    ensures r == Padded(Assemble(inputs, pool, plans, 0), |inputs|)
  {
    var vectors := new Option<V>[|inputs|](_ => None);
    ghost var done: seq<Option<V>> := [];
    AnsweredStart(inputs, pool, n, plans);
    for j := 0 to |plans|
      invariant Answered(inputs, pool, n, plans, j, done)
      invariant vectors[..] == done + Nones(|inputs| - |done|)
    {
      var group := plans[j].indices;
      AnswerNext(inputs, pool, n, plans, j, done);
      if !GroupInRange(group, |inputs|) {
        return Err(IndexError);
      }
      var reply := Ask(pool, j, Request(inputs, group));
      if reply.Failed? {
        return Err(PoolFailed);
      }
      Scatter(vectors, group, reply.data, done);
      done := done + Slots(reply.data, |group|);
    }
    AnsweredAll(inputs, pool, n, plans, done);
    r := Ok(vectors[..]);
  }

  method EmbedAll<I, V>(inputs: seq<I>, tokenCounts: seq<int>, batchMax: int, tokenBudget: int, pool: Pool<I, V>)
    returns (r: Result<seq<Option<V>>, EmbedError>)
    ensures r == EmbedSpec(inputs, tokenCounts, batchMax, tokenBudget, pool)
  {
    if inputs == [] {
      return Ok([]);
    }
    var plans := PlanBatches(tokenCounts, batchMax, tokenBudget);
    r := SendPlans(inputs, |tokenCounts|, plans, pool);
  }

  lemma IntervalHead(head: seq<nat>, tail: seq<nat>, lo: nat, hi: nat)
    requires lo <= hi && head + tail == Interval(lo, hi)
    ensures lo + |head| <= hi
    ensures head == Interval(lo, lo + |head|) && tail == Interval(lo + |head|, hi)
  {
    var all := Interval(lo, hi);
    assert |all| == |head| + |tail|;
    assert head == all[..|head|] && tail == all[|head|..];
  }

  /** Writes the vectors of one reply into the slots of its batch, up to the shorter of the two. */
  method Scatter<V>(vectors: array<Option<V>>, group: seq<nat>, data: seq<V>, ghost done: seq<Option<V>>)
    requires |done| + |group| <= vectors.Length && group == Interval(|done|, |done| + |group|)
    requires vectors[..] == done + Nones(vectors.Length - |done|)
    modifies vectors
    ensures vectors[..] == done + Slots(data, |group|) + Nones(vectors.Length - |done| - |group|)
  {
    var m := Min(|group|, |data|);
    ghost var before := vectors[..];
    for k := 0 to m
      invariant forall i :: 0 <= i < vectors.Length ==>
        vectors[i] == if |done| <= i < |done| + k then Some(data[i - |done|]) else before[i]
    {
      vectors[group[k]] := Some(data[k]);
    }
  }
}
