/**
 * Model of server/app/core/metrics.py: interpolated percentiles over a sliding window of
 * durations, and the counters. Rounding to one decimal is left out.
 */
module Metrics {
  import opened Common

  const LATENCY_WINDOW := 500

  predicate Sorted(s: seq<real>) {
    forall i, j :: 0 <= i < j < |s| ==> s[i] <= s[j]
  }

  // ---------------------------------------------------------------------------
  // Percentiles
  // ---------------------------------------------------------------------------

  function Times(a: real, b: real): real {
    a * b
  }

  lemma Scaled(a: real, b: real, c: real)
    requires a <= b && 0.0 <= c
    ensures Times(a, c) <= Times(b, c)
  {
  }

  /** (p / 100) * (n - 1): the fractional position of percentile p. */
  function Position(p: nat, n: nat): (x: real)
    requires n > 0 && p <= 100
    ensures 0.0 <= x <= (n - 1) as real
  {
    Scaled(0.0, p as real / 100.0, (n - 1) as real);
    Scaled(p as real / 100.0, 1.0, (n - 1) as real);
    Times(p as real / 100.0, (n - 1) as real)
  }

  function Interpolate(a: real, b: real, frac: real): real {
    a * (1.0 - frac) + b * frac
  }

  /** The value at fractional position x of a sample. */
  function At(s: seq<real>, x: real): real
    requires s != [] && 0.0 <= x <= (|s| - 1) as real
  {
    var lo := x.Floor;
    var hi := Min(lo + 1, |s| - 1);
    Interpolate(s[lo], s[hi], x - lo as real)
  }

  function Percentile(s: seq<real>, p: nat): real
    requires p <= 100
  {
    if s == [] then 0.0 else At(s, Position(p, |s|))
  }

  lemma InterpolateIs(a: real, b: real, f: real)
    ensures Interpolate(a, b, f) == a + Times(f, b - a)
  {
  }

  lemma InterpolateBetween(a: real, b: real, f: real)
    requires a <= b && 0.0 <= f <= 1.0
    ensures a <= Interpolate(a, b, f) <= b
  {
    InterpolateIs(a, b, f);
    Scaled(0.0, f, b - a);
    Scaled(f, 1.0, b - a);
  }

  lemma InterpolateMonotone(a: real, b: real, f: real, g: real)
    requires a <= b && f <= g
    ensures Interpolate(a, b, f) <= Interpolate(a, b, g)
  {
  }

  /** The value at x lies between the two samples around x. */
  lemma AtBetween(s: seq<real>, x: real)
    requires s != [] && Sorted(s) && 0.0 <= x <= (|s| - 1) as real
    ensures var lo := x.Floor; s[lo] <= At(s, x) <= s[Min(lo + 1, |s| - 1)]
  {
    var lo := x.Floor;
    InterpolateBetween(s[lo], s[Min(lo + 1, |s| - 1)], x - lo as real);
  }

  lemma AtMonotone(s: seq<real>, x: real, y: real)
    requires s != [] && Sorted(s) && 0.0 <= x <= y <= (|s| - 1) as real
    ensures At(s, x) <= At(s, y)
  {
    var i, j := x.Floor, y.Floor;
    if i == j {
      InterpolateMonotone(s[i], s[Min(i + 1, |s| - 1)], x - i as real, y - j as real);
    } else {
      AtBetween(s, x);
      AtBetween(s, y);
      assert i + 1 <= j;
    }
  }

  /** A percentile of a nonempty sorted sample lies between its extremes, and reaches them at 0 and 100. */
  lemma PercentileWithinSample(s: seq<real>, p: nat)
    requires s != [] && Sorted(s) && p <= 100
    ensures s[0] <= Percentile(s, p) <= s[|s| - 1]
    ensures Percentile(s, 0) == s[0] && Percentile(s, 100) == s[|s| - 1]
  {
    AtBetween(s, Position(p, |s|));
    assert Position(0, |s|) == 0.0;
    assert Position(100, |s|) == (|s| - 1) as real;
  }

  /**
   * The percentile itself: with p * (n - 1) split into i hundreds and r more, it lies r hundredths of the
   * way from sample i to the next one.
   */
  lemma PercentileIs(s: seq<real>, p: nat, hundredths: nat, i: nat, r: nat)
    requires s != [] && p <= 100 && hundredths == p * (|s| - 1) && hundredths == 100 * i + r && r < 100
    ensures i < |s| && (i == |s| - 1 ==> r == 0)
    ensures i < |s| - 1 ==> 100.0 * Percentile(s, p) == (100 - r) as real * s[i] + r as real * s[i + 1]
    ensures i == |s| - 1 ==> Percentile(s, p) == s[i]
  {
    var x := Position(p, |s|);
    PositionIs(p, |s|, hundredths);
    assert x == i as real + r as real / 100.0;
    assert x.Floor == i;
  }

  /** The percentile of no samples is zero. */
  lemma NoSamplesPercentile(p: nat)
    requires p <= 100
    ensures Percentile([], p) == 0.0
  {
  }

  lemma PositionIs(p: nat, n: nat, hundredths: nat)
    requires n > 0 && p <= 100 && hundredths == p * (n - 1)
    ensures Position(p, n) == hundredths as real / 100.0
  {
    var a, b := p as real, (n - 1) as real;
    assert a * b == hundredths as real;
    assert a / 100.0 * b == a * b / 100.0;
  }

  /** Percentiles grow with p. */
  lemma PercentileMonotone(s: seq<real>, p: nat, q: nat)
    requires Sorted(s) && p <= q <= 100
    ensures Percentile(s, p) <= Percentile(s, q)
  {
    if s != [] {
      Scaled(p as real / 100.0, q as real / 100.0, (|s| - 1) as real);
      AtMonotone(s, Position(p, |s|), Position(q, |s|));
    }
  }

  // ---------------------------------------------------------------------------
  // Sorting the window
  // ---------------------------------------------------------------------------

  function Insert(x: real, s: seq<real>): (r: seq<real>)
    requires Sorted(s)
    ensures Sorted(r) && multiset(r) == multiset(s) + multiset{x}
  {
    if s == [] then [x]
    else if x <= s[0] then [x] + s
    else
      assert s == [s[0]] + s[1..];
      var rest := Insert(x, s[1..]);
      InsertedAbove(s[0], x, s[1..], rest);
      [s[0]] + rest
  }

  lemma InsertedAbove(low: real, x: real, s: seq<real>, r: seq<real>)
    requires multiset(r) == multiset(s) + multiset{x}
    requires low <= x && forall y :: y in s ==> low <= y
    ensures forall i :: 0 <= i < |r| ==> low <= r[i]
  {
    forall i | 0 <= i < |r| ensures low <= r[i] {
      assert r[i] in multiset(r);
      assert r[i] in s || r[i] == x;
    }
  }

  /** Python's sorted() */
  function SortedCopy(s: seq<real>): (r: seq<real>)
    ensures Sorted(r) && multiset(r) == multiset(s)
  {
    if s == [] then []
    else
      assert s == s[..|s| - 1] + [s[|s| - 1]];
      Insert(s[|s| - 1], SortedCopy(s[..|s| - 1]))
  }

  // ---------------------------------------------------------------------------
  // The module's counters and window
  // ---------------------------------------------------------------------------

  /** The last 500 of a list of durations. */
  function Window(recorded: seq<real>): (w: seq<real>)
    ensures |w| == Min(|recorded|, LATENCY_WINDOW)
  {
    recorded[Max(0, |recorded| - LATENCY_WINDOW)..]
  }

  datatype Latencies = NoSamples | Latencies(p50: real, p95: real, p99: real, count: nat)

  function Summarize(samples: seq<real>): Latencies {
    var s := SortedCopy(samples);
    if samples == [] then NoSamples
    else Latencies(Percentile(s, 50), Percentile(s, 95), Percentile(s, 99), |samples|)
  }

  /** The window is everything recorded, up to the last 500. */
  lemma WindowIs(recorded: seq<real>)
    ensures |recorded| <= 500 ==> Window(recorded) == recorded
    ensures |recorded| > 500 ==> Window(recorded) == recorded[|recorded| - 500..]
  {
  }

  /** The percentiles shown are the 50th, 95th and 99th of the sorted samples, and the count is theirs. */
  lemma SummaryIs(samples: seq<real>)
    ensures samples == [] ==> Summarize(samples) == NoSamples
    ensures samples != [] ==>
              var sorted := SortedCopy(samples);
              Summarize(samples)
              == Latencies(Percentile(sorted, 50), Percentile(sorted, 95), Percentile(sorted, 99), |samples|)
  {
  }

  lemma SortedCopyLength(s: seq<real>)
    ensures |SortedCopy(s)| == |s|
  {
    assert |multiset(SortedCopy(s))| == |multiset(s)|;
  }

  /** Any snapshot with samples has min <= p50 <= p95 <= p99 <= max over the recorded window, of at most 500 samples. */
  lemma SnapshotOrdered(recorded: seq<real>)
    requires recorded != []
    ensures var window, l := Window(recorded), Summarize(Window(recorded));
            && l.Latencies? && 1 <= l.count <= LATENCY_WINDOW
            && l.p50 <= l.p95 <= l.p99
            && (exists x :: x in window && x <= l.p50) && (exists x :: x in window && l.p99 <= x)
  {
    var window := Window(recorded);
    var s := SortedCopy(window);
    SortedCopyLength(window);
    PercentileWithinSample(s, 50);
    PercentileWithinSample(s, 99);
    PercentileMonotone(s, 50, 95);
    PercentileMonotone(s, 95, 99);
    assert s[0] in multiset(s) && s[|s| - 1] in multiset(s);
    assert s[0] in window && s[|s| - 1] in window;
  }

  // ---------------------------------------------------------------------------
  // Counters and gauges
  // ---------------------------------------------------------------------------

  /** One call of inc or dec. */
  datatype Op =
    | Inc(key: string, amount: real)
    | Dec(key: string, amount: real)

  /** What was added to a counter minus what was taken from it. */
  function Net(ops: seq<Op>, key: string): real {
    if ops == [] then 0.0
    else
      var before, last := Net(ops[..|ops| - 1], key), ops[|ops| - 1];
      if last.key != key then before
      else if last.Inc? then before + last.amount
      else before - last.amount
  }

  /** The value of a counter, which a dec never takes below zero. */
  function Level(ops: seq<Op>, key: string): real {
    if ops == [] then 0.0
    else Stepped(Level(ops[..|ops| - 1], key), key, ops[|ops| - 1])
  }

  function Stepped(level: real, key: string, op: Op): real {
    if op.key != key then level
    else if op.Inc? then level + op.amount
    else Floored(level - op.amount)
  }

  function Floored(x: real): real {
    if x < 0.0 then 0.0 else x
  }

  /** The last of the first n calls took the counter's net amount down, to x below zero or lower. */
  ghost predicate ShortBy(ops: seq<Op>, key: string, n: nat, x: real)
    requires 0 < n <= |ops|
  {
    ops[n - 1].Dec? && ops[n - 1].key == key && Net(ops[..n], key) <= -x
  }

  /** The largest x by which some dec has left the net amount below zero; 0 if none has. */
  ghost predicate IsShortfall(ops: seq<Op>, key: string, x: real) {
    && 0.0 <= x
    && (x > 0.0 ==> exists n :: 0 < n <= |ops| && ShortBy(ops, key, n, x))
    && forall n, y :: 0 < n <= |ops| && ShortBy(ops, key, n, y) ==> y <= x
  }

  lemma ShortByLonger(ops: seq<Op>, op: Op, key: string, n: nat, x: real)
    requires 0 < n <= |ops|
    ensures ShortBy(ops + [op], key, n, x) <==> ShortBy(ops, key, n, x)
  {
    assert (ops + [op])[..n] == ops[..n];
  }

  /**
   * A gauge is its net amount plus its largest shortfall: what the floor at zero has swallowed stays
   * on the gauge for good.
   */
  lemma {:induction false} GaugeIsNetPlusShortfall(ops: seq<Op>, key: string)
    ensures IsShortfall(ops, key, Level(ops, key) - Net(ops, key))
  {
    if ops != [] {
      var init, last, n := ops[..|ops| - 1], ops[|ops| - 1], |ops|;
      var x, x' := Level(init, key) - Net(init, key), Level(ops, key) - Net(ops, key);
      GaugeIsNetPlusShortfall(init, key);
      assert ops == init + [last] && ops[..n] == ops;
      forall m, y | 0 < m <= n && ShortBy(ops, key, m, y) ensures y <= x' {
        if m < n {
          ShortByLonger(init, last, key, m, y);
        }
      }
      if x' > 0.0 {
        if x' == x {
          var m :| 0 < m <= |init| && ShortBy(init, key, m, x);
          ShortByLonger(init, last, key, m, x);
        } else {
          assert ShortBy(ops, key, n, x');
        }
      }
    }
  }

  /** So a gauge shows what was added minus what was taken exactly when no dec ever took more than had been added. */
  lemma GaugeIsNetIff(ops: seq<Op>, key: string)
    ensures Level(ops, key) == Net(ops, key)
       <==> forall n :: 0 < n <= |ops| && ops[n - 1].Dec? && ops[n - 1].key == key ==> Net(ops[..n], key) >= 0.0
  {
    var x := Level(ops, key) - Net(ops, key);
    GaugeIsNetPlusShortfall(ops, key);
    forall n | 0 < n <= |ops| && ops[n - 1].Dec? && ops[n - 1].key == key && x == 0.0
      ensures Net(ops[..n], key) >= 0.0 {
      assert ShortBy(ops, key, n, -Net(ops[..n], key));
    }
  }

  datatype Snapshot = Snapshot(counters: map<string, real>, latencies: Latencies)

  function Count(counters: map<string, real>, key: string): real {
    if key in counters then counters[key] else 0.0
  }

  ghost function Touched(ops: seq<Op>): set<string> {
    set op | op in ops :: op.key
  }

  /** The declared counters and the ones used so far, each at its level. */
  ghost predicate Counts(counters: map<string, real>, declared: set<string>, ops: seq<Op>) {
    && counters.Keys == declared + Touched(ops)
    && forall key :: Count(counters, key) == Level(ops, key)
  }

  lemma CountsNext(counters: map<string, real>, declared: set<string>, ops: seq<Op>, op: Op)
    requires Counts(counters, declared, ops)
    ensures Counts(counters[op.key := Stepped(Count(counters, op.key), op.key, op)], declared, ops + [op])
  {
    var counters' := counters[op.key := Stepped(Count(counters, op.key), op.key, op)];
    assert (ops + [op])[..|ops|] == ops;
    assert Touched(ops + [op]) == Touched(ops) + {op.key};
    forall key ensures Count(counters', key) == Level(ops + [op], key) {
      assert Level(ops + [op], key) == Stepped(Level(ops, key), key, op);
      assert Count(counters, key) == Level(ops, key);
    }
  }

  class Metrics {
    var samples: seq<real>
    var counters: map<string, real>
    ghost const declared: set<string>   // the counters the module starts with, at zero
    ghost var ops: seq<Op>
    ghost var recorded: seq<real>

    ghost predicate Valid()
      reads this
    {
      && samples == Window(recorded)
      && Counts(counters, declared, ops)
    }

    constructor (names: set<string>)
      ensures Valid() && declared == names && recorded == [] && ops == []
    {
      samples, recorded, ops := [], [], [];
      declared, counters := names, map k | k in names :: 0.0;
    }

    method Inc(key: string, amount: real)
      requires Valid()
      modifies this`counters, this`ops
      ensures Valid() && ops == old(ops) + [Op.Inc(key, amount)]
    {
      CountsNext(counters, declared, ops, Op.Inc(key, amount));
      counters := counters[key := Count(counters, key) + amount];
      ops := ops + [Op.Inc(key, amount)];
    }

    /** Gauges never show less than zero. */
    method Dec(key: string, amount: real)
      requires Valid()
      modifies this`counters, this`ops
      ensures Valid() && ops == old(ops) + [Op.Dec(key, amount)]
    {
      CountsNext(counters, declared, ops, Op.Dec(key, amount));
      counters := counters[key := Floored(Count(counters, key) - amount)];
      ops := ops + [Op.Dec(key, amount)];
    }

    /** Appends to the window, which drops its first duration when full. */
    method RecordQueryDuration(ms: real)
      requires Valid()
      modifies this`samples, this`recorded
      ensures Valid() && recorded == old(recorded) + [ms]
    {
      if |samples| == LATENCY_WINDOW {
        samples := samples[1..];
      }
      samples := samples + [ms];
      recorded := recorded + [ms];
    }

    method GetSnapshot() returns (s: Snapshot)
      requires Valid()
      ensures s.latencies == Summarize(Window(recorded))
      ensures Counts(s.counters, declared, ops)
    {
      var sorted := SortedCopy(samples);
      if samples == [] {
        return Snapshot(counters, NoSamples);
      }
      SortedCopyLength(samples);
      s := Snapshot(counters, Latencies(Percentile(sorted, 50), Percentile(sorted, 95), Percentile(sorted, 99),
                                        |samples|));
    }
  }
}
