/**
 * Model of the recursive trace bounder in server/app/core/orchestration_trace.py and of the
 * dedupe-and-cap loop of set_trust_propagation.
 */
module TraceBounds {
  import opened Common

  const MAX_LIST := 20
  const MAX_STR := 200
  const MAX_KEYS := 30
  const MAX_KEY_STR := 80
  const MAX_CHAIN := 8
  const ELLIPSIS: char := '\U{2026}'

  /**
   * A nested value. A dict keeps its items in order, each key as its printed text: keys of
   * different types may print alike, so only an output has distinct keys. `Other` is any
   * object that is neither a scalar, a string, a dict nor a sequence, by its printed text.
   */
  datatype Value =
    | Null
    | Scalar(bits: int)            // bool, int or float, passed through
    | Str(text: string)
    | Dict(items: seq<(string, Value)>)
    | List(elems: seq<Value>)      // list or tuple
    | Other(text: string)

  /** _safe_str */
  function SafeStr(s: string, maxLen: nat): (r: string)
    ensures |r| <= maxLen + 1
    ensures |s| <= maxLen ==> r == s
    ensures |s| > maxLen ==> |r| == maxLen + 1 && r[..maxLen] == s[..maxLen] && r[maxLen] == ELLIPSIS
  {
    if |s| > maxLen then s[..maxLen] + [ELLIPSIS] else s
  }

  // ---------------------------------------------------------------------------
  // Insertion into an ordered dict: a repeated key keeps its place and takes the new value
  // ---------------------------------------------------------------------------

  function Assign(d: seq<(string, Value)>, k: string, v: Value): (r: seq<(string, Value)>)
    ensures |d| <= |r| <= |d| + 1
    ensures forall i :: 0 <= i < |r| ==> (r[i].0 == k && r[i].1 == v) || r[i] in d
  {
    if d == [] then [(k, v)]
    else if d[0].0 == k then [(k, v)] + d[1..]
    else [d[0]] + Assign(d[1..], k, v)
  }

  ghost predicate DistinctKeys(d: seq<(string, Value)>) {
    forall i, j :: 0 <= i < j < |d| ==> d[i].0 != d[j].0
  }

  ghost predicate HasKey(d: seq<(string, Value)>, k: string) {
    exists i :: 0 <= i < |d| && d[i].0 == k
  }

  lemma {:induction false} AssignKeys(d: seq<(string, Value)>, k: string, v: Value, other: string)
    ensures HasKey(Assign(d, k, v), other) ==> other == k || HasKey(d, other)
  {
    if HasKey(Assign(d, k, v), other) && other != k {
      var i :| 0 <= i < |Assign(d, k, v)| && Assign(d, k, v)[i].0 == other;
      assert Assign(d, k, v)[i] in d;
    }
  }

  lemma {:induction false} AssignDistinct(d: seq<(string, Value)>, k: string, v: Value)
    requires DistinctKeys(d)
    ensures DistinctKeys(Assign(d, k, v))
  {
    if d != [] && d[0].0 != k {
      assert DistinctKeys(d[1..]);
      AssignDistinct(d[1..], k, v);
      AssignKeys(d[1..], k, v, d[0].0);
      var rest := Assign(d[1..], k, v);
      forall i | 0 <= i < |rest| ensures rest[i].0 != d[0].0 {
        assert HasKey(rest, rest[i].0);
      }
    }
  }

  lemma {:induction false} AssignNewKey(d: seq<(string, Value)>, k: string, v: Value)
    requires forall i :: 0 <= i < |d| ==> d[i].0 != k
    ensures Assign(d, k, v) == d + [(k, v)]
  {
    if d != [] {
      AssignNewKey(d[1..], k, v);
    }
  }

  // ---------------------------------------------------------------------------
  // _safe_val
  // ---------------------------------------------------------------------------

  function SafeVal(v: Value): Value
    decreases v, 1
  {
    match v
    case Null => v
    case Scalar(_) => v
    case Str(s) => Str(SafeStr(s, MAX_STR))
    case Dict(items) => Dict(SafeItems(v, Min(|items|, MAX_KEYS)))
    case List(elems) => List(seq(Min(|elems|, MAX_LIST), i requires 0 <= i < |elems| => SafeVal(elems[i])))
    case Other(s) => Str(SafeStr(s, MAX_STR))
  }

  /** The dict comprehension over the first n items of a dict. */
  function SafeItems(v: Value, n: nat): (r: seq<(string, Value)>)
    requires v.Dict? && n <= |v.items|
    ensures |r| <= n
    decreases v, 0, n
  {
    if n == 0 then []
    else Assign(SafeItems(v, n - 1), SafeStr(v.items[n - 1].0, MAX_KEY_STR), SafeVal(v.items[n - 1].1))
  }

  // ---- What is kept ----------------------------------------------------------

  /** A text of up to 200 characters stays; a longer one keeps its first 200, and an ellipsis follows. */
  lemma TextsKept(s: string, v: Value)
    requires v == Str(s) || v == Other(s)
    ensures |s| <= 200 ==> SafeVal(v) == Str(s)
    ensures |s| > 200 ==> SafeVal(v) == Str(s[..200] + ['\U{2026}'])
  {
  }

  /** Scalars pass; a list keeps its first 20 elements, each bounded in its own place. */
  lemma ElementsKept(v: Value, i: nat)
    ensures v == Null || v.Scalar? ==> SafeVal(v) == v
    ensures v.List? ==>
              && SafeVal(v).List? && |SafeVal(v).elems| == (if |v.elems| < 20 then |v.elems| else 20)
              && (i < |SafeVal(v).elems| ==> SafeVal(v).elems[i] == SafeVal(v.elems[i]))
  {
  }

  /** A repeated key keeps its place and takes the new value; a new one comes last. */
  lemma {:induction false} AssignIs(d: seq<(string, Value)>, k: string, v: Value, i: nat)
    requires i < |d| ==> d[i].0 == k
    requires forall j :: 0 <= j < i && j < |d| ==> d[j].0 != k
    ensures Assign(d, k, v) == if i < |d| then d[i := (k, v)] else d + [(k, v)]
  {
    if d != [] && i > 0 {
      AssignIs(d[1..], k, v, i - 1);
    }
  }

  /** A dict keeps its first 30 items, assigned one after the other: keys cut to 80 characters, values bounded. */
  lemma ItemsKept(items: seq<(string, Value)>)
    ensures |items| > 30 ==> SafeVal(Dict(items)) == SafeVal(Dict(items[..30]))
    ensures items == [] ==> SafeVal(Dict(items)) == Dict([])
    ensures 0 < |items| <= 30 ==>
              var (init, last) := (items[..|items| - 1], items[|items| - 1]);
              var key := if |last.0| <= 80 then last.0 else last.0[..80] + ['\U{2026}'];
              && SafeVal(Dict(init)).Dict?
              && SafeVal(Dict(items)) == Dict(Assign(SafeVal(Dict(init)).items, key, SafeVal(last.1)))
  {
    if |items| > 30 {
      ItemsPrefix(items, items[..30], 30);
    } else if items != [] {
      ItemsPrefix(items, items[..|items| - 1], |items| - 1);
    }
  }

  lemma {:induction false} ItemsPrefix(items: seq<(string, Value)>, shorter: seq<(string, Value)>, n: nat)
    requires n <= |shorter| <= |items| && shorter <= items
    ensures SafeItems(Dict(items), n) == SafeItems(Dict(shorter), n)
  {
    if n > 0 {
      ItemsPrefix(items, shorter, n - 1);
    }
  }

  // ---------------------------------------------------------------------------
  // Which values are already bounded
  // ---------------------------------------------------------------------------

  /** At most maxLen characters, or exactly one more ending in the ellipsis. */
  predicate ShortText(s: string, maxLen: nat) {
    |s| <= maxLen || (|s| == maxLen + 1 && s[maxLen] == ELLIPSIS)
  }

  /** Strings of at most 201 characters, keys distinct and of at most 81, at most 20 elements, at most 30 items. */
  ghost predicate Bounded(v: Value)
    decreases v
  {
    match v
    case Null => true
    case Scalar(_) => true
    case Str(s) => ShortText(s, MAX_STR)
    case Other(_) => false
    case List(elems) => |elems| <= MAX_LIST && forall i :: 0 <= i < |elems| ==> Bounded(elems[i])
    case Dict(items) =>
      && |items| <= MAX_KEYS && DistinctKeys(items)
      && (forall i :: 0 <= i < |items| ==> ShortText(items[i].0, MAX_KEY_STR))
      && forall i :: 0 <= i < |items| ==> Bounded(items[i].1)
  }

  lemma ShortTextFixed(s: string, maxLen: nat)
    ensures ShortText(SafeStr(s, maxLen), maxLen)
    ensures ShortText(s, maxLen) ==> SafeStr(s, maxLen) == s
  {
  }

  /** Output item `out` is the bounded form of one of the first n input items. */
  ghost predicate FromItem(v: Value, n: nat, out: (string, Value))
    requires v.Dict? && n <= |v.items|
  {
    exists j :: 0 <= j < n && out == (SafeStr(v.items[j].0, MAX_KEY_STR), SafeVal(v.items[j].1))
  }

  /** Every item of the output dict comes from one of the input items. */
  lemma {:induction false} SafeItemsFrom(v: Value, n: nat)
    requires v.Dict? && n <= |v.items|
    ensures DistinctKeys(SafeItems(v, n))
    ensures forall i :: 0 <= i < |SafeItems(v, n)| ==> FromItem(v, n, SafeItems(v, n)[i])
  {
    if n > 0 {
      var before, k, w := SafeItems(v, n - 1), SafeStr(v.items[n - 1].0, MAX_KEY_STR), SafeVal(v.items[n - 1].1);
      SafeItemsFrom(v, n - 1);
      AssignDistinct(before, k, w);
      var out := Assign(before, k, w);
      forall i | 0 <= i < |out| ensures FromItem(v, n, out[i]) {
        if out[i].0 == k && out[i].1 == w {
          assert out[i] == (SafeStr(v.items[n - 1].0, MAX_KEY_STR), SafeVal(v.items[n - 1].1));
        } else {
          assert out[i] in before && FromItem(v, n - 1, out[i]);
        }
      }
    }
  }

  /** The output always obeys the bounds. */
  lemma {:induction false} SafeValBounded(v: Value)
    ensures Bounded(SafeVal(v))
    decreases v
  {
    match v
    case Null =>
    case Scalar(_) =>
    case Str(s) => ShortTextFixed(s, MAX_STR);
    case Other(s) => ShortTextFixed(s, MAX_STR);
    case List(elems) =>
      forall i | 0 <= i < Min(|elems|, MAX_LIST) ensures Bounded(SafeVal(elems[i])) {
        SafeValBounded(elems[i]);
      }
    case Dict(items) =>
      var n := Min(|items|, MAX_KEYS);
      var out := SafeItems(v, n);
      SafeItemsFrom(v, n);
      forall i | 0 <= i < |out| ensures ShortText(out[i].0, MAX_KEY_STR) && Bounded(out[i].1) {
        assert FromItem(v, n, out[i]);
        var j :| 0 <= j < n && out[i] == (SafeStr(items[j].0, MAX_KEY_STR), SafeVal(items[j].1));
        ShortTextFixed(items[j].0, MAX_KEY_STR);
        SafeValBounded(items[j].1);
      }
  }

  lemma {:induction false} BoundedItemsFixed(v: Value, n: nat)
    requires v.Dict? && n <= |v.items| && DistinctKeys(v.items)
    requires forall i :: 0 <= i < n ==> ShortText(v.items[i].0, MAX_KEY_STR) && SafeVal(v.items[i].1) == v.items[i].1
    ensures SafeItems(v, n) == v.items[..n]
  {
    if n > 0 {
      BoundedItemsFixed(v, n - 1);
      ShortTextFixed(v.items[n - 1].0, MAX_KEY_STR);
      AssignNewKey(v.items[..n - 1], v.items[n - 1].0, v.items[n - 1].1);
    }
  }

  /** The bounder changes nothing exactly on values that already obey the bounds. */
  lemma {:induction false} FixedIffBounded(v: Value)
    ensures SafeVal(v) == v <==> Bounded(v)
    decreases v
  {
    SafeValBounded(v);
    if Bounded(v) {
      match v
      case Null =>
      case Scalar(_) =>
      case Str(s) => ShortTextFixed(s, MAX_STR);
      case List(elems) =>
        forall i | 0 <= i < |elems| ensures SafeVal(elems[i]) == elems[i] {
          FixedIffBounded(elems[i]);
        }
        assert SafeVal(v).elems == elems;
      case Dict(items) =>
        forall i | 0 <= i < |items| ensures SafeVal(items[i].1) == items[i].1 {
          FixedIffBounded(items[i].1);
        }
        BoundedItemsFixed(v, |items|);
        assert items[..|items|] == items;
    }
  }

  /** Bounding twice is bounding once. */
  lemma SafeValIdempotent(v: Value)
    ensures SafeVal(SafeVal(v)) == SafeVal(v)
  {
    SafeValBounded(v);
    FixedIffBounded(SafeVal(v));
  }

  // ---------------------------------------------------------------------------
  // Size
  // ---------------------------------------------------------------------------

  /** The values directly inside a container. */
  function Child(v: Value, i: nat): (c: Value)
    requires (v.List? && i < |v.elems|) || (v.Dict? && i < |v.items|)
    ensures c < v
  {
    if v.List? then v.elems[i] else v.items[i].1
  }

  function ChildCount(v: Value): nat {
    match v
    case List(elems) => |elems|
    case Dict(items) => |items|
    case _ => 0
  }

  /** Nodes of the first n children, and of the whole value. */
  function NodesIn(v: Value, n: nat): nat
    requires n <= ChildCount(v)
    decreases v, 0, n
  {
    if n == 0 then 0 else NodesIn(v, n - 1) + Nodes(Child(v, n - 1))
  }

  function Nodes(v: Value): nat
    decreases v, 1
  {
    1 + NodesIn(v, ChildCount(v))
  }

  function DepthIn(v: Value, n: nat): nat
    requires n <= ChildCount(v)
    decreases v, 0, n
  {
    if n == 0 then 0 else Max(DepthIn(v, n - 1), Depth(Child(v, n - 1)) + 1)
  }

  /** Nesting depth: 0 for a value without children. */
  function Depth(v: Value): nat
    decreases v, 1
  {
    DepthIn(v, ChildCount(v))
  }

  lemma NodesInNext(v: Value, n: nat)
    requires n < ChildCount(v)
    ensures NodesIn(v, n + 1) == NodesIn(v, n) + Nodes(Child(v, n))
  {
  }

  /** A value without children is one node; one more child adds its own nodes. */
  lemma NodesAdd(v: Value, w: Value, n: nat)
    requires n == ChildCount(v) && ChildCount(w) == n + 1 && forall i :: 0 <= i < n ==> Child(v, i) == Child(w, i)
    ensures n == 0 ==> Nodes(v) == 1
    ensures Nodes(w) == Nodes(v) + Nodes(Child(w, n))
  {
    SameNodesIn(v, w, n);
    NodesInNext(w, n);
    assert Nodes(w) == 1 + NodesIn(w, n + 1) && Nodes(v) == 1 + NodesIn(v, n);
  }

  lemma {:induction false} SameNodesIn(v: Value, w: Value, n: nat)
    requires n <= ChildCount(v) <= ChildCount(w) && forall i :: 0 <= i < n ==> Child(v, i) == Child(w, i)
    ensures NodesIn(v, n) == NodesIn(w, n)
  {
    if n > 0 {
      SameNodesIn(v, w, n - 1);
    }
  }

  /** 1 + 30 + 30^2 + ... + 30^d */
  function Geometric(d: nat): nat {
    if d == 0 then 1 else 1 + MAX_KEYS * Geometric(d - 1)
  }

  function Pow(b: nat, e: nat): nat {
    if e == 0 then 1 else b * Pow(b, e - 1)
  }

  lemma {:induction false} GeometricClosedForm(d: nat)
    ensures 29 * Geometric(d) == Pow(30, d + 1) - 1
  {
    if d > 0 {
      GeometricClosedForm(d - 1);
    } else {
      assert Pow(30, 1) == 30 * Pow(30, 0);
    }
  }

  lemma {:induction false} ChildDepth(v: Value, n: nat, i: nat)
    requires i < n <= ChildCount(v)
    ensures Depth(Child(v, i)) + 1 <= DepthIn(v, n)
  {
    if i < n - 1 {
      ChildDepth(v, n - 1, i);
    }
  }

  lemma {:induction false} DepthInBound(v: Value, n: nat, d: nat)
    requires n <= ChildCount(v) && forall i :: 0 <= i < n ==> Depth(Child(v, i)) + 1 <= d
    ensures DepthIn(v, n) <= d
  {
    if n > 0 {
      DepthInBound(v, n - 1, d);
    }
  }

  lemma {:induction false} NodesInBound(v: Value, n: nat, each: nat)
    requires n <= ChildCount(v) && forall i :: 0 <= i < n ==> Nodes(Child(v, i)) <= each
    ensures NodesIn(v, n) <= n * each
  {
    if n > 0 {
      NodesInBound(v, n - 1, each);
      assert n * each == (n - 1) * each + each;
    }
  }

  lemma {:induction false} GeometricMonotone(a: nat, b: nat)
    requires a <= b
    ensures Geometric(a) <= Geometric(b)
    decreases b
  {
    if a < b {
      GeometricMonotone(a, b - 1);
      assert Geometric(b) == 1 + MAX_KEYS * Geometric(b - 1);
    }
  }

  lemma BoundedChild(v: Value, i: nat)
    requires Bounded(v) && i < ChildCount(v)
    ensures Bounded(Child(v, i)) && ChildCount(v) <= MAX_KEYS
  {
  }

  lemma WideEnough(n: nat, each: nat)
    requires n <= MAX_KEYS
    ensures n * each <= MAX_KEYS * each
  {
  }

  lemma {:induction false} BoundedNodes(v: Value)
    requires Bounded(v)
    ensures Nodes(v) <= Geometric(Depth(v))
    decreases v
  {
    var n := ChildCount(v);
    if n > 0 {
      ChildDepth(v, n, 0);
      BoundedChild(v, 0);
      var each := Geometric(Depth(v) - 1);
      forall i | 0 <= i < n ensures Nodes(Child(v, i)) <= each {
        BoundedChild(v, i);
        BoundedNodes(Child(v, i));
        ChildDepth(v, n, i);
        GeometricMonotone(Depth(Child(v, i)), Depth(v) - 1);
      }
      NodesInBound(v, n, each);
      WideEnough(n, each);
    }
  }

  /** Each child of the output is the output of some child of the input. */
  lemma OutputChild(v: Value, i: nat) returns (j: nat)
    requires i < ChildCount(SafeVal(v))
    ensures j < ChildCount(v) && Child(SafeVal(v), i) == SafeVal(Child(v, j))
  {
    match v
    case List(_) => j := i;
    case Dict(items) =>
      var n := Min(|items|, MAX_KEYS);
      SafeItemsFrom(v, n);
      var out := SafeItems(v, n);
      assert FromItem(v, n, out[i]);
      var k :| 0 <= k < n && out[i] == (SafeStr(items[k].0, MAX_KEY_STR), SafeVal(items[k].1));
      j := k;
  }

  lemma {:induction false} SafeValNoDeeper(v: Value)
    ensures Depth(SafeVal(v)) <= Depth(v)
    decreases v
  {
    var out := SafeVal(v);
    forall i | 0 <= i < ChildCount(out) ensures Depth(Child(out, i)) + 1 <= Depth(v) {
      var j := OutputChild(v, i);
      SafeValNoDeeper(Child(v, j));
      ChildDepth(v, ChildCount(v), j);
    }
    DepthInBound(out, ChildCount(out), Depth(v));
  }

  lemma SafeValGeometric(v: Value)
    ensures Nodes(SafeVal(v)) <= Geometric(Depth(v))
  {
    var out := SafeVal(v);
    SafeValBounded(v);
    BoundedNodes(out);
    SafeValNoDeeper(v);
    GeometricMonotone(Depth(out), Depth(v));
  }

  /** A value nested d deep keeps at most (30^(d+1) - 1) / 29 nodes, however wide it was. */
  lemma SafeValSize(v: Value, d: nat)
    requires d == Depth(v)
    ensures 29 * Nodes(SafeVal(v)) <= Pow(30, d + 1) - 1
  {
    var n := Nodes(SafeVal(v));
    SafeValGeometric(v);
    GeometricClosedForm(d);
    assert n <= Geometric(d);
  }

  // ---------------------------------------------------------------------------
  // The degradation chain
  // ---------------------------------------------------------------------------

  /** The distinct codes of a chain, in order of first occurrence. */
  function Deduplicated(chain: seq<string>): seq<string> {
    if chain == [] then []
    else
      var before, last := Deduplicated(chain[..|chain| - 1]), chain[|chain| - 1];
      if last in before then before else before + [last]
  }

  lemma {:induction false} DeduplicatedPrefix(chain: seq<string>, n: nat)
    requires n <= |chain|
    ensures Deduplicated(chain[..n]) <= Deduplicated(chain)
    decreases |chain|
  {
    if n < |chain| {
      var init := chain[..|chain| - 1];
      DeduplicatedPrefix(init, n);
      assert init[..n] == chain[..n];
    } else {
      assert chain[..n] == chain;
    }
  }

  lemma {:induction false} DeduplicatedIsDistinct(chain: seq<string>)
    ensures Distinct(Deduplicated(chain)) && Elements(Deduplicated(chain)) == Elements(chain)
    ensures |Deduplicated(chain)| <= |chain|
  {
    if chain != [] {
      var init, last := chain[..|chain| - 1], chain[|chain| - 1];
      DeduplicatedIsDistinct(init);
      assert chain == init + [last];
      assert Elements(chain) == Elements(init) + {last};
      assert forall x :: x in Deduplicated(chain) <==> x in Deduplicated(init) || x == last;
      assert forall x :: x in Deduplicated(init) <==> x in Elements(Deduplicated(init));
    }
  }

  function Capped(s: seq<string>): seq<string> {
    if |s| > MAX_CHAIN then s[..MAX_CHAIN] else s
  }

  /** The chain kept is the distinct codes, up to the first eight. */
  lemma CappedIs(s: seq<string>)
    ensures |s| <= 8 ==> Capped(s) == s
    ensures |s| > 8 ==> Capped(s) == s[..8]
  {
  }

  lemma FlaggedIs(chain: seq<string>)
    ensures Flagged(chain) <==> |chain| > 8
  {
  }

  /** The loop that fills `_compact_chain`, stopping once it holds eight codes. */
  method CompactChain(chain: seq<string>) returns (compact: seq<string>, truncated: bool)
    ensures compact == Capped(Deduplicated(chain))
    ensures truncated <==> Flagged(chain)
  {
    compact := [];
    var seen: set<string> := {};
    truncated := |chain| > MAX_CHAIN;
    for n := 0 to |chain|
      invariant compact == Deduplicated(chain[..n]) && |compact| < MAX_CHAIN
      invariant seen == Elements(compact)
    {
      assert chain[..n + 1][..n] == chain[..n];
      if chain[n] !in seen {
        seen := seen + {chain[n]};
        compact := compact + [chain[n]];
      }
      DeduplicatedPrefix(chain, n + 1);
      if |compact| >= MAX_CHAIN {
        return;
      }
    }
    assert chain[..|chain|] == chain;
  }

  /** What `chain_truncated` says, and what it is read as: that a code was dropped. */
  predicate Flagged(chain: seq<string>) {
    |chain| > MAX_CHAIN
  }

  ghost predicate Dropped(chain: seq<string>) {
    Elements(Capped(Deduplicated(chain))) != Elements(chain)
  }

  /** A code is dropped exactly when there are more than eight distinct ones. */
  lemma DroppedIff(chain: seq<string>)
    ensures Dropped(chain) <==> |Elements(chain)| > MAX_CHAIN
  {
    DeduplicatedIsDistinct(chain);
    CappedCardinality(Deduplicated(chain));
  }

  /** The flag is right exactly unless a chain of more than eight codes has at most eight distinct ones. */
  lemma TruncatedFlag(chain: seq<string>)
    ensures (Flagged(chain) <==> Dropped(chain)) <==> !(|chain| > MAX_CHAIN && |Elements(chain)| <= MAX_CHAIN)
  {
    DroppedIff(chain);
    DistinctCardinality(chain);
  }

  /** Nine times the same code: flagged, and nothing was dropped. */
  lemma RepetitionIsFlagged(chain: seq<string>)
    requires chain == ["a", "a", "a", "a", "a", "a", "a", "a", "a"]
    ensures Flagged(chain) && !Dropped(chain)
  {
    assert chain[0] in Elements(chain) && Elements(chain) == {"a"};
    DroppedIff(chain);
  }

  lemma CappedCardinality(all: seq<string>)
    requires Distinct(all)
    ensures |Elements(all)| == |all|
    ensures Elements(Capped(all)) == Elements(all) <==> |all| <= MAX_CHAIN
  {
    DistinctCardinality(all);
    if |all| > MAX_CHAIN {
      DistinctCardinality(Capped(all));
    }
  }
}
