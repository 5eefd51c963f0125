/**
 * Model of server/app/core/response_cache.py: a bounded, expiring store ordered by
 * last insert or hit, with a fuzzy fallback, against the unbounded log of everything
 * that was accepted, hit or cleared.
 */
module ResponseCache {
  import opened Common

  const TTL_SECONDS := 600.0
  const MAX_ENTRIES := 500
  const FUZZY_SCAN_LAST_N := 50

  /** (container_id, normalised query) */
  datatype Key = Key(container: string, query: string)

  /** `body` stands for the fields the cache never looks at. */
  datatype Payload = Payload(answer: string, error: bool, body: string)

  datatype Entry = Entry(key: Key, payload: Payload, ts: real)

  /** Text functions the store is built over: normalisation, fuzzy similarity, the hollow-answer test. */
  datatype TextRules = TextRules(normalize: string -> string, similar: (string, string) -> bool,
                                 hollow: string -> bool) {
    function KeyFor(container: string, rawQuery: string): Key {
      Key(container, normalize(rawQuery))
    }

    predicate Similar(query: string, stored: string) {
      similar(query, stored)
    }

    /** Error responses and empty or hollow answers are never stored. */
    predicate Cacheable(p: Payload) {
      !p.error && p.answer != "" && !hollow(p.answer)
    }
  }

  predicate Expired(e: Entry, now: real) {
    now - e.ts > TTL_SECONDS
  }

  // ---------------------------------------------------------------------------
  // The store: entries from least to most recently touched
  // ---------------------------------------------------------------------------

  type Store = seq<Entry>

  function IndexOf(store: Store, key: Key): (r: Option<nat>)
    ensures r.Some? ==> r.value < |store| && store[r.value].key == key
    ensures r == None <==> forall i :: 0 <= i < |store| ==> store[i].key != key
  {
    if store == [] then None
    else if store[|store| - 1].key == key then Some(|store| - 1)
    else IndexOf(store[..|store| - 1], key)
  }

  function Without(store: Store, i: nat): Store
    requires i < |store|
  {
    store[..i] + store[i + 1..]
  }

  /** First position from `from` on holding a live, similar key of the container. */
  function FuzzyIndex(rules: TextRules, store: Store, now: real, key: Key, from: nat): (r: Option<nat>)
    requires from <= |store|
    ensures r.Some? ==> from <= r.value < |store| && FuzzyMatch(rules, store[r.value], now, key)
    ensures r == None ==> forall i :: from <= i < |store| ==> !FuzzyMatch(rules, store[i], now, key)
    decreases |store| - from
  {
    if from == |store| then None
    else if FuzzyMatch(rules, store[from], now, key) then Some(from)
    else FuzzyIndex(rules, store, now, key, from + 1)
  }

  predicate FuzzyMatch(rules: TextRules, e: Entry, now: real, key: Key) {
    e.key.container == key.container && !Expired(e, now) && rules.Similar(key.query, e.key.query)
  }

  datatype Lookup =
    | Miss
    | Stale(i: nat)   // exact key found but expired: deleted, and no fuzzy search
    | Exact(i: nat)
    | Fuzzy(i: nat)

  function Find(rules: TextRules, store: Store, now: real, key: Key): (r: Lookup)
    ensures !r.Miss? ==> r.i < |store|
  {
    match IndexOf(store, key)
    case Some(i) => if Expired(store[i], now) then Stale(i) else Exact(i)
    case None =>
      match FuzzyIndex(rules, store, now, key, Max(0, |store| - FUZZY_SCAN_LAST_N))
      case Some(i) => Fuzzy(i)
      case None => Miss
  }

  function AfterGet(store: Store, r: Lookup): Store
    requires !r.Miss? ==> r.i < |store|
  {
    match r
    case Miss => store
    case Stale(i) => Without(store, i)
    case Exact(i) => Without(store, i) + [store[i]]
    case Fuzzy(i) => Without(store, i) + [store[i]]
  }

  function Answer(store: Store, r: Lookup): Option<Payload>
    requires !r.Miss? ==> r.i < |store|
  {
    if r.Exact? || r.Fuzzy? then Some(store[r.i].payload) else None
  }

  /** The store after an accepted payload: its entry is last; a full store first drops its oldest. */
  function AfterSet(store: Store, e: Entry): Store {
    match IndexOf(store, e.key)
    case Some(i) => Without(store, i) + [e]
    case None => (if |store| >= MAX_ENTRIES then store[1..] else store) + [e]
  }

  // ---------------------------------------------------------------------------
  // The unbounded log
  // ---------------------------------------------------------------------------

  datatype Event =
    | Accepted(key: Key, payload: Payload, ts: real)
    | Hit(key: Key)
    | Cleared

  type Log = seq<Event>

  /** The latest payload accepted for the key since the last clear, with its time. */
  ghost function Latest(log: Log, key: Key): Option<(Payload, real)> {
    if log == [] then None
    else
      match log[|log| - 1]
      case Cleared => None
      case Accepted(k, p, ts) => if k == key then Some((p, ts)) else Latest(log[..|log| - 1], key)
      case Hit(_) => Latest(log[..|log| - 1], key)
  }

  /** The other keys inserted or hit since the key was last inserted or hit (or since the last clear). */
  ghost function OthersSince(log: Log, key: Key): (r: set<Key>)
    ensures key !in r
  {
    if log == [] then {}
    else
      var last := log[|log| - 1];
      if last.Cleared? || last.key == key then {}
      else OthersSince(log[..|log| - 1], key) + {last.key}
  }

  ghost predicate OnlyCacheable(rules: TextRules, log: Log) {
    forall i :: 0 <= i < |log| && log[i].Accepted? ==> rules.Cacheable(log[i].payload)
  }

  lemma LogGrows(log: Log, e: Event, key: Key)
    ensures Latest(log + [e], key) ==
            match e
            case Cleared => None
            case Accepted(k, p, ts) => if k == key then Some((p, ts)) else Latest(log, key)
            case Hit(_) => Latest(log, key)
    ensures OthersSince(log + [e], key) ==
            if e.Cleared? || e.key == key then {} else OthersSince(log, key) + {e.key}
  {
  }

  // ---------------------------------------------------------------------------
  // Store and log agree
  // ---------------------------------------------------------------------------

  ghost predicate DistinctKeys(store: Store) {
    forall i, j :: 0 <= i < j < |store| ==> store[i].key != store[j].key
  }

  /** Each later entry was inserted or hit after the earlier one last was. */
  ghost predicate ByLastTouch(store: Store, log: Log) {
    forall i, j :: 0 <= i < j < |store| ==> store[j].key in OthersSince(log, store[i].key)
  }

  ghost predicate Holds(log: Log, clock: real, e: Entry) {
    Latest(log, e.key) == Some((e.payload, e.ts)) && e.ts <= clock
  }

  /** An accepted key that is no longer stored has expired, or 500 other keys were touched since. */
  ghost predicate LostFairly(store: Store, log: Log, clock: real, key: Key) {
    Latest(log, key).Some? && IndexOf(store, key) == None ==>
      clock - Latest(log, key).value.1 > TTL_SECONDS || |OthersSince(log, key)| >= MAX_ENTRIES
  }

  /** What the store holds is right: size, order, and each payload the latest accepted one. */
  ghost predicate Sound(store: Store, log: Log, clock: real) {
    && DistinctKeys(store)
    && ByLastTouch(store, log)
    && forall i :: 0 <= i < |store| ==> Holds(log, clock, store[i])
  }

  ghost predicate Agrees(rules: TextRules, store: Store, log: Log, clock: real) {
    && |store| <= MAX_ENTRIES
    && Sound(store, log, clock)
    && OnlyCacheable(rules, log)
    && forall k :: LostFairly(store, log, clock, k)
  }

  lemma {:induction false} LatestIsCacheable(rules: TextRules, log: Log, key: Key)
    requires OnlyCacheable(rules, log) && Latest(log, key).Some?
    ensures rules.Cacheable(Latest(log, key).value.0)
  {
    var last := log[|log| - 1];
    if !(last.Accepted? && last.key == key) {
      LatestIsCacheable(rules, log[..|log| - 1], key);
    }
  }

  ghost function Keys(store: Store): set<Key> {
    set i | 0 <= i < |store| :: store[i].key
  }

  lemma {:induction false} KeysCardinality(store: Store)
    requires DistinctKeys(store)
    ensures |Keys(store)| == |store|
  {
    if store != [] {
      var rest, last := store[..|store| - 1], store[|store| - 1];
      KeysCardinality(rest);
      assert Keys(store) == Keys(rest) + {last.key};
      assert last.key !in Keys(rest);
    }
  }

  /** Eviction: 500 other keys, the incoming one included, were touched since the victim last was. */
  lemma EvictedIsStale(rules: TextRules, store: Store, log: Log, clock: real, e: Entry)
    requires Agrees(rules, store, log, clock) && |store| == MAX_ENTRIES && IndexOf(store, e.key) == None
    ensures |OthersSince(log + [Accepted(e.key, e.payload, e.ts)], store[0].key)| >= MAX_ENTRIES
    ensures forall i :: 0 < i < |store| ==> store[i].key in OthersSince(log, store[0].key)
  {
    var event := Accepted(e.key, e.payload, e.ts);
    LogGrows(log, event, store[0].key);
    var others := store[1..];
    KeysCardinality(others);
    var touched := Keys(others) + {e.key};
    assert |touched| == MAX_ENTRIES;
    assert touched <= OthersSince(log + [event], store[0].key);
    SubsetCardinality(touched, OthersSince(log + [event], store[0].key));
  }

  // ---------------------------------------------------------------------------
  // Every operation keeps the agreement
  // ---------------------------------------------------------------------------

  lemma WithoutAt(store: Store, i: nat, a: nat)
    requires i < |store| && a < |store| - 1
    ensures Without(store, i)[a] == store[if a < i then a else a + 1]
  {
  }

  lemma RemovalSound(store: Store, log: Log, clock: real, i: nat)
    requires Sound(store, log, clock) && i < |store|
    ensures Sound(Without(store, i), log, clock)
  {
  }

  lemma RemovalKeys(store: Store, i: nat, k: Key)
    requires i < |store|
    ensures IndexOf(Without(store, i), k) == None && IndexOf(store, k) != None ==> k == store[i].key
    ensures DistinctKeys(store) ==> IndexOf(Without(store, i), store[i].key) == None
  {
    if IndexOf(store, k).Some? && IndexOf(store, k).value != i {
      StillStored(store, i, IndexOf(store, k).value);
    }
    var rest := Without(store, i);
    forall a | 0 <= a < |rest| && DistinctKeys(store) ensures rest[a].key != store[i].key {
      WithoutAt(store, i, a);
    }
  }

  lemma StillStored(store: Store, i: nat, a: nat)
    requires i < |store| && a < |store| && a != i
    ensures IndexOf(Without(store, i), store[a].key) != None
  {
    WithoutAt(store, i, if a < i then a else a - 1);
  }

  /** The event that puts entry e last: it was just accepted, or just hit. */
  ghost predicate Touches(log: Log, event: Event, e: Entry) {
    || event == Accepted(e.key, e.payload, e.ts)
    || (event == Hit(e.key) && Latest(log, e.key) == Some((e.payload, e.ts)))
  }

  lemma AppendSound(store: Store, log: Log, clock: real, e: Entry, event: Event)
    requires Sound(store, log, clock) && Touches(log, event, e) && e.ts <= clock
    requires IndexOf(store, e.key) == None
    ensures Sound(store + [e], log + [event], clock)
  {
  }

  lemma AppendedKeys(store: Store, e: Entry, k: Key)
    ensures IndexOf(store + [e], k) == None <==> IndexOf(store, k) == None && k != e.key
  {
  }

  /** A later touch of another key only makes a loss fairer. */
  lemma LossStaysFair(store: Store, log: Log, clock: real, event: Event, k: Key, later: real)
    requires LostFairly(store, log, clock, k) && IndexOf(store, k) == None && clock <= later
    requires !event.Cleared? && event.key != k
    ensures Latest(log + [event], k).Some? ==>
              later - Latest(log + [event], k).value.1 > TTL_SECONDS || |OthersSince(log + [event], k)| >= MAX_ENTRIES
  {
    LogGrows(log, event, k);
    SubsetCardinality(OthersSince(log, k), OthersSince(log + [event], k));
  }

  lemma SoundLater(store: Store, log: Log, clock: real, later: real)
    requires Sound(store, log, clock) && clock <= later
    ensures Sound(store, log, later)
  {
  }

  /** Moving the touched entry to the end, old or new, keeps the agreement. */
  lemma TouchAgrees(rules: TextRules, store: Store, log: Log, clock: real, i: nat, e: Entry, event: Event, now: real)
    requires Agrees(rules, store, log, clock) && clock <= now && i < |store| && store[i].key == e.key
    requires Touches(log, event, e) && e.ts <= now && (event.Accepted? ==> rules.Cacheable(event.payload))
    ensures Agrees(rules, Without(store, i) + [e], log + [event], now)
  {
    var rest := Without(store, i);
    SoundLater(store, log, clock, now);
    RemovalSound(store, log, now, i);
    RemovalKeys(store, i, e.key);
    AppendSound(rest, log, now, e, event);
    forall k ensures LostFairly(rest + [e], log + [event], now, k) {
      AppendedKeys(rest, e, k);
      RemovalKeys(store, i, k);
      if k != e.key && IndexOf(store, k) == None {
        assert LostFairly(store, log, clock, k);
        LossStaysFair(store, log, clock, event, k, now);
      }
    }
  }

  lemma StaleAgrees(rules: TextRules, store: Store, log: Log, clock: real, i: nat, now: real)
    requires Agrees(rules, store, log, clock) && clock <= now && i < |store| && Expired(store[i], now)
    ensures Agrees(rules, Without(store, i), log, now)
  {
    SoundLater(store, log, clock, now);
    RemovalSound(store, log, now, i);
    assert Holds(log, clock, store[i]);
    forall k ensures LostFairly(Without(store, i), log, now, k) {
      RemovalKeys(store, i, k);
      assert LostFairly(store, log, clock, k);
    }
  }

  lemma GetAgrees(rules: TextRules, store: Store, log: Log, clock: real, key: Key, now: real)
    requires Agrees(rules, store, log, clock) && clock <= now
    ensures var r := Find(rules, store, now, key);
            Agrees(rules, AfterGet(store, r), LogAfterGet(store, log, r), now)
  {
    var r := Find(rules, store, now, key);
    match r {
      case Miss =>
        SoundLater(store, log, clock, now);
        forall k ensures LostFairly(store, log, now, k) {
          assert LostFairly(store, log, clock, k);
        }
      case Stale(i) =>
        StaleAgrees(rules, store, log, clock, i, now);
      case Exact(i) =>
        assert Holds(log, clock, store[i]);
        TouchAgrees(rules, store, log, clock, i, store[i], Hit(store[i].key), now);
      case Fuzzy(i) =>
        assert Holds(log, clock, store[i]);
        TouchAgrees(rules, store, log, clock, i, store[i], Hit(store[i].key), now);
    }
  }

  ghost function LogAfterGet(store: Store, log: Log, r: Lookup): Log
    requires !r.Miss? ==> r.i < |store|
  {
    if r.Exact? || r.Fuzzy? then log + [Hit(store[r.i].key)] else log
  }

  lemma SetAgrees(rules: TextRules, store: Store, log: Log, clock: real, e: Entry)
    requires Agrees(rules, store, log, clock) && clock <= e.ts && rules.Cacheable(e.payload)
    ensures Agrees(rules, AfterSet(store, e), log + [Accepted(e.key, e.payload, e.ts)], e.ts)
  {
    var event := Accepted(e.key, e.payload, e.ts);
    match IndexOf(store, e.key)
    case Some(i) => TouchAgrees(rules, store, log, clock, i, e, event, e.ts);
    case None =>
      var full := |store| >= MAX_ENTRIES;
      var kept := if full then store[1..] else store;
      SoundLater(store, log, clock, e.ts);
      if full {
        RemovalSound(store, log, e.ts, 0);
        RemovalKeys(store, 0, e.key);
        assert Without(store, 0) == kept;
        EvictedIsStale(rules, store, log, clock, e);
      }
      AppendSound(kept, log, e.ts, e, event);
      forall k ensures LostFairly(kept + [e], log + [event], e.ts, k) {
        AppendedKeys(kept, e, k);
        if full {
          RemovalKeys(store, 0, k);
        }
        if k != e.key && IndexOf(store, k) == None {
          assert LostFairly(store, log, clock, k);
          LossStaysFair(store, log, clock, event, k, e.ts);
        }
      }
  }

  lemma ClearAgrees(rules: TextRules, log: Log, clock: real)
    requires OnlyCacheable(rules, log)
    ensures Agrees(rules, [], log + [Cleared], clock)
  {
  }

  // ---------------------------------------------------------------------------
  // Which entry a newcomer pushes out
  // ---------------------------------------------------------------------------

  /** A payload under a key that a full store does not hold. */
  ghost predicate Newcomer(store: Store, e: Entry) {
    |store| == MAX_ENTRIES && IndexOf(store, e.key) == None
  }

  ghost predicate Evicts(store: Store, e: Entry, j: nat)
    requires j < |store|
  {
    IndexOf(AfterSet(store, e), store[j].key) == None
  }

  /** Two keys were not each touched after the other. */
  lemma {:induction false} TouchOrder(log: Log, a: Key, b: Key)
    requires a in OthersSince(log, b)
    ensures b !in OthersSince(log, a)
  {
    var last := log[|log| - 1];
    if last.key != a {
      TouchOrder(log[..|log| - 1], a, b);
    }
  }

  lemma FirstGoes(store: Store, e: Entry, j: nat)
    requires DistinctKeys(store) && Newcomer(store, e) && j < |store|
    ensures Evicts(store, e, j) <==> j == 0
  {
    var rest := store[1..];
    assert Without(store, 0) == rest && AfterSet(store, e) == rest + [e];
    AppendedKeys(rest, e, store[j].key);
    RemovalKeys(store, 0, store[j].key);
  }

  /** Every other stored entry was inserted or hit after entry j last was. */
  ghost predicate TouchedBeforeAll(store: Store, log: Log, j: nat)
    requires j < |store|
  {
    forall i :: 0 <= i < |store| && i != j ==> store[i].key in OthersSince(log, store[j].key)
  }

  /** In terms of the log: a newcomer evicts exactly the entry that all others were touched after. */
  lemma EvictedIff(store: Store, log: Log, clock: real, e: Entry, j: nat)
    requires Sound(store, log, clock) && Newcomer(store, e) && j < |store|
    ensures Evicts(store, e, j) <==> TouchedBeforeAll(store, log, j)
  {
    FirstGoes(store, e, j);
    if j > 0 {
      TouchOrder(log, store[j].key, store[0].key);
    }
  }

  /** The other keys accepted since the key last was. */
  ghost function AcceptedSince(log: Log, key: Key): set<Key> {
    if log == [] then {}
    else
      var rest := log[..|log| - 1];
      match log[|log| - 1]
      case Cleared => {}
      case Accepted(k, _, _) => if k == key then {} else AcceptedSince(rest, key) + {k}
      case Hit(_) => AcceptedSince(rest, key)
  }

  lemma AcceptedSinceGrows(log: Log, e: Event, key: Key)
    ensures AcceptedSince(log + [e], key) ==
            if e.Cleared? || (e.Accepted? && e.key == key) then {}
            else if e.Accepted? then AcceptedSince(log, key) + {e.key}
            else AcceptedSince(log, key)
  {
  }

  /** First in: all other stored entries were accepted after entry j. */
  ghost predicate Oldest(store: Store, log: Log, j: nat)
    requires j < |store|
  {
    forall i :: 0 <= i < |store| && i != j ==> store[i].key in AcceptedSince(log, store[j].key)
  }

  /** The key was not hit since it was last accepted. */
  ghost predicate NotHitSince(log: Log, key: Key) {
    log != [] && !log[|log| - 1].Cleared? ==>
      var last := log[|log| - 1];
      if last.key == key then last.Accepted? else NotHitSince(log[..|log| - 1], key)
  }

  lemma {:induction false} AcceptedAreTouched(log: Log, key: Key)
    requires NotHitSince(log, key)
    ensures AcceptedSince(log, key) <= OthersSince(log, key)
  {
    if log != [] && !log[|log| - 1].Cleared? && log[|log| - 1].key != key {
      AcceptedAreTouched(log[..|log| - 1], key);
    }
  }

  /**
   * First in is first out exactly when the oldest entry was not hit after some other stored entry was
   * last touched; so always when it was never hit since it was accepted.
   */
  lemma OldestGoesIff(store: Store, log: Log, clock: real, e: Entry, j: nat)
    requires Sound(store, log, clock) && Newcomer(store, e) && j < |store| && Oldest(store, log, j)
    ensures Evicts(store, e, j) <==> TouchedBeforeAll(store, log, j)
    ensures NotHitSince(log, store[j].key) ==> Evicts(store, e, j)
  {
    EvictedIff(store, log, clock, e, j);
    if NotHitSince(log, store[j].key) {
      AcceptedAreTouched(log, store[j].key);
    }
  }

  /** The store after a hit on its first entry. */
  lemma FirstHit(store: Store, e: Entry)
    requires DistinctKeys(store) && Newcomer(store, e)
    ensures var hit := AfterGet(store, Exact(0));
            hit == store[1..] + [store[0]] && DistinctKeys(hit) && Newcomer(hit, e)
  {
    assert Without(store, 0) == store[1..];
    RemovalKeys(store, 0, e.key);
    AppendedKeys(store[1..], store[0], e.key);
  }

  /** It fails at the first hit: hitting the first entry of a full store saves it, and the second goes instead. */
  lemma HitSavesOldest(rules: TextRules, store: Store, now: real, e: Entry)
    requires DistinctKeys(store) && Newcomer(store, e) && !Expired(store[0], now)
    ensures Find(rules, store, now, store[0].key) == Exact(0)
    ensures var hit := AfterGet(store, Exact(0));
            && hit[0] == store[1] && Evicts(hit, e, 0)
            && hit[|hit| - 1] == store[0] && !Evicts(hit, e, |hit| - 1)
  {
    var hit := AfterGet(store, Exact(0));
    FirstHit(store, e);
    FirstGoes(hit, e, 0);
    FirstGoes(hit, e, |hit| - 1);
  }

  // ---------------------------------------------------------------------------
  // What a caller may rely on
  // ---------------------------------------------------------------------------

  /**
   * Whatever is returned was accepted in the same container, is the latest accepted payload of
   * its key since the last clear, is at most TTL old, and is no error or hollow answer; it is
   * the asked key's own payload, or that of a similar key when the asked key is not stored.
   */
  lemma AnswerComesFromLog(rules: TextRules, store: Store, log: Log, clock: real, key: Key, now: real)
    requires Agrees(rules, store, log, clock) && clock <= now
    ensures var r := Find(rules, store, now, key);
            Answer(store, r).Some? ==>
              var (k, p) := (store[r.i].key, Answer(store, r).value);
              && Latest(log, k).Some? && Latest(log, k).value.0 == p
              && now - Latest(log, k).value.1 <= TTL_SECONDS
              && k.container == key.container && rules.Cacheable(p)
              && (r.Exact? ==> k == key)
              && (r.Fuzzy? ==> rules.Similar(key.query, k.query) && IndexOf(store, key) == None)
  {
    var r := Find(rules, store, now, key);
    if Answer(store, r).Some? {
      assert Holds(log, clock, store[r.i]);
      LatestIsCacheable(rules, log, store[r.i].key);
    }
  }

  /** A live answer is served as long as fewer than 500 other keys were touched since its own last touch. */
  lemma LiveAnswerIsServed(rules: TextRules, store: Store, log: Log, clock: real, key: Key, now: real)
    requires Agrees(rules, store, log, clock) && clock <= now
    requires Latest(log, key).Some? && now - Latest(log, key).value.1 <= TTL_SECONDS
    requires |OthersSince(log, key)| < MAX_ENTRIES
    ensures Find(rules, store, now, key).Exact?
    ensures Answer(store, Find(rules, store, now, key)) == Some(Latest(log, key).value.0)
  {
    assert LostFairly(store, log, clock, key);
    var i := IndexOf(store, key).value;
    assert Holds(log, clock, store[i]);
  }

  // ---------------------------------------------------------------------------
  // Runs
  // ---------------------------------------------------------------------------

  datatype Op =
    | Get(container: string, rawQuery: string, at: real)
    | Set(container: string, rawQuery: string, payload: Payload, at: real)
    | Clear

  datatype State = State(store: Store, log: Log, clock: real)

  ghost function Apply(rules: TextRules, s: State, op: Op): State {
    match op
    case Get(c, q, at) =>
      var r := Find(rules, s.store, at, rules.KeyFor(c, q));
      State(AfterGet(s.store, r), LogAfterGet(s.store, s.log, r), at)
    case Set(c, q, p, at) =>
      var e := Entry(rules.KeyFor(c, q), p, at);
      if rules.Cacheable(p) then State(AfterSet(s.store, e), s.log + [Accepted(e.key, p, at)], at) else s
    case Clear => State([], s.log + [Cleared], s.clock)
  }

  ghost function Run(rules: TextRules, ops: seq<Op>): State {
    if ops == [] then State([], [], 0.0)
    else Apply(rules, Run(rules, ops[..|ops| - 1]), ops[|ops| - 1])
  }

  /** The clock never goes back: every operation is stamped at or after the state it finds. */
  ghost predicate Timely(rules: TextRules, ops: seq<Op>) {
    forall i :: 0 <= i < |ops| && !ops[i].Clear? ==> Run(rules, ops[..i]).clock <= ops[i].at
  }

  lemma {:induction false} EveryRunAgrees(rules: TextRules, ops: seq<Op>)
    requires Timely(rules, ops)
    ensures var s := Run(rules, ops); Agrees(rules, s.store, s.log, s.clock)
  {
    if ops == [] {
      forall k ensures LostFairly([], [], 0.0, k) {
      }
    } else {
      var before, op := ops[..|ops| - 1], ops[|ops| - 1];
      assert forall i :: 0 <= i < |before| ==> ops[..i] == before[..i];
      EveryRunAgrees(rules, before);
      var s := Run(rules, before);
      match op
      case Get(c, q, at) => GetAgrees(rules, s.store, s.log, s.clock, rules.KeyFor(c, q), at);
      case Set(c, q, p, at) =>
        if rules.Cacheable(p) {
          SetAgrees(rules, s.store, s.log, s.clock, Entry(rules.KeyFor(c, q), p, at));
        }
      case Clear => ClearAgrees(rules, s.log, s.clock);
    }
  }

  // ---- What a caller gets back, in terms of the calls made before ------------

  /** Never stored: an error response, an empty answer, a hollow one. */
  predicate Refused(rules: TextRules, p: Payload) {
    p.error || p.answer == "" || rules.hollow(p.answer)
  }

  lemma RefusedChangesNothing(rules: TextRules, s: State, container: string, rawQuery: string, p: Payload, at: real)
    requires Refused(rules, p)
    ensures Apply(rules, s, Set(container, rawQuery, p, at)) == s
  {
  }

  /**
   * Call i put the payload under this container and this normalised query, and it was the last to do so since
   * any clear.
   */
  ghost predicate LastPut(rules: TextRules, ops: seq<Op>, i: nat, container: string, query: string, p: Payload,
                          at: real)
  {
    && i < |ops| && !Refused(rules, p)
    && ops[i].Set? && ops[i].container == container && rules.normalize(ops[i].rawQuery) == query
    && ops[i].payload == p && ops[i].at == at
    && forall j :: i < j < |ops| ==>
         && ops[j] != Clear
         && !(ops[j].Set? && ops[j].container == container && rules.normalize(ops[j].rawQuery) == query
              && !Refused(rules, ops[j].payload))
  }

  /** The operation puts an acceptable payload under this key. */
  predicate Puts(rules: TextRules, op: Op, key: Key) {
    op.Set? && op.container == key.container && rules.normalize(op.rawQuery) == key.query && !Refused(rules, op.payload)
  }

  lemma LatestAfter(rules: TextRules, s: State, op: Op, key: Key)
    ensures Latest(Apply(rules, s, op).log, key)
         == if op.Clear? then None else if Puts(rules, op, key) then Some((op.payload, op.at)) else Latest(s.log, key)
  {
    match op
    case Get(c, q, at) =>
      var r := Find(rules, s.store, at, rules.KeyFor(c, q));
      if r.Exact? || r.Fuzzy? {
        LogGrows(s.log, Hit(s.store[r.i].key), key);
      }
    case Set(c, q, p, at) =>
      LogGrows(s.log, Accepted(rules.KeyFor(c, q), p, at), key);
    case Clear =>
      LogGrows(s.log, Cleared, key);
  }

  lemma StillLastPut(rules: TextRules, ops: seq<Op>, i: nat, key: Key, p: Payload, at: real)
    requires ops != [] && LastPut(rules, ops[..|ops| - 1], i, key.container, key.query, p, at)
    requires ops[|ops| - 1] != Clear && !Puts(rules, ops[|ops| - 1], key)
    ensures LastPut(rules, ops, i, key.container, key.query, p, at)
  {
    var init := ops[..|ops| - 1];
    assert forall j :: 0 <= j < |init| ==> init[j] == ops[j];
  }

  lemma {:induction false} LatestWasPut(rules: TextRules, ops: seq<Op>, key: Key) returns (i: nat)
    requires Latest(Run(rules, ops).log, key).Some?
    ensures var (p, at) := Latest(Run(rules, ops).log, key).value;
            LastPut(rules, ops, i, key.container, key.query, p, at)
  {
    var init, op := ops[..|ops| - 1], ops[|ops| - 1];
    LatestAfter(rules, Run(rules, init), op, key);
    if Puts(rules, op, key) {
      i := |ops| - 1;
    } else {
      i := LatestWasPut(rules, init, key);
      var (p, at) := Latest(Run(rules, init).log, key).value;
      StillLastPut(rules, ops, i, key, p, at);
    }
  }

  /**
   * After any run, an answer given to a container was put by a call for the same container, at most 600
   * seconds ago, under the same normalised query or a similar one; no later call replaced or cleared it.
   */
  lemma AnswerWasPut(rules: TextRules, ops: seq<Op>, container: string, rawQuery: string, now: real)
    returns (i: nat, query: string)
    requires Timely(rules, ops) && Run(rules, ops).clock <= now
    requires var store := Run(rules, ops).store;
             Answer(store, Find(rules, store, now, rules.KeyFor(container, rawQuery))).Some?
    ensures var store := Run(rules, ops).store;
            var p := Answer(store, Find(rules, store, now, rules.KeyFor(container, rawQuery))).value;
            && i < |ops| && ops[i].Set? && LastPut(rules, ops, i, container, query, p, ops[i].at)
            && now - ops[i].at <= 600.0
    ensures query == rules.normalize(rawQuery) || rules.similar(rules.normalize(rawQuery), query)
  {
    var s, key := Run(rules, ops), rules.KeyFor(container, rawQuery);
    var r := Find(rules, s.store, now, key);
    EveryRunAgrees(rules, ops);
    AnswerComesFromLog(rules, s.store, s.log, s.clock, key, now);
    i := LatestWasPut(rules, ops, s.store[r.i].key);
    query := s.store[r.i].key.query;
  }

  lemma TimelyNext(rules: TextRules, ops: seq<Op>, op: Op)
    requires Timely(rules, ops) && (!op.Clear? ==> Run(rules, ops).clock <= op.at)
    ensures Timely(rules, ops + [op]) && Run(rules, ops + [op]) == Apply(rules, Run(rules, ops), op)
  {
    assert (ops + [op])[..|ops|] == ops;
    forall i | 0 <= i < |ops| ensures (ops + [op])[..i] == ops[..i] {
    }
  }

  /** A payload that is not refused is given back for 600 seconds to the same container and normalised query. */
  lemma PutThenGet(rules: TextRules, ops: seq<Op>, container: string, rawQuery: string, again: string, p: Payload,
                   at: real, now: real)
    requires Timely(rules, ops) && Run(rules, ops).clock <= at <= now <= at + 600.0
    requires !Refused(rules, p) && rules.normalize(rawQuery) == rules.normalize(again)
    ensures var store := Run(rules, ops + [Set(container, rawQuery, p, at)]).store;
            Answer(store, Find(rules, store, now, rules.KeyFor(container, again))) == Some(p)
  {
    var s, op, key := Run(rules, ops), Set(container, rawQuery, p, at), rules.KeyFor(container, again);
    TimelyNext(rules, ops, op);
    EveryRunAgrees(rules, ops + [op]);
    var t := Run(rules, ops + [op]);
    LogGrows(s.log, Accepted(key, p, at), key);
    LiveAnswerIsServed(rules, t.store, t.log, t.clock, key, now);
  }

  /** After a clear nothing is answered. */
  lemma ClearedAnswersNothing(rules: TextRules, ops: seq<Op>, container: string, rawQuery: string, now: real)
    ensures var store := Run(rules, ops + [Clear]).store;
            Answer(store, Find(rules, store, now, rules.KeyFor(container, rawQuery))) == None
  {
    assert (ops + [Clear])[..|ops|] == ops;
  }

  /** Entry i may answer for the key by similarity: same container, live, similar query, among the last fifty. */
  predicate Similar50(rules: TextRules, store: Store, now: real, key: Key, i: nat) {
    && i < |store| && i >= |store| - 50
    && store[i].key.container == key.container && now - store[i].ts <= 600.0
    && rules.similar(key.query, store[i].key.query)
  }

  /**
   * A key that is not stored is answered by the first similar entry among the last fifty, and by none if
   * there is none. A stored key is answered by its own entry, or by none at all once that is over 600 seconds old.
   */
  lemma LookupIs(rules: TextRules, store: Store, now: real, key: Key, i: nat)
    requires DistinctKeys(store) && i < |store|
    ensures (forall j :: 0 <= j < |store| ==> store[j].key != key) ==>
              && (Similar50(rules, store, now, key, i)
                    && (forall j :: 0 <= j < i ==> !Similar50(rules, store, now, key, j)) ==>
                    Find(rules, store, now, key) == Fuzzy(i))
              && ((forall j :: 0 <= j < |store| ==> !Similar50(rules, store, now, key, j)) ==>
                  Find(rules, store, now, key) == Miss)
    ensures store[i].key == key ==>
              Find(rules, store, now, key) == if now - store[i].ts <= 600.0 then Exact(i) else Stale(i)
  {
    if forall j :: 0 <= j < |store| ==> store[j].key != key {
      var from := Max(0, |store| - 50);
      assert forall j :: from <= j < |store| ==>
             (FuzzyMatch(rules, store[j], now, key) <==> Similar50(rules, store, now, key, j));
      if Similar50(rules, store, now, key, i) && forall j :: 0 <= j < i ==> !Similar50(rules, store, now, key, j) {
        FuzzyIsFirst(rules, store, now, key, from, i);
      }
    }
  }

  lemma {:induction false} FuzzyIsFirst(rules: TextRules, store: Store, now: real, key: Key, from: nat, i: nat)
    requires from <= i < |store| && FuzzyMatch(rules, store[i], now, key)
    requires forall j :: from <= j < i ==> !FuzzyMatch(rules, store[j], now, key)
    ensures FuzzyIndex(rules, store, now, key, from) == Some(i)
    decreases |store| - from
  {
    if from < i {
      FuzzyIsFirst(rules, store, now, key, from + 1, i);
    }
  }

  /** A new key makes the store one longer, up to 500 entries; a stored one leaves its size. */
  lemma SizeAfterPut(store: Store, e: Entry)
    requires |store| <= 500
    ensures |AfterSet(store, e)|
         == if (exists i :: 0 <= i < |store| && store[i].key == e.key) || |store| == 500 then |store| else |store| + 1
    ensures AfterSet(store, e)[|AfterSet(store, e)| - 1] == e
  {
  }

  // ---------------------------------------------------------------------------
  // The module-level store and its three operations
  // ---------------------------------------------------------------------------

  class ResponseCache {
    const rules: TextRules
    var store: Store
    ghost var log: Log
    ghost var clock: real

    ghost predicate Valid()
      reads this
    {
      Agrees(rules, store, log, clock)
    }

    ghost function Abstract(): State
      reads this
    {
      State(store, log, clock)
    }

    constructor (rules: TextRules)
      ensures Valid() && this.rules == rules && Abstract() == Run(rules, [])
    {
      this.rules, store, log, clock := rules, [], [], 0.0;
      new;
      EveryRunAgrees(rules, []);
    }

    /** The bounded scan over the most recent entries. */
    method FuzzyScan(key: Key, now: real) returns (r: Option<nat>)
      ensures r == FuzzyIndex(rules, store, now, key, Max(0, |store| - FUZZY_SCAN_LAST_N))
    {
      var i := Max(0, |store| - FUZZY_SCAN_LAST_N);
      while i < |store|
        invariant 0 <= i <= |store|
        invariant FuzzyIndex(rules, store, now, key, i)
               == FuzzyIndex(rules, store, now, key, Max(0, |store| - FUZZY_SCAN_LAST_N))
      {
        if FuzzyMatch(rules, store[i], now, key) {
          return Some(i);
        }
        i := i + 1;
      }
      return None;
    }

    /** The lookup part: exact key first, the fuzzy scan only when the key is not stored. */
    method FindEntry(key: Key, now: real) returns (r: Lookup)
      ensures r == Find(rules, store, now, key)
    {
      var exact := IndexOf(store, key);
      if exact.Some? {
        return if Expired(store[exact.value], now) then Stale(exact.value) else Exact(exact.value);
      }
      var similar := FuzzyScan(key, now);
      r := if similar.Some? then Fuzzy(similar.value) else Miss;
    }

    method GetCachedResponse(container: string, rawQuery: string, now: real) returns (r: Option<Payload>)
      requires Valid() && clock <= now
      modifies this
      ensures Valid() && Abstract() == Apply(rules, old(Abstract()), Get(container, rawQuery, now))
      ensures r == Answer(old(store), Find(rules, old(store), now, rules.KeyFor(container, rawQuery)))
    {
      var key := rules.KeyFor(container, rawQuery);
      var found := FindEntry(key, now);
      GetAgrees(rules, store, log, clock, key, now);
      log, clock := LogAfterGet(store, log, found), now;
      r := None;
      if found.Stale? {
        store := Without(store, found.i);
      } else if !found.Miss? {
        r := Some(store[found.i].payload);
        store := Without(store, found.i) + [store[found.i]];
      }
    }

    method SetCachedResponse(container: string, rawQuery: string, payload: Payload, now: real)
      requires Valid() && clock <= now
      modifies this
      ensures Valid() && Abstract() == Apply(rules, old(Abstract()), Set(container, rawQuery, payload, now))
    {
      if !rules.Cacheable(payload) {
        return;
      }
      var e := Entry(rules.KeyFor(container, rawQuery), payload, now);
      SetAgrees(rules, store, log, clock, e);
      log, clock := log + [Accepted(e.key, payload, now)], now;
      match IndexOf(store, e.key)
      case Some(i) =>
        store := Without(store, i) + [e];
      case None =>
        if |store| >= MAX_ENTRIES {
          store := store[1..];
        }
        store := store + [e];
    }

    method ClearCache()
      requires Valid()
      modifies this
      ensures Valid() && Abstract() == Apply(rules, old(Abstract()), Clear)
    {
      ClearAgrees(rules, log, clock);
      store, log := [], log + [Cleared];
    }
  }
}
