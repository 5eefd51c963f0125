/**
 * Model of the context pool in server/app/core/datafusion_client.py as a transition system:
 * warm-up threads, replenisher threads and queries interleave at each touch of the shared
 * queue, of a context, or of the queue-depth gauge.
 */
module ContextPool {
  import opened Common
  import opened SqlRewriter

  const CTX_POOL_SIZE := 8

  type CtxId = nat

  /** Where a context is; a context that was lent to a query stays lent to it for good. */
  datatype Place = Pooled | Building(maker: nat) | LentTo(query: nat) | Dropped

  datatype Phase =
    | Waiting                               // before _borrow_ctx
    | PoolWasEmpty                          // get_nowait raised Empty; about to create inline
    | Holding(ctx: CtxId, registered: nat)  // tables t0 .. t(registered - 1) are registered
    | Ran(result: seq<Denoted>)             // executed; rows being converted
    | Counted(result: seq<Denoted>)         // left the gauge; its figures still being recorded
    | Done(result: seq<Denoted>)
    | Failed

  datatype QueryThread = QueryThread(sql: Query, phase: Phase)

  /** A warm-up or replenisher thread: how many contexts it still wants to add, and the one in hand. */
  datatype Maker = Maker(remaining: nat, inHand: Option<CtxId>)

  datatype State = State(
    next: CtxId,
    place: map<CtxId, Place>,
    tables: map<CtxId, Tables>,
    pool: seq<CtxId>,
    queries: map<nat, QueryThread>,
    makers: map<nat, Maker>,
    queueDepth: int,
    lateFailures: nat                       // queries that failed after leaving the gauge
  )

  datatype Step =
    | Arrive(query: nat, sql: Query)
    | Borrow(query: nat)
    | CreateInline(query: nat)
    | Register(query: nat)
    | Execute(query: nat, replenisher: nat)
    | Leave(query: nat)
    | Return(query: nat)
    | Fail(query: nat)
    | StartWarmUp(maker: nat, n: nat)
    | Build(maker: nat)
    | Put(maker: nat)
    | MakerFails(maker: nat)

  /** On the gauge: arrived and not yet counted out. */
  predicate Active(p: Phase) {
    !p.Counted? && !p.Done? && !p.Failed?
  }

  function Start(): State {
    State(0, map[], map[], [], map[], map[], 0, 0)
  }

  function SetPhase(s: State, q: nat, p: Phase): State
    requires q in s.queries
  {
    s.(queries := s.queries[q := s.queries[q].(phase := p)])
  }

  /** A new blank context, placed as given. */
  function NewContext(s: State, at: Place): State {
    s.(next := s.next + 1, place := s.place[s.next := at], tables := s.tables[s.next := map[]])
  }

  predicate IsHolding(s: State, q: nat) {
    q in s.queries && s.queries[q].phase.Holding? && s.queries[q].phase.ctx in s.tables
  }

  /** get_nowait on a nonempty pool. */
  function Borrowed(s: State, q: nat): State
    requires q in s.queries && s.pool != []
  {
    var c := s.pool[0];
    SetPhase(s.(pool := s.pool[1..], place := s.place[c := LentTo(q)]), q, Holding(c, 0))
  }

  function CreatedInline(s: State, q: nat): State
    requires q in s.queries
  {
    SetPhase(NewContext(s, LentTo(q)), q, Holding(s.next, 0))
  }

  /** The next table of a query is registered on its context. */
  function WithNextTable(s: State, q: nat): State
    requires IsHolding(s, q) && s.queries[q].phase.registered < |Paths(s.queries[q].sql)|
  {
    var (c, k) := (s.queries[q].phase.ctx, s.queries[q].phase.registered);
    var table := Registered(Paths(s.queries[q].sql)[k]);
    SetPhase(s.(tables := s.tables[c := s.tables[c][Alias(k) := table]]), q, Holding(c, k + 1))
  }

  /** The rewritten query runs on the context's tables, and a replenisher thread is started. */
  function Executed(s: State, q: nat, replenisher: nat): State
    requires IsHolding(s, q)
  {
    var sql := s.queries[q].sql;
    PathsCover(sql);
    var result := Resolve(s.tables[s.queries[q].phase.ctx], Renamed(sql, Paths(sql)));
    SetPhase(s.(makers := s.makers[replenisher := Maker(1, None)]), q, Ran(result))
  }

  /** A query leaves: the gauge goes down, never below zero. */
  function Ended(s: State, q: nat, p: Phase): State
    requires q in s.queries
  {
    SetPhase(s, q, p).(queueDepth := Max(0, s.queueDepth - 1))
  }

  /** An exception after the query was counted out: the handler lowers the gauge a second time. */
  function FailedLate(s: State, q: nat): State
    requires q in s.queries
  {
    Ended(s, q, Failed).(lateFailures := s.lateFailures + 1)
  }

  function Built(s: State, m: nat): State
    requires m in s.makers
  {
    NewContext(s, Building(m)).(makers := s.makers[m := Maker(s.makers[m].remaining, Some(s.next))])
  }

  /** put_nowait; on Full the context is dropped and the thread stops. */
  function PutBack(s: State, m: nat): State
    requires m in s.makers && s.makers[m].inHand.Some?
  {
    var c := s.makers[m].inHand.value;
    if |s.pool| < CTX_POOL_SIZE then
      s.(pool := s.pool + [c], place := s.place[c := Pooled],
         makers := s.makers[m := Maker(Max(0, s.makers[m].remaining - 1), None)])
    else
      s.(place := s.place[c := Dropped], makers := s.makers[m := Maker(0, None)])
  }

  /** One atomic step; a step that is not enabled changes nothing. */
  function Apply(s: State, step: Step): State {
    match step
    case Arrive(q, sql) =>
      if q in s.queries then s
      else s.(queries := s.queries[q := QueryThread(sql, Waiting)], queueDepth := s.queueDepth + 1)
    case Borrow(q) =>
      if q !in s.queries || !s.queries[q].phase.Waiting? then s
      else if s.pool == [] then SetPhase(s, q, PoolWasEmpty)
      else Borrowed(s, q)
    case CreateInline(q) =>
      if q !in s.queries || !s.queries[q].phase.PoolWasEmpty? then s else CreatedInline(s, q)
    case Register(q) =>
      if !IsHolding(s, q) || s.queries[q].phase.registered >= |Paths(s.queries[q].sql)| then s else WithNextTable(s, q)
    case Execute(q, r) =>
      if !IsHolding(s, q) || s.queries[q].phase.registered < |Paths(s.queries[q].sql)| || r in s.makers then s
      else Executed(s, q, r)
    case Leave(q) =>
      if q !in s.queries || !s.queries[q].phase.Ran? then s else Ended(s, q, Counted(s.queries[q].phase.result))
    case Return(q) =>
      if q !in s.queries || !s.queries[q].phase.Counted? then s else SetPhase(s, q, Done(s.queries[q].phase.result))
    case Fail(q) =>
      if q !in s.queries then s
      else if Active(s.queries[q].phase) then Ended(s, q, Failed)
      else if s.queries[q].phase.Counted? then FailedLate(s, q)
      else s
    case StartWarmUp(m, n) =>
      if m in s.makers then s else s.(makers := s.makers[m := Maker(n, None)])
    case Build(m) =>
      if m !in s.makers || s.makers[m].remaining == 0 || s.makers[m].inHand.Some? then s else Built(s, m)
    case Put(m) =>
      if m !in s.makers || s.makers[m].inHand == None then s else PutBack(s, m)
    case MakerFails(m) =>
      if m !in s.makers || s.makers[m].inHand.Some? then s
      else s.(makers := s.makers[m := Maker(0, None)])
  }

  function Run(steps: seq<Step>): State {
    if steps == [] then Start() else Apply(Run(steps[..|steps| - 1]), steps[|steps| - 1])
  }

  // ---------------------------------------------------------------------------
  // Isolation
  // ---------------------------------------------------------------------------

  ghost predicate Known(s: State) {
    s.place.Keys == s.tables.Keys && forall c :: c in s.place ==> c < s.next
  }

  /** Pooled contexts are blank, distinct, at most eight, and lent to nobody. */
  ghost predicate PoolIsBlank(s: State) {
    && |s.pool| <= CTX_POOL_SIZE
    && Distinct(s.pool)
    && forall c :: c in s.pool ==> c in s.place && s.place[c] == Pooled && c in s.tables && s.tables[c] == map[]
  }

  ghost predicate MakerOk(s: State, m: nat)
    requires m in s.makers && Known(s)
  {
    s.makers[m].inHand.Some? ==>
      var c := s.makers[m].inHand.value;
      c in s.place && s.place[c] == Building(m) && s.tables[c] == map[]
  }

  /** A query's context is lent to it alone and holds exactly the tables it registered so far. */
  ghost predicate QueryOk(s: State, q: nat)
    requires q in s.queries && Known(s)
  {
    var t := s.queries[q];
    match t.phase
    case Holding(c, k) =>
      && c in s.place && s.place[c] == LentTo(q)
      && k <= |Paths(t.sql)| && s.tables[c] == TablesFor(Paths(t.sql)[..k])
    case Ran(r) => r == RewrittenMeaning(t.sql)
    case Counted(r) => r == RewrittenMeaning(t.sql)
    case Done(r) => r == RewrittenMeaning(t.sql)
    case _ => true
  }

  ghost function ActiveQueries(s: State): set<nat> {
    set q | q in s.queries && Active(s.queries[q].phase)
  }

  /** The gauge never shows too many; each query that failed late may have taken one too many off it. */
  ghost predicate GaugeOk(s: State) {
    0 <= s.queueDepth <= |ActiveQueries(s)| <= s.queueDepth + s.lateFailures
  }

  ghost predicate Isolated(s: State) {
    && Known(s)
    && PoolIsBlank(s)
    && (forall m :: m in s.makers ==> MakerOk(s, m))
    && (forall q :: q in s.queries ==> QueryOk(s, q))
    && GaugeOk(s)
  }

  /** Changing one query's phase changes the active set by that query only. */
  lemma ActiveAfter(s: State, q: nat, t: QueryThread)
    ensures ActiveQueries(s.(queries := s.queries[q := t]))
         == if Active(t.phase) then ActiveQueries(s) + {q} else ActiveQueries(s) - {q}
  {
  }

  /** A step that gives query q a new phase (and maybe a context) keeps isolation. */
  lemma PhaseChangeIsolated(s: State, s': State, q: nat, t: QueryThread)
    requires Isolated(s)
    requires s'.queries == s.queries[q := t]
    requires Known(s') && PoolIsBlank(s') && QueryOk(s', q)
    requires forall c :: c in s.place ==> c in s'.place
    requires forall c :: c in s.place && s.place[c].LentTo? && s.place[c].query != q ==>
               s'.place[c] == s.place[c] && s'.tables[c] == s.tables[c]
    requires forall m :: m in s'.makers ==> MakerOk(s', m)
    requires var active := |if Active(t.phase) then ActiveQueries(s) + {q} else ActiveQueries(s) - {q}|;
             0 <= s'.queueDepth <= active <= s'.queueDepth + s'.lateFailures
    ensures Isolated(s')
  {
    ActiveAfter(s, q, t);
    assert ActiveQueries(s') == ActiveQueries(s.(queries := s.queries[q := t]));
    forall p | p in s'.queries ensures QueryOk(s', p) {
      if p != q {
        assert QueryOk(s, p);
      }
    }
  }

  lemma BorrowIsolated(s: State, q: nat)
    requires Isolated(s) && q in s.queries && s.queries[q].phase.Waiting? && s.pool != []
    ensures Isolated(Borrowed(s, q))
  {
    var s' := Borrowed(s, q);
    var c := s.pool[0];
    assert c in s.pool && Paths(s.queries[q].sql)[..0] == [];
    forall d | d in s'.pool ensures d in s.pool && d != c {
      var i :| 0 <= i < |s'.pool| && s'.pool[i] == d;
      assert s.pool[i + 1] == d;
    }
    forall i, j | 0 <= i < j < |s'.pool| ensures s'.pool[i] != s'.pool[j] {
      assert s.pool[i + 1] != s.pool[j + 1];
    }
    forall m | m in s'.makers ensures MakerOk(s', m) {
      assert MakerOk(s, m);
    }
    assert ActiveQueries(s) + {q} == ActiveQueries(s);
    PhaseChangeIsolated(s, s', q, s'.queries[q]);
  }

  lemma CreateInlineIsolated(s: State, q: nat)
    requires Isolated(s) && q in s.queries && s.queries[q].phase.PoolWasEmpty?
    ensures Isolated(CreatedInline(s, q))
  {
    var s' := CreatedInline(s, q);
    assert Paths(s.queries[q].sql)[..0] == [];
    forall m | m in s'.makers ensures MakerOk(s', m) {
      assert MakerOk(s, m);
    }
    assert ActiveQueries(s) + {q} == ActiveQueries(s);
    PhaseChangeIsolated(s, s', q, s'.queries[q]);
  }

  lemma RegisterIsolated(s: State, q: nat)
    requires Isolated(s) && IsHolding(s, q) && s.queries[q].phase.registered < |Paths(s.queries[q].sql)|
    ensures Isolated(WithNextTable(s, q))
  {
    var s' := WithNextTable(s, q);
    var (c, k, paths) := (s.queries[q].phase.ctx, s.queries[q].phase.registered, Paths(s.queries[q].sql));
    assert QueryOk(s, q);
    assert paths[..k + 1][..k] == paths[..k];
    forall m | m in s'.makers ensures MakerOk(s', m) {
      assert MakerOk(s, m);
    }
    assert ActiveQueries(s) + {q} == ActiveQueries(s);
    PhaseChangeIsolated(s, s', q, s'.queries[q]);
  }

  /** On the tables of all its paths, a query's rewritten text says what RewrittenMeaning says. */
  lemma ResolvesToMeaning(tables: Tables, sql: Query, registered: nat)
    requires registered == |Paths(sql)| && tables == TablesFor(Paths(sql)[..registered])
    ensures Listed(sql, Paths(sql)) && Resolve(tables, Renamed(sql, Paths(sql))) == RewrittenMeaning(sql)
  {
    assert Paths(sql)[..registered] == Paths(sql);
    PathsCover(sql);
  }

  lemma ExecutedResult(s: State, q: nat, r: nat)
    requires Known(s) && IsHolding(s, q) && QueryOk(s, q) && s.queries[q].phase.registered >= |Paths(s.queries[q].sql)|
    ensures Executed(s, q, r).queries[q] == QueryThread(s.queries[q].sql, Ran(RewrittenMeaning(s.queries[q].sql)))
  {
    var t := s.queries[q];
    ResolvesToMeaning(s.tables[t.phase.ctx], t.sql, t.phase.registered);
  }

  lemma ExecuteIsolated(s: State, q: nat, r: nat)
    requires Isolated(s) && IsHolding(s, q) && s.queries[q].phase.registered >= |Paths(s.queries[q].sql)|
             && r !in s.makers
    ensures Isolated(Executed(s, q, r))
  {
    var s' := Executed(s, q, r);
    ExecutedResult(s, q, r);
    forall m | m in s'.makers ensures MakerOk(s', m) {
      if m != r {
        assert MakerOk(s, m);
      }
    }
    assert ActiveQueries(s) + {q} == ActiveQueries(s);
    PhaseChangeIsolated(s, s', q, s'.queries[q]);
  }

  /** A query that ends, well or badly, gives up no table and no context. */
  lemma EndedIsolated(s: State, q: nat, p: Phase)
    requires Isolated(s) && q in s.queries && Active(s.queries[q].phase)
    requires p.Failed? || (p.Counted? && p.result == RewrittenMeaning(s.queries[q].sql))
    ensures Isolated(Ended(s, q, p))
  {
    var s' := Ended(s, q, p);
    forall m | m in s'.makers ensures MakerOk(s', m) {
      assert MakerOk(s, m);
    }
    assert q in ActiveQueries(s) && |ActiveQueries(s) - {q}| == |ActiveQueries(s)| - 1;
    PhaseChangeIsolated(s, s', q, s'.queries[q]);
  }

  /** After it was counted out, a query that returns or fails touches no context. */
  lemma CountedIsolated(s: State, q: nat, s': State)
    requires Isolated(s) && q in s.queries && s.queries[q].phase.Counted?
    requires s' == SetPhase(s, q, Done(s.queries[q].phase.result)) || s' == FailedLate(s, q)
    ensures Isolated(s')
  {
    assert QueryOk(s, q);
    forall m | m in s'.makers ensures MakerOk(s', m) {
      assert MakerOk(s, m);
    }
    assert q !in ActiveQueries(s) && ActiveQueries(s) - {q} == ActiveQueries(s);
    PhaseChangeIsolated(s, s', q, s'.queries[q]);
  }

  /** Arriving and noticing the empty pool touch no context. */
  lemma WaitingIsolated(s: State, s': State, q: nat, t: QueryThread)
    requires Isolated(s) && (t.phase.Waiting? || t.phase.PoolWasEmpty?)
    requires s' == s.(queries := s.queries[q := t],
                      queueDepth := s.queueDepth + |ActiveQueries(s) + {q}| - |ActiveQueries(s)|)
    ensures Isolated(s')
  {
    forall m | m in s'.makers ensures MakerOk(s', m) {
      assert MakerOk(s, m);
    }
    SubsetCardinality(ActiveQueries(s), ActiveQueries(s) + {q});
    PhaseChangeIsolated(s, s', q, t);
  }

  /** Steps of makers touch only contexts that no query holds. */
  lemma MakerStepIsolated(s: State, s': State)
    requires Isolated(s)
    requires s'.queries == s.queries && s'.queueDepth == s.queueDepth && s'.lateFailures == s.lateFailures
    requires Known(s') && PoolIsBlank(s')
    requires forall m :: m in s'.makers ==> MakerOk(s', m)
    requires forall c :: c in s.place && s.place[c].LentTo? ==>
               c in s'.place && s'.place[c] == s.place[c] && s'.tables[c] == s.tables[c]
    ensures Isolated(s')
  {
  }

  lemma PutIsolated(s: State, m: nat)
    requires Isolated(s) && m in s.makers && s.makers[m].inHand.Some?
    ensures Isolated(PutBack(s, m))
  {
    var s' := PutBack(s, m);
    var c := s.makers[m].inHand.value;
    assert MakerOk(s, m);
    forall n | n in s'.makers ensures MakerOk(s', n) {
      assert n in s.makers;
      assert MakerOk(s, n);
    }
    assert s'.pool == s.pool + [c] || s'.pool == s.pool;
    MakerStepIsolated(s, s');
  }

  lemma BuildIsolated(s: State, m: nat)
    requires Isolated(s) && m in s.makers && s.makers[m].inHand == None
    ensures Isolated(Built(s, m))
  {
  }

  /** Starting and abandoning a maker touch no context. */
  lemma MakerOnlyIsolated(s: State, step: Step)
    requires Isolated(s) && (step.StartWarmUp? || step.MakerFails?)
    ensures Isolated(Apply(s, step))
  {
    var s' := Apply(s, step);
    forall n | n in s'.makers ensures MakerOk(s', n) {
      assert n in s.makers ==> MakerOk(s, n);
    }
    MakerStepIsolated(s, s');
  }

  lemma QueryStepIsolated(s: State, step: Step)
    requires Isolated(s)
    requires step.Arrive? || step.Borrow? || step.Leave? || step.Return? || step.Fail?
    ensures Isolated(Apply(s, step))
  {
    var q := step.query;
    match step
    case Arrive(_, sql) =>
      if q !in s.queries {
        assert q !in ActiveQueries(s);
        WaitingIsolated(s, Apply(s, step), q, QueryThread(sql, Waiting));
      }
    case Borrow(_) =>
      if q in s.queries && s.queries[q].phase.Waiting? {
        if s.pool == [] {
          assert ActiveQueries(s) + {q} == ActiveQueries(s);
          WaitingIsolated(s, Apply(s, step), q, QueryThread(s.queries[q].sql, PoolWasEmpty));
        } else {
          BorrowIsolated(s, q);
        }
      }
    case Leave(_) =>
      if q in s.queries && s.queries[q].phase.Ran? {
        assert QueryOk(s, q);
        EndedIsolated(s, q, Counted(s.queries[q].phase.result));
      }
    case Return(_) =>
      if q in s.queries && s.queries[q].phase.Counted? {
        CountedIsolated(s, q, Apply(s, step));
      }
    case Fail(_) =>
      if q in s.queries && Active(s.queries[q].phase) {
        EndedIsolated(s, q, Failed);
      } else if q in s.queries && s.queries[q].phase.Counted? {
        CountedIsolated(s, q, Apply(s, step));
      }
  }

  lemma StepIsolated(s: State, step: Step)
    requires Isolated(s)
    ensures Isolated(Apply(s, step))
  {
    match step
    case Arrive(_, _) => QueryStepIsolated(s, step);
    case Borrow(_) => QueryStepIsolated(s, step);
    case Leave(_) => QueryStepIsolated(s, step);
    case Return(_) => QueryStepIsolated(s, step);
    case Fail(_) => QueryStepIsolated(s, step);
    case CreateInline(q) =>
      if q in s.queries && s.queries[q].phase.PoolWasEmpty? {
        CreateInlineIsolated(s, q);
      }
    case Register(q) =>
      if IsHolding(s, q) && s.queries[q].phase.registered < |Paths(s.queries[q].sql)| {
        RegisterIsolated(s, q);
      }
    case Execute(q, r) =>
      if IsHolding(s, q) && s.queries[q].phase.registered >= |Paths(s.queries[q].sql)| && r !in s.makers {
        ExecuteIsolated(s, q, r);
      }
    case StartWarmUp(_, _) => MakerOnlyIsolated(s, step);
    case MakerFails(_) => MakerOnlyIsolated(s, step);
    case Build(m) =>
      if m in s.makers && s.makers[m].inHand == None {
        BuildIsolated(s, m);
      }
    case Put(m) =>
      if m in s.makers && s.makers[m].inHand.Some? {
        PutIsolated(s, m);
      }
  }

  /** Every interleaving keeps pooled contexts blank and bounded, and each query on its own tables. */
  lemma {:induction false} EveryRunIsolated(steps: seq<Step>)
    ensures Isolated(Run(steps))
  {
    if steps != [] {
      EveryRunIsolated(steps[..|steps| - 1]);
      StepIsolated(Run(steps[..|steps| - 1]), steps[|steps| - 1]);
    } else {
      assert ActiveQueries(Start()) == {};
    }
  }

  // ---------------------------------------------------------------------------
  // The queue-depth gauge
  // ---------------------------------------------------------------------------

  ghost predicate GaugeExact(s: State) {
    s.queueDepth == |ActiveQueries(s)|
  }

  /** The query fails after it was counted out, and so is counted out twice. */
  predicate LateFailure(s: State, step: Step) {
    step.Fail? && step.query in s.queries && s.queries[step.query].phase.Counted?
  }

  /** Number of late failures in a run. */
  function LateFailuresIn(steps: seq<Step>): nat {
    if steps == [] then 0
    else
      var init := steps[..|steps| - 1];
      LateFailuresIn(init) + if LateFailure(Run(init), steps[|steps| - 1]) then 1 else 0
  }

  lemma {:induction false} LateFailuresCounted(steps: seq<Step>)
    ensures Run(steps).lateFailures == LateFailuresIn(steps)
  {
    if steps != [] {
      LateFailuresCounted(steps[..|steps| - 1]);
      LateFailuresAfter(Run(steps[..|steps| - 1]), steps[|steps| - 1]);
    }
  }

  lemma LateFailuresAfter(s: State, step: Step)
    ensures Apply(s, step).lateFailures == s.lateFailures + if LateFailure(s, step) then 1 else 0
  {
  }

  /** The gauge never shows too many queries, and too few by at most the late failures; without any it is exact. */
  lemma GaugeIsExact(steps: seq<Step>)
    ensures 0 <= Run(steps).queueDepth <= |ActiveQueries(Run(steps))| <= Run(steps).queueDepth + LateFailuresIn(steps)
    ensures LateFailuresIn(steps) == 0 ==> GaugeExact(Run(steps))
  {
    EveryRunIsolated(steps);
    LateFailuresCounted(steps);
  }

  /** A query that gets a phase on the same side of the gauge leaves the active queries as they are. */
  lemma SameSide(s: State, s': State, q: nat, t: QueryThread)
    requires q in s.queries && s'.queries == s.queries[q := t] && (Active(t.phase) <==> Active(s.queries[q].phase))
    ensures ActiveQueries(s') == ActiveQueries(s)
  {
    ActiveAfter(s, q, t);
    assert ActiveQueries(s') == ActiveQueries(s.(queries := s.queries[q := t]));
  }

  /** Steps that neither bring a query nor end one do not move the gauge. */
  lemma GaugeUnmoved(s: State, step: Step)
    requires !step.Arrive? && !step.Leave? && !step.Fail?
    ensures ActiveQueries(Apply(s, step)) == ActiveQueries(s) && Apply(s, step).queueDepth == s.queueDepth
  {
    if step.Borrow? || step.CreateInline? || step.Register? || step.Execute? || step.Return? {
      PhaseUnmoved(s, step);
    } else {
      assert ActiveQueries(Apply(s, step)) == ActiveQueries(s);
    }
  }

  lemma PhaseUnmoved(s: State, step: Step)
    requires step.Borrow? || step.CreateInline? || step.Register? || step.Execute? || step.Return?
    ensures ActiveQueries(Apply(s, step)) == ActiveQueries(s)
  {
    var s', q := Apply(s, step), step.query;
    if s'.queries != s.queries {
      SameSide(s, s', q, s'.queries[q]);
    } else {
      assert ActiveQueries(s') == ActiveQueries(s);
    }
  }

  lemma ArrivalExact(s: State, q: nat, sql: Query)
    requires GaugeExact(s)
    ensures GaugeExact(Apply(s, Arrive(q, sql)))
  {
    if q !in s.queries {
      var t := QueryThread(sql, Waiting);
      ActiveAfter(s, q, t);
      assert ActiveQueries(Apply(s, Arrive(q, sql))) == ActiveQueries(s) + {q} && q !in ActiveQueries(s);
    }
  }

  lemma EndingExact(s: State, q: nat, p: Phase)
    requires GaugeExact(s) && q in s.queries && Active(s.queries[q].phase) && !Active(p)
    ensures GaugeExact(Ended(s, q, p))
  {
    ActiveAfter(s, q, s.queries[q].(phase := p));
    assert ActiveQueries(Ended(s, q, p)) == ActiveQueries(s) - {q} && q in ActiveQueries(s);
  }

  /** A late failure leaves an exact gauge exact only when no query is in progress; otherwise it shows one too few. */
  lemma LateFailureSkewsGauge(s: State, step: Step)
    requires GaugeExact(s) && LateFailure(s, step)
    ensures ActiveQueries(Apply(s, step)) == ActiveQueries(s)
    ensures Apply(s, step).queueDepth == Max(0, |ActiveQueries(s)| - 1)
    ensures GaugeExact(Apply(s, step)) <==> ActiveQueries(s) == {}
  {
    var q := step.query;
    SameSide(s, Apply(s, step), q, s.queries[q].(phase := Failed));
  }

  lemma StepKeepsExact(s: State, step: Step)
    requires GaugeExact(s)
    ensures GaugeExact(Apply(s, step)) <==> (LateFailure(s, step) ==> ActiveQueries(s) == {})
  {
    if LateFailure(s, step) {
      LateFailureSkewsGauge(s, step);
    } else {
      match step
      case Arrive(q, sql) => ArrivalExact(s, q, sql);
      case Leave(q) =>
        if q in s.queries && s.queries[q].phase.Ran? {
          EndingExact(s, q, Counted(s.queries[q].phase.result));
        }
      case Fail(q) =>
        if q in s.queries && Active(s.queries[q].phase) {
          EndingExact(s, q, Failed);
        }
      case _ => GaugeUnmoved(s, step);
    }
  }

  /** The gauge is exact after every step of the run. */
  ghost predicate ExactThroughout(steps: seq<Step>) {
    GaugeExact(Run(steps)) && (steps != [] ==> ExactThroughout(steps[..|steps| - 1]))
  }

  /** Whenever a query fails late, no other query is in progress. */
  ghost predicate LateFailuresAreAlone(steps: seq<Step>) {
    steps != [] ==>
      var init, last := steps[..|steps| - 1], steps[|steps| - 1];
      LateFailuresAreAlone(init) && (LateFailure(Run(init), last) ==> ActiveQueries(Run(init)) == {})
  }

  /** The gauge shows the queries in progress all through a run exactly when each late failure in it happens alone. */
  lemma {:induction false} ExactThroughoutIff(steps: seq<Step>)
    ensures ExactThroughout(steps) <==> LateFailuresAreAlone(steps)
  {
    if steps == [] {
      assert ActiveQueries(Start()) == {};
    } else {
      var init, last := steps[..|steps| - 1], steps[|steps| - 1];
      ExactThroughoutIff(init);
      if GaugeExact(Run(init)) {
        StepKeepsExact(Run(init), last);
      }
    }
  }

  // ---------------------------------------------------------------------------
  // The account of contexts
  // ---------------------------------------------------------------------------

  /**
   * What happened in a run: contexts put into the pool and taken from it, contexts queries created for
   * themselves, queries that executed, queries that failed with a context in hand, contexts that warm-ups
   * wanted, and contexts that warm-ups and replenishers gave up on (the pool was full, or they failed).
   */
  datatype Account = Account(puts: int, borrows: int, inline: int, executed: int, failedHolding: int, wanted: int,
                             givenUp: int)

  function Booked(a: Account, s: State, step: Step): Account {
    match step
    case Borrow(q) =>
      if q in s.queries && s.queries[q].phase.Waiting? && s.pool != [] then a.(borrows := a.borrows + 1) else a
    case CreateInline(q) =>
      if q in s.queries && s.queries[q].phase.PoolWasEmpty? then a.(inline := a.inline + 1) else a
    case Execute(q, r) =>
      if IsHolding(s, q) && s.queries[q].phase.registered >= |Paths(s.queries[q].sql)| && r !in s.makers
      then a.(executed := a.executed + 1) else a
    case Fail(q) =>
      if q in s.queries && s.queries[q].phase.Holding? then a.(failedHolding := a.failedHolding + 1) else a
    case StartWarmUp(m, n) => if m !in s.makers then a.(wanted := a.wanted + n) else a
    case Put(m) =>
      if m !in s.makers || s.makers[m].inHand == None then a
      else if |s.pool| < CTX_POOL_SIZE then a.(puts := a.puts + 1)
      else a.(givenUp := a.givenUp + s.makers[m].remaining)
    case MakerFails(m) =>
      if m in s.makers && s.makers[m].inHand == None then a.(givenUp := a.givenUp + s.makers[m].remaining) else a
    case _ => a
  }

  function AccountOf(steps: seq<Step>): Account {
    if steps == [] then Account(0, 0, 0, 0, 0, 0, 0)
    else
      var init := steps[..|steps| - 1];
      Booked(AccountOf(init), Run(init), steps[|steps| - 1])
  }

  ghost function HoldingQueries(queries: map<nat, QueryThread>): set<nat> {
    set q | q in queries && queries[q].phase.Holding?
  }

  /** One pair for each context that a warm-up or replenisher still has to put. */
  ghost function Owed(makers: map<nat, Maker>): set<(nat, nat)> {
    set m, i: nat | m in makers && i < makers[m].remaining :: (m, i)
  }

  lemma WithoutOne<T>(s: set<T>, x: T)
    ensures |s| == |s - {x}| + if x in s then 1 else 0
  {
    if x !in s {
      assert s - {x} == s;
    }
  }

  lemma HoldingAfter(queries: map<nat, QueryThread>, q: nat, t: QueryThread)
    ensures |HoldingQueries(queries[q := t])|
         == |HoldingQueries(queries)| - (if q in HoldingQueries(queries) then 1 else 0)
            + (if t.phase.Holding? then 1 else 0)
  {
    var before, after := HoldingQueries(queries), HoldingQueries(queries[q := t]);
    assert q in after <==> t.phase.Holding?;
    assert forall p :: p in after - {q} <==> p in before - {q};
    assert after - {q} == before - {q};
    WithoutOne(before, q);
    WithoutOne(after, q);
  }

  ghost function Pairs(m: nat, n: nat): set<(nat, nat)> {
    set i: nat | i < n :: (m, i)
  }

  lemma {:induction false} PairsCardinality(m: nat, n: nat)
    ensures |Pairs(m, n)| == n
  {
    if n > 0 {
      PairsCardinality(m, n - 1);
      assert Pairs(m, n) == Pairs(m, n - 1) + {(m, n - 1)};
    }
  }

  ghost function OwedByOthers(makers: map<nat, Maker>, m: nat): set<(nat, nat)> {
    set p | p in Owed(makers) && p.0 != m
  }

  lemma OwedSplit(makers: map<nat, Maker>, m: nat)
    ensures |Owed(makers)| == |OwedByOthers(makers, m)| + if m in makers then makers[m].remaining else 0
  {
    if m in makers {
      PairsCardinality(m, makers[m].remaining);
      assert Owed(makers) == OwedByOthers(makers, m) + Pairs(m, makers[m].remaining);
      assert OwedByOthers(makers, m) !! Pairs(m, makers[m].remaining);
    } else {
      assert Owed(makers) == OwedByOthers(makers, m);
    }
  }

  lemma OwedAfter(makers: map<nat, Maker>, m: nat, maker: Maker)
    ensures |Owed(makers[m := maker])|
         == |Owed(makers)| - (if m in makers then makers[m].remaining else 0) + maker.remaining
  {
    OwedSplit(makers, m);
    OwedSplit(makers[m := maker], m);
    forall p ensures p in OwedByOthers(makers, m) <==> p in OwedByOthers(makers[m := maker], m) {
      assert p in Owed(makers) <==> p.0 in makers && p.1 < makers[p.0].remaining;
      assert p in Owed(makers[m := maker]) <==> p.0 in makers[m := maker] && p.1 < makers[m := maker][p.0].remaining;
    }
    assert OwedByOthers(makers, m) == OwedByOthers(makers[m := maker], m);
  }

  ghost predicate Balanced(s: State, a: Account) {
    && |s.pool| == a.puts - a.borrows
    && |HoldingQueries(s.queries)| + a.executed + a.failedHolding == a.borrows + a.inline
    && a.puts + |Owed(s.makers)| + a.givenUp == a.wanted + a.executed
    && forall m :: m in s.makers && s.makers[m].inHand.Some? ==> s.makers[m].remaining > 0
  }

  /** One query gets a new phase, and the account is booked accordingly. */
  lemma QueryMoves(s: State, a: Account, s': State, a': Account, q: nat, t: QueryThread)
    requires Balanced(s, a)
    requires s'.queries == s.queries[q := t] && s'.makers == s.makers && |s'.pool| == a'.puts - a'.borrows
    requires a'.borrows + a'.inline - a'.executed - a'.failedHolding
          == a.borrows + a.inline - a.executed - a.failedHolding
             - (if q in HoldingQueries(s.queries) then 1 else 0) + (if t.phase.Holding? then 1 else 0)
    requires a'.puts + a'.givenUp - a'.wanted - a'.executed == a.puts + a.givenUp - a.wanted - a.executed
    ensures Balanced(s', a')
  {
    HoldingAfter(s.queries, q, t);
  }

  /** One maker changes, and the account is booked accordingly. */
  lemma MakerMoves(s: State, a: Account, s': State, a': Account, m: nat, maker: Maker)
    requires Balanced(s, a)
    requires s'.makers == s.makers[m := maker] && s'.queries == s.queries && |s'.pool| == a'.puts - a'.borrows
    requires a'.borrows + a'.inline - a'.executed - a'.failedHolding
          == a.borrows + a.inline - a.executed - a.failedHolding
    requires a'.puts + a'.givenUp - a'.wanted - a'.executed
          == a.puts + a.givenUp - a.wanted - a.executed
             + (if m in s.makers then s.makers[m].remaining else 0) - maker.remaining
    requires maker.inHand.Some? ==> maker.remaining > 0
    ensures Balanced(s', a')
  {
    OwedAfter(s.makers, m, maker);
  }

  lemma ArrivalBalanced(s: State, a: Account, step: Step)
    requires Balanced(s, a) && (step.Arrive? || step.Borrow? || step.CreateInline?)
    ensures Balanced(Apply(s, step), Booked(a, s, step))
  {
    var s', q := Apply(s, step), step.query;
    if s'.queries != s.queries {
      QueryMoves(s, a, s', Booked(a, s, step), q, s'.queries[q]);
    }
  }

  lemma LeaveBalanced(s: State, a: Account, step: Step)
    requires Balanced(s, a) && (step.Leave? || step.Return?)
    ensures Balanced(Apply(s, step), Booked(a, s, step))
  {
    var s', q := Apply(s, step), step.query;
    if s'.queries != s.queries {
      QueryMoves(s, a, s', a, q, s'.queries[q]);
    }
  }

  lemma FailBalanced(s: State, a: Account, q: nat)
    requires Balanced(s, a)
    ensures Balanced(Apply(s, Fail(q)), Booked(a, s, Fail(q)))
  {
    if q in s.queries && (Active(s.queries[q].phase) || s.queries[q].phase.Counted?) {
      QueryMoves(s, a, Apply(s, Fail(q)), Booked(a, s, Fail(q)), q, s.queries[q].(phase := Failed));
    }
  }

  lemma RegisterBalanced(s: State, a: Account, q: nat)
    requires Balanced(s, a)
    ensures Balanced(Apply(s, Register(q)), Booked(a, s, Register(q)))
  {
    var s' := Apply(s, Register(q));
    if s' != s {
      QueryMoves(s, a, s', a, q, s'.queries[q]);
    }
  }

  lemma ExecuteBalanced(s: State, a: Account, q: nat, r: nat)
    requires Balanced(s, a)
    ensures Balanced(Apply(s, Execute(q, r)), Booked(a, s, Execute(q, r)))
  {
    var s' := Apply(s, Execute(q, r));
    if s' != s {
      HoldingAfter(s.queries, q, s'.queries[q]);
      OwedAfter(s.makers, r, Maker(1, None));
    }
  }

  lemma MakerStepBalanced(s: State, a: Account, step: Step)
    requires Balanced(s, a) && (step.StartWarmUp? || step.Build? || step.MakerFails?)
    ensures Balanced(Apply(s, step), Booked(a, s, step))
  {
    var s', m := Apply(s, step), step.maker;
    if s'.makers != s.makers {
      MakerMoves(s, a, s', Booked(a, s, step), m, s'.makers[m]);
    }
  }

  lemma PutBalanced(s: State, a: Account, m: nat)
    requires Balanced(s, a)
    ensures Balanced(Apply(s, Put(m)), Booked(a, s, Put(m)))
  {
    if m in s.makers && s.makers[m].inHand.Some? {
      var s' := PutBack(s, m);
      MakerMoves(s, a, s', Booked(a, s, Put(m)), m, s'.makers[m]);
    }
  }

  lemma StepBalanced(s: State, a: Account, step: Step)
    requires Balanced(s, a)
    ensures Balanced(Apply(s, step), Booked(a, s, step))
  {
    match step
    case Arrive(_, _) => ArrivalBalanced(s, a, step);
    case Borrow(_) => ArrivalBalanced(s, a, step);
    case CreateInline(_) => ArrivalBalanced(s, a, step);
    case Register(q) => RegisterBalanced(s, a, q);
    case Execute(q, r) => ExecuteBalanced(s, a, q, r);
    case Put(m) => PutBalanced(s, a, m);
    case StartWarmUp(_, _) => MakerStepBalanced(s, a, step);
    case Build(_) => MakerStepBalanced(s, a, step);
    case MakerFails(_) => MakerStepBalanced(s, a, step);
    case Leave(_) => LeaveBalanced(s, a, step);
    case Return(_) => LeaveBalanced(s, a, step);
    case Fail(q) => FailBalanced(s, a, q);
  }

  /**
   * No context is created twice or forgotten: those pooled, held, owed, given up, and lost with queries
   * that failed while holding one, are together the ones warm-ups wanted and queries created themselves.
   * So each such failure leaves the pool one short, until a query that created its own context succeeds
   * or another warm-up makes up for it.
   */
  lemma {:induction false} EveryRunBalanced(steps: seq<Step>)
    ensures Balanced(Run(steps), AccountOf(steps))
    ensures var (s, a) := (Run(steps), AccountOf(steps));
            |s.pool| + |HoldingQueries(s.queries)| + |Owed(s.makers)| + a.givenUp + a.failedHolding
            == a.wanted + a.inline
  {
    if steps != [] {
      var init := steps[..|steps| - 1];
      EveryRunBalanced(init);
      StepBalanced(Run(init), AccountOf(init), steps[|steps| - 1]);
    }
  }

  /** What a warm-up or replenisher builds is a new blank context, and it is this one that it puts. */
  lemma BuiltIsPut(s: State, m: nat)
    requires m in s.makers && s.makers[m].inHand == None && s.makers[m].remaining > 0
    ensures var built := Apply(s, Build(m));
            && built.makers[m].inHand == Some(s.next) && built.tables[s.next] == map[] && built.pool == s.pool
            && (|s.pool| < 8 ==> Apply(built, Put(m)).pool == s.pool + [s.next])
  {
  }

  /** A query that finds the pool empty gets a new blank context of its own; otherwise one from the pool. */
  lemma BorrowedOrCreated(s: State, q: nat)
    requires q in s.queries && s.queries[q].phase.Waiting?
    ensures s.pool != [] ==>
              && Apply(s, Borrow(q)).queries[q].phase == Holding(s.pool[0], 0)
              && Apply(s, Borrow(q)).pool == s.pool[1..]
    ensures s.pool == [] ==>
              var created := Apply(Apply(s, Borrow(q)), CreateInline(q));
              created.queries[q].phase == Holding(s.next, 0) && created.tables[s.next] == map[] && created.pool == []
  {
  }

  /** An executed query first leaves the gauge, then returns its result. */
  lemma ResultReturned(s: State, q: nat)
    requires q in s.queries && s.queries[q].phase.Ran?
    ensures var (left, r) := (Apply(s, Leave(q)), s.queries[q].phase.result);
            && left.queries[q].phase == Counted(r) && left.queueDepth == Max(0, s.queueDepth - 1)
            && Apply(left, Return(q)).queries[q].phase == Done(r)
            && Apply(left, Return(q)).queueDepth == left.queueDepth
  {
  }

  /**
   * A context put into a pool of fewer than eight is pooled; put into a full one it is dropped and its thread
   * stops.
   */
  lemma PutEffect(s: State, m: nat, c: CtxId)
    requires m in s.makers && s.makers[m].inHand == Some(c) && s.makers[m].remaining > 0
    ensures var s' := Apply(s, Put(m));
            |s.pool| < 8 ==>
              && s'.pool == s.pool + [c] && s'.place == s.place[c := Pooled]
              && s'.makers == s.makers[m := Maker(s.makers[m].remaining - 1, None)]
    ensures var s' := Apply(s, Put(m));
            |s.pool| >= 8 ==>
              s'.pool == s.pool && s'.place == s.place[c := Dropped] && s'.makers == s.makers[m := Maker(0, None)]
  {
  }

  /** So the pool holds at most eight contexts in any run, and whoever has one in hand still owes it. */
  lemma PoolHoldsEight(steps: seq<Step>)
    ensures |Run(steps).pool| <= 8
    ensures forall m :: m in Run(steps).makers && Run(steps).makers[m].inHand.Some? ==>
            Run(steps).makers[m].remaining > 0
  {
    EveryRunIsolated(steps);
    EveryRunBalanced(steps);
  }

  // ---------------------------------------------------------------------------
  // What a query may rely on
  // ---------------------------------------------------------------------------

  /** A context once lent to a query is never pooled or lent again. */
  lemma {:induction false} LentForGood(steps: seq<Step>, n: nat, c: CtxId)
    requires n <= |steps|
    requires c in Run(steps[..n]).place && Run(steps[..n]).place[c].LentTo?
    ensures c in Run(steps).place && Run(steps).place[c] == Run(steps[..n]).place[c]
    ensures c !in Run(steps).pool
    decreases |steps| - n
  {
    if n == |steps| {
      assert steps[..n] == steps;
    } else {
      var s, step := Run(steps[..n]), steps[n];
      assert steps[..n + 1][..n] == steps[..n];
      EveryRunIsolated(steps[..n]);
      StaysLent(s, step, c);
      LentForGood(steps, n + 1, c);
    }
    EveryRunIsolated(steps);
  }

  lemma StaysLent(s: State, step: Step, c: CtxId)
    requires Isolated(s) && c in s.place && s.place[c].LentTo?
    ensures c in Apply(s, step).place && Apply(s, step).place[c] == s.place[c]
  {
    if step.Borrow? && s.pool != [] {
      assert s.pool[0] in s.pool;
    }
    if step.Put? && step.maker in s.makers {
      assert MakerOk(s, step.maker);
    }
  }

  /**
   * Whatever runs beside it, a query that executes reads exactly the files it names, in the
   * places it names them, exactly when none of its own words clashes with an alias.
   */
  lemma EveryResultIsOwnMeaning(steps: seq<Step>, q: nat)
    requires var s := Run(steps);
             && q in s.queries
             && (s.queries[q].phase.Ran? || s.queries[q].phase.Counted? || s.queries[q].phase.Done?)
    ensures var t := Run(steps).queries[q];
            && |t.phase.result| == |t.sql|
            && (FilesOnly(t.phase.result) == FilesOnly(Meaning(t.sql))
                <==> forall i :: 0 <= i < |t.sql| ==> !Clashes(t.sql, i))
  {
    EveryRunIsolated(steps);
    assert QueryOk(Run(steps), q);
    RewritePreservesFiles(Run(steps).queries[q].sql);
  }
}
