/**
 * Model of the sync failover in server/app/core/openai_client.py: chat_complete_with_failover
 * over get_chat_client and report_chat_failure. Unlike the async pool it keeps no set of
 * tried lanes, and it trips a lane found again by its deployment id.
 */
module OpenAiClient {
  import opened Common
  import opened ModelPool

  /** The lane report_chat_failure trips: the first one configured with that deployment id. */
  function FirstWithId(lanes: seq<Deployment>, id: string): (r: Option<Deployment>)
    ensures r.Some? ==> r.value in lanes && r.value.deploymentId == id
    ensures r == None <==> forall d :: d in lanes ==> d.deploymentId != id
  {
    if lanes == [] then None
    else if lanes[0].deploymentId == id then Some(lanes[0])
    else FirstWithId(lanes[1..], id)
  }

  /** The breaker map after lane d failed; nothing happens unless several lanes are configured. */
  function Reported(lanes: seq<Deployment>, health: Health, d: Deployment, deadline: real): Health {
    if |lanes| <= 1 then health
    else
      match FirstWithId(lanes, d.deploymentId)
      case None => health
      case Some(e) => health[e.name := deadline]
  }

  /** The lane get_chat_client returns: the legacy one unless several are configured. */
  function Client(lanes: seq<Deployment>, legacy: Deployment, tier: string, health: Health, step: Step): Deployment {
    if |lanes| <= 1 then legacy
    else
      match Select(lanes, health, step.token, Chat, tier, step.selectAt)
      case None => legacy
      case Some(d) => d
  }

  /** One lane, or none for chat, means the legacy one; otherwise it is the selection among the chat lanes. */
  lemma ClientIs(lanes: seq<Deployment>, legacy: Deployment, tier: string, health: Health, step: Step)
    ensures |lanes| <= 1 || (forall d :: d in lanes ==> d.kind != Chat) ==>
              Client(lanes, legacy, tier, health, step) == legacy
    ensures |lanes| > 1 && (exists d :: d in lanes && d.kind == Chat) ==>
              && Some(Client(lanes, legacy, tier, health, step))
                 == Select(lanes, health, step.token, Chat, tier, step.selectAt)
              && Client(lanes, legacy, tier, health, step) in Candidates(lanes, Chat, tier)
  {
    SelectIsHealthAware(lanes, health, step.token, Chat, tier, step.selectAt);
  }

  /** With several lanes, exactly the first lane with the id gets the deadline; with one lane nothing does. */
  lemma ReportedIs(lanes: seq<Deployment>, health: Health, d: Deployment, deadline: real, k: nat)
    ensures |lanes| <= 1 || (forall e :: e in lanes ==> e.deploymentId != d.deploymentId) ==>
              Reported(lanes, health, d, deadline) == health
    ensures |lanes| > 1 && k < |lanes| && lanes[k].deploymentId == d.deploymentId
            && (forall i :: 0 <= i < k ==> lanes[i].deploymentId != d.deploymentId) ==>
              Reported(lanes, health, d, deadline) == health[lanes[k].name := deadline]
  {
    if k < |lanes| && lanes[k].deploymentId == d.deploymentId
      && forall i :: 0 <= i < k ==> lanes[i].deploymentId != d.deploymentId {
      ReportTripsPickedLane(lanes, k);
    }
  }

  /** With gpt-4o disabled every request is one for the tier "fallback". */
  function EffectiveTier(disableGpt4o: bool, tier: string): string {
    if disableGpt4o then "fallback" else tier
  }

  /** So no request is narrowed to the high lanes then; otherwise the tier is the one asked for. */
  lemma DisabledNeverNarrows(lanes: seq<Deployment>, tier: string, d: Deployment)
    ensures d in Candidates(lanes, Chat, EffectiveTier(true, tier)) <==> d in lanes && d.kind == Chat
    ensures EffectiveTier(false, tier) == tier
  {
    CandidatesAre(lanes, Chat, EffectiveTier(true, tier), d);
    assert EffectiveTier(true, tier)[0] != "high"[0];
  }

  function ClientFor(lanes: seq<Deployment>, legacy: Deployment, tier: string): Picker {
    (health: Health, step: Step) => Some(Client(lanes, legacy, tier, health, step))
  }

  // ---------------------------------------------------------------------------
  // The attempts of one call
  // ---------------------------------------------------------------------------

  /**
   * One call in progress or done: the breaker map it found, the cooldown, the world it runs in, the lanes
   * it used, the end of each lane's cooldown after its failure, and the map each selection read.
   */
  datatype SyncCourse = SyncCourse(
    h0: Health, cooldown: real, world: World, attempts: seq<Deployment>, deadlines: seq<real>, seen: seq<Health>)

  function WithSyncAttempt(c: SyncCourse, d: Deployment, deadline: real, read: Health): SyncCourse {
    c.(attempts := c.attempts + [d], deadlines := c.deadlines + [deadline], seen := c.seen + [read])
  }

  /** The breaker map after the first k attempts failed. */
  function SyncLeft(lanes: seq<Deployment>, c: SyncCourse, k: nat): Health
    requires k <= |c.attempts| == |c.seen| == |c.deadlines|
  {
    if k == 0 then c.h0 else Reported(lanes, c.seen[k - 1], c.attempts[k - 1], c.deadlines[k - 1])
  }

  ghost predicate ClientAt(pick: Picker, lanes: seq<Deployment>, c: SyncCourse, i: nat)
    requires i < |c.attempts| == |c.seen| == |c.deadlines| <= |c.world|
  {
    && c.seen[i] == SyncLeft(lanes, c, i) + c.world[i].others
    && Picked(pick, c.seen[i], c.world[i]) == Some(c.attempts[i])
  }

  /** The lanes one call uses, in order; attempt i fails with `deadlines[i]` as the end of its cooldown. */
  ghost predicate SyncTrace(pick: Picker, lanes: seq<Deployment>, c: SyncCourse)
  {
    && |c.attempts| == |c.seen| == |c.deadlines| <= |c.world|
    && (forall i :: 0 <= i < |c.attempts| ==> c.deadlines[i] == c.world[i].failAt + c.cooldown)
    && forall i :: 0 <= i < |c.attempts| ==> ClientAt(pick, lanes, c, i)
  }

  ghost predicate UniqueLanes(lanes: seq<Deployment>) {
    && (forall i, j :: 0 <= i < j < |lanes| ==> lanes[i].name != lanes[j].name)
    && forall i, j :: 0 <= i < j < |lanes| ==> lanes[i].deploymentId != lanes[j].deploymentId
  }

  /** A failed lane is the one tripped exactly when no lane configured before it has its deployment id. */
  lemma {:induction false} ReportTripsPickedLane(lanes: seq<Deployment>, k: nat)
    requires k < |lanes| && forall i :: 0 <= i < k ==> lanes[i] != lanes[k]
    ensures FirstWithId(lanes, lanes[k].deploymentId) == Some(lanes[k])
       <==> forall i :: 0 <= i < k ==> lanes[i].deploymentId != lanes[k].deploymentId
  {
    var id := lanes[k].deploymentId;
    if k > 0 && lanes[0].deploymentId != id {
      var rest := lanes[1..];
      assert rest[k - 1] == lanes[k] && forall i :: 0 <= i < k - 1 ==> rest[i] == lanes[i + 1];
      ReportTripsPickedLane(rest, k - 1);
      assert forall i :: 1 <= i < k ==> lanes[i] == rest[i - 1];
      assert FirstWithId(lanes, id) == FirstWithId(rest, id);
    }
  }

  lemma NamesTell(lanes: seq<Deployment>, a: Deployment, b: Deployment)
    requires UniqueLanes(lanes) && a in lanes && b in lanes && a != b
    ensures a.name != b.name
  {
  }

  lemma UniqueIdIsTripped(lanes: seq<Deployment>, d: Deployment)
    requires UniqueLanes(lanes) && d in lanes
    ensures FirstWithId(lanes, d.deploymentId) == Some(d)
  {
  }

  /** Two lanes serving the same deployment id in two regions: the failure of the second trips the first. */
  lemma SharedIdTripsOtherLane(a: Deployment, b: Deployment, health: Health, deadline: real)
    requires a.name != b.name && a.deploymentId == b.deploymentId
    ensures Reported([a, b], health, b, deadline) == health[a.name := deadline]
    ensures CoolingUntil(Reported([a, b], health, b, deadline), b) == CoolingUntil(health, b)
  {
  }

  /** Once attempt i has failed, its lane has at least `until` as its deadline at every later selection of the call. */
  lemma {:induction false} FailedLanesCool(pick: Picker, lanes: seq<Deployment>, c: SyncCourse, until: real, i: nat,
                                           k: nat)
    requires SyncTrace(pick, lanes, c)
    requires i < k < |c.attempts| && TripsLast(c.world, k, c.cooldown, until)
    requires |lanes| > 1 && UniqueLanes(lanes) && c.attempts[i] in lanes && c.attempts[k - 1] in lanes
    requires forall j :: 0 <= j < k ==> c.attempts[j] in lanes
    ensures c.attempts[i].name in c.seen[k] && c.seen[k][c.attempts[i].name] >= until
  {
    assert ClientAt(pick, lanes, c, k);
    assert c.deadlines[k - 1] >= until;
    UniqueIdIsTripped(lanes, c.attempts[k - 1]);
    if i < k - 1 {
      FailedLanesCool(pick, lanes, c, until, i, k - 1);
    }
  }

  /** A lane that neither this call nor another tripped keeps its deadline. */
  lemma {:induction false} IdleLanesKeep(pick: Picker, lanes: seq<Deployment>, c: SyncCourse, k: nat, lane: Deployment)
    requires SyncTrace(pick, lanes, c)
    requires k < |c.attempts| && |lanes| > 1 && UniqueLanes(lanes) && lane in lanes
    requires forall j :: 0 <= j < k ==> c.attempts[j] in lanes && c.attempts[j] != lane
    requires !TrippedByOthers(c.world, k, lane.name)
    ensures CoolingUntil(c.seen[k], lane) == CoolingUntil(c.h0, lane)
  {
    assert ClientAt(pick, lanes, c, k);
    assert lane.name !in c.world[k].others;
    if k > 0 {
      assert !TrippedByOthers(c.world, k - 1, lane.name);
      UniqueIdIsTripped(lanes, c.attempts[k - 1]);
      IdleLanesKeep(pick, lanes, c, k - 1, lane);
    }
  }

  ghost predicate AllChat(lanes: seq<Deployment>) {
    forall d :: d in lanes ==> d.kind == Chat
  }

  lemma AttemptsAreLanes(lanes: seq<Deployment>, legacy: Deployment, tier: string, c: SyncCourse)
    requires SyncTrace(ClientFor(lanes, legacy, tier), lanes, c)
    requires |lanes| > 1 && AllChat(lanes)
    ensures forall i :: 0 <= i < |c.attempts| ==>
              && c.attempts[i] in lanes && c.attempts[i] in Candidates(lanes, Chat, tier)
              && Select(lanes, c.seen[i], c.world[i].token, Chat, tier, c.world[i].selectAt) == Some(c.attempts[i])
  {
    forall i | 0 <= i < |c.attempts|
      ensures c.attempts[i] in lanes && c.attempts[i] in Candidates(lanes, Chat, tier)
      ensures Select(lanes, c.seen[i], c.world[i].token, Chat, tier, c.world[i].selectAt) == Some(c.attempts[i])
    {
      assert ClientAt(ClientFor(lanes, legacy, tier), lanes, c, i);
      SelectIsHealthAware(lanes, c.seen[i], c.world[i].token, Chat, tier, c.world[i].selectAt);
      assert lanes[0] in lanes;
    }
  }

  /**
   * A lane is used twice, while no trip made during the call has run out, only when every candidate
   * had failed here or been tripped elsewhere.
   */
  lemma RepeatMeansAllCool(lanes: seq<Deployment>, legacy: Deployment, tier: string, c: SyncCourse, until: real,
                           i: nat, j: nat, lane: Deployment)
    requires SyncTrace(ClientFor(lanes, legacy, tier), lanes, c)
    requires |lanes| > 1 && AllChat(lanes) && UniqueLanes(lanes)
    requires i < j < |c.attempts| && c.attempts[i] == c.attempts[j]
    requires TripsLast(c.world, j, c.cooldown, until) && c.world[j].selectAt < until
    requires lane in Candidates(lanes, Chat, tier) && CoolingUntil(c.h0, lane) < until
    ensures (exists p :: 0 <= p < j && c.attempts[p] == lane) || TrippedByOthers(c.world, j, lane.name)
  {
    AttemptsAreLanes(lanes, legacy, tier, c);
    FailedLanesCool(ClientFor(lanes, legacy, tier), lanes, c, until, i, j);
    SelectIsHealthAware(lanes, c.seen[j], c.world[j].token, Chat, tier, c.world[j].selectAt);
    if !(exists p :: 0 <= p < j && c.attempts[p] == lane) && !TrippedByOthers(c.world, j, lane.name) {
      IdleLanesKeep(ClientFor(lanes, legacy, tier), lanes, c, j, lane);
      assert false;
    }
  }

  /** Each attempt is selected, then fails, then the next one is selected. */
  ghost predicate ClockAdvances(world: World) {
    && (forall i :: 0 <= i < |world| ==> world[i].selectAt <= world[i].failAt)
    && forall i, j :: 0 <= i < j < |world| ==> world[i].failAt <= world[j].selectAt
  }

  /** A call that runs alone over lanes that are all healthy when it starts. */
  ghost predicate CalmCall(lanes: seq<Deployment>, tier: string, c: SyncCourse) {
    && |lanes| > 1 && AllChat(lanes) && UniqueLanes(lanes)
    && c.world != [] && ClockAdvances(c.world) && Alone(c.world)
    && forall d :: d in Candidates(lanes, Chat, tier) ==> CoolingUntil(c.h0, d) <= c.world[0].selectAt
  }

  /** The last of n selections comes before the first failed lane is out of its cooldown. */
  ghost predicate NoneRecovers(c: SyncCourse, n: nat)
    requires n <= |c.world|
  {
    n >= 2 ==> c.world[n - 1].selectAt < c.world[0].failAt + c.cooldown
  }

  /**
   * In a calm call in which no lane recovers, a repeated lane means every eligible lane was used before the
   * repetition.
   */
  lemma RepeatMeansAllUsed(lanes: seq<Deployment>, legacy: Deployment, tier: string, c: SyncCourse, i: nat, j: nat,
                           lane: Deployment)
    requires SyncTrace(ClientFor(lanes, legacy, tier), lanes, c)
    requires CalmCall(lanes, tier, c) && NoneRecovers(c, |c.attempts|)
    requires i < j < |c.attempts| && c.attempts[i] == c.attempts[j] && lane in Candidates(lanes, Chat, tier)
    ensures lane in c.attempts[..j]
  {
    assert c.world[0].selectAt <= c.world[0].failAt <= c.world[j].selectAt;
    RepeatMeansAllCool(lanes, legacy, tier, c, c.world[0].failAt + c.cooldown, i, j, lane);
    var p :| 0 <= p < j && c.attempts[p] == lane;
    assert c.attempts[..j][p] == lane;
  }

  lemma DistinctIffCovered<T>(used: seq<T>, eligible: set<T>)
    requires Elements(used) <= eligible
    requires forall i, j :: 0 <= i < j < |used| && used[i] == used[j] ==> eligible <= Elements(used[..j])
    ensures Distinct(used) <==> |used| <= |eligible|
  {
    if Distinct(used) {
      DistinctBounded(used, eligible);
    } else {
      var i, j :| 0 <= i < j < |used| && used[i] == used[j];
      SubsetCardinality(eligible, Elements(used[..j]));
      DistinctCardinality(used[..j]);
    }
  }

  /** Then the attempts hit pairwise distinct lanes exactly when there are no more attempts than eligible lanes. */
  lemma DistinctIffEnoughLanes(lanes: seq<Deployment>, legacy: Deployment, tier: string, c: SyncCourse,
                               eligible: set<Deployment>)
    requires SyncTrace(ClientFor(lanes, legacy, tier), lanes, c)
    requires CalmCall(lanes, tier, c) && NoneRecovers(c, |c.attempts|)
    requires eligible == Elements(Candidates(lanes, Chat, tier))
    ensures Distinct(c.attempts) <==> |c.attempts| <= |eligible|
    ensures Elements(c.attempts) <= eligible
  {
    AttemptsAreLanes(lanes, legacy, tier, c);
    forall i, j | 0 <= i < j < |c.attempts| && c.attempts[i] == c.attempts[j]
      ensures eligible <= Elements(c.attempts[..j])
    {
      forall lane | lane in eligible ensures lane in c.attempts[..j] {
        RepeatMeansAllUsed(lanes, legacy, tier, c, i, j, lane);
      }
    }
    DistinctIffCovered(c.attempts, eligible);
  }

  // ---------------------------------------------------------------------------
  // The exact condition, over every choice of tokens
  // ---------------------------------------------------------------------------

  /** The same clock and no other calls, with any tokens in [0, 1). */
  ghost predicate SameClock(world: World, other: World) {
    && |other| == |world| && Alone(other)
    && forall i :: 0 <= i < |world| ==>
         && other[i].selectAt == world[i].selectAt && other[i].failAt == world[i].failAt
         && 0.0 <= other[i].token < 1.0
  }

  /** A call under the same conditions, but for its tokens and its attempts. */
  ghost predicate SameStart(start: SyncCourse, c: SyncCourse) {
    c.h0 == start.h0 && c.cooldown == start.cooldown && SameClock(start.world, c.world)
  }

  /** Whatever the tokens, n attempts of such a call hit pairwise distinct lanes. */
  ghost predicate AlwaysDistinct(lanes: seq<Deployment>, legacy: Deployment, tier: string, start: SyncCourse, n: nat) {
    forall c ::
      SameStart(start, c) && |c.attempts| == n && SyncTrace(ClientFor(lanes, legacy, tier), lanes, c)
      ==> Distinct(c.attempts)
  }

  /** Every start has its attempts. */
  lemma {:induction false} SomeTrace(pick: Picker, lanes: seq<Deployment>, start: SyncCourse, n: nat)
    returns (c: SyncCourse)
    requires n <= |start.world| && forall h: Health, step: Step :: Picked(pick, h, step).Some?
    ensures c.h0 == start.h0 && c.cooldown == start.cooldown && c.world == start.world
    ensures |c.attempts| == n && SyncTrace(pick, lanes, c)
  {
    if n == 0 {
      c := start.(attempts := [], deadlines := [], seen := []);
    } else {
      var before := SomeTrace(pick, lanes, start, n - 1);
      var step := start.world[n - 1];
      var read, deadline := SyncLeft(lanes, before, n - 1) + step.others, step.failAt + start.cooldown;
      var lane := Picked(pick, read, step).value;
      SyncExtends(pick, lanes, before, read, lane, deadline);
      c := WithSyncAttempt(before, lane, deadline, read);
    }
  }

  /** Attempts depend only on the steps before them. */
  lemma SameSteps(pick: Picker, lanes: seq<Deployment>, c: SyncCourse, other: World)
    requires SyncTrace(pick, lanes, c)
    requires |c.attempts| <= |other| && forall i :: 0 <= i < |c.attempts| ==> other[i] == c.world[i]
    ensures SyncTrace(pick, lanes, c.(world := other))
  {
    forall i | 0 <= i < |c.attempts| ensures ClientAt(pick, lanes, c.(world := other), i) {
      assert ClientAt(pick, lanes, c, i);
      assert SyncLeft(lanes, c.(world := other), i) == SyncLeft(lanes, c, i);
    }
  }

  /** A lane used once, by attempt i of a call running alone, has the deadline of that failure. */
  lemma {:induction false} OnceUsedDeadline(pick: Picker, lanes: seq<Deployment>, c: SyncCourse, k: nat, i: nat)
    requires SyncTrace(pick, lanes, c) && Alone(c.world)
    requires i < k <= |c.attempts| && |lanes| > 1 && UniqueLanes(lanes) && Distinct(c.attempts)
    requires forall j :: 0 <= j < k ==> c.attempts[j] in lanes
    ensures CoolingUntil(SyncLeft(lanes, c, k), c.attempts[i]) == c.world[i].failAt + c.cooldown
  {
    UniqueIdIsTripped(lanes, c.attempts[k - 1]);
    if i < k - 1 {
      assert ClientAt(pick, lanes, c, k - 1);
      assert c.seen[k - 1] == SyncLeft(lanes, c, k - 1);
      NamesTell(lanes, c.attempts[i], c.attempts[k - 1]);
      OnceUsedDeadline(pick, lanes, c, k - 1, i);
    }
  }

  /** The token that makes the next pick the given healthy lane of positive weight. */
  lemma TokenPicking(lanes: seq<Deployment>, legacy: Deployment, tier: string, health: Health, step: Step,
                     lane: Deployment)
    returns (token: real)
    requires |lanes| > 1 && AllChat(lanes) && lane in Candidates(lanes, Chat, tier) && lane.weight > 0.0
    requires CoolingUntil(health, lane) <= step.selectAt
    ensures 0.0 <= token < 1.0
    ensures Picked(ClientFor(lanes, legacy, tier), health, step.(token := token)) == Some(lane)
  {
    token := TokenDrawing(Healthy(Candidates(lanes, Chat, tier), health, step.selectAt), lane);
  }

  /** With the first failed lane out of its cooldown, some token makes the next pick a repetition. */
  lemma RepeatingToken(lanes: seq<Deployment>, legacy: Deployment, tier: string, c: SyncCourse)
    returns (token: real, lane: Deployment)
    requires CalmCall(lanes, tier, c) && SyncTrace(ClientFor(lanes, legacy, tier), lanes, c)
    requires 0 < |c.attempts| < |c.world| && !NoneRecovers(c, |c.attempts| + 1)
    requires forall d :: d in Candidates(lanes, Chat, tier) ==> d.weight > 0.0
    ensures 0.0 <= token < 1.0 && (Distinct(c.attempts) ==> lane == c.attempts[0])
    ensures NextPick(ClientFor(lanes, legacy, tier), lanes, c, token) == Some(lane)
  {
    var pick, k := ClientFor(lanes, legacy, tier), |c.attempts|;
    var read := SyncLeft(lanes, c, k);
    AttemptsAreLanes(lanes, legacy, tier, c);
    if Distinct(c.attempts) {
      OnceUsedDeadline(pick, lanes, c, k, 0);
      lane := c.attempts[0];
      token := TokenPicking(lanes, legacy, tier, read, c.world[k], lane);
    } else {
      token := 0.0;
      lane := Client(lanes, legacy, tier, read, c.world[k].(token := token));
    }
  }

  /** What a call that runs alone picks next with a token. */
  ghost function NextPick(pick: Picker, lanes: seq<Deployment>, c: SyncCourse, token: real): Option<Deployment>
    requires |c.attempts| == |c.deadlines| == |c.seen| < |c.world|
  {
    Picked(pick, SyncLeft(lanes, c, |c.attempts|), c.world[|c.attempts|].(token := token))
  }

  /** One more attempt, with another token. */
  lemma ExtendWith(pick: Picker, lanes: seq<Deployment>, c: SyncCourse, token: real, lane: Deployment)
    returns (c': SyncCourse)
    requires SyncTrace(pick, lanes, c) && |c.attempts| < |c.world| && c.world[|c.attempts|].others == map[]
    requires NextPick(pick, lanes, c, token) == Some(lane)
    ensures SyncTrace(pick, lanes, c') && c'.attempts == c.attempts + [lane]
    ensures c'.h0 == c.h0 && c'.cooldown == c.cooldown && c'.world == WithToken(c.world, |c.attempts|, token)
  {
    var k := |c.attempts|;
    var other, read, deadline := WithToken(c.world, k, token), SyncLeft(lanes, c, k), c.world[k].failAt + c.cooldown;
    SameSteps(pick, lanes, c, other);
    assert read + other[k].others == read;
    assert SyncLeft(lanes, c.(world := other), k) == read;
    SyncExtends(pick, lanes, c.(world := other), read, lane, deadline);
    c' := WithSyncAttempt(c.(world := other), lane, deadline, read);
  }

  lemma RedrawnClock(world: World, k: nat, token: real)
    requires SameClock(world, world) && k < |world| && 0.0 <= token < 1.0
    ensures SameClock(world, WithToken(world, k, token))
  {
  }

  /** Some token for the next selection then makes the attempts repeat a lane. */
  lemma RepeatsNext(lanes: seq<Deployment>, legacy: Deployment, tier: string, before: SyncCourse)
    returns (c: SyncCourse)
    requires CalmCall(lanes, tier, before) && SyncTrace(ClientFor(lanes, legacy, tier), lanes, before)
    requires SameStart(before, before)
    requires 0 < |before.attempts| < |before.world| && !NoneRecovers(before, |before.attempts| + 1)
    requires forall d :: d in Candidates(lanes, Chat, tier) ==> d.weight > 0.0
    ensures SameStart(before, c) && |c.attempts| == |before.attempts| + 1 && !Distinct(c.attempts)
    ensures SyncTrace(ClientFor(lanes, legacy, tier), lanes, c)
  {
    var token, lane := RepeatingToken(lanes, legacy, tier, before);
    RedrawnClock(before.world, |before.attempts|, token);
    c := ExtendWith(ClientFor(lanes, legacy, tier), lanes, before, token, lane);
    RepeatedLane(before.attempts, lane);
  }

  /** If the first failed lane is out of its cooldown by selection n - 1, some tokens make n attempts repeat a lane. */
  lemma RecoveryRepeats(lanes: seq<Deployment>, legacy: Deployment, tier: string, start: SyncCourse, n: nat)
    returns (c: SyncCourse)
    requires CalmCall(lanes, tier, start) && SameStart(start, start) && n <= |start.world| && !NoneRecovers(start, n)
    requires forall d :: d in Candidates(lanes, Chat, tier) ==> d.weight > 0.0
    ensures SameStart(start, c) && |c.attempts| == n && !Distinct(c.attempts)
    ensures SyncTrace(ClientFor(lanes, legacy, tier), lanes, c)
  {
    var before := SomeTrace(ClientFor(lanes, legacy, tier), lanes, start, n - 1);
    c := RepeatsNext(lanes, legacy, tier, before);
  }

  lemma RepeatedLane(a: seq<Deployment>, lane: Deployment)
    requires a != [] && (Distinct(a) ==> lane == a[0])
    ensures !Distinct(a + [lane])
  {
    if Distinct(a) {
      assert (a + [lane])[|a|] == (a + [lane])[0];
    } else {
      var i, j :| 0 <= i < j < |a| && a[i] == a[j];
      assert (a + [lane])[i] == (a + [lane])[j];
    }
  }

  /**
   * The retry on the next pick reaches a new lane, whatever the tokens, exactly when the call makes no
   * more attempts than there are eligible lanes and its last selection comes before the lane that
   * failed first is out of its cooldown.
   */
  lemma AlwaysDistinctIff(lanes: seq<Deployment>, legacy: Deployment, tier: string, start: SyncCourse, n: nat,
                          eligible: set<Deployment>)
    requires CalmCall(lanes, tier, start) && SameStart(start, start) && n <= |start.world|
    requires eligible == Elements(Candidates(lanes, Chat, tier)) && forall d :: d in eligible ==> d.weight > 0.0
    ensures AlwaysDistinct(lanes, legacy, tier, start, n) <==> n <= |eligible| && NoneRecovers(start, n)
  {
    if !NoneRecovers(start, n) {
      var c := RecoveryRepeats(lanes, legacy, tier, start, n);
    } else {
      var c := SomeTrace(ClientFor(lanes, legacy, tier), lanes, start, n);
      DistinctIffEnoughLanes(lanes, legacy, tier, c, eligible);
      forall c | SameStart(start, c) && |c.attempts| == n && SyncTrace(ClientFor(lanes, legacy, tier), lanes, c)
        ensures Distinct(c.attempts) <==> n <= |eligible|
      {
        DistinctIffEnoughLanes(lanes, legacy, tier, c, eligible);
      }
    }
  }

  /** How many attempts a call may make; the default is one per chat lane, between 1 and 4. */
  function AttemptLimit(lanes: seq<Deployment>, maxAttempts: Option<int>): int {
    match maxAttempts
    case Some(n) => n
    case None => Min(4, Max(1, |lanes|))
  }

  /** An explicit limit counts as it is; the default is the number of lanes, at least one and at most four. */
  lemma AttemptLimitIs(lanes: seq<Deployment>, n: int)
    ensures AttemptLimit(lanes, Some(n)) == n
    ensures |lanes| == 0 ==> AttemptLimit(lanes, None) == 1
    ensures 1 <= |lanes| <= 4 ==> AttemptLimit(lanes, None) == |lanes|
    ensures |lanes| > 4 ==> AttemptLimit(lanes, None) == 4
  {
  }

  lemma AllCandidates(lanes: seq<Deployment>, tier: string)
    requires AllChat(lanes) && tier != "high"
    ensures Candidates(lanes, Chat, tier) == lanes
  {
  }

  /**
   * With at most four lanes and a tier that does not narrow them, an exhausted calm call in which none recovers
   * has failed on every lane.
   */
  lemma ExhaustedMeansEveryLaneFailed(lanes: seq<Deployment>, legacy: Deployment, tier: string, c: SyncCourse)
    requires SyncTrace(ClientFor(lanes, legacy, tier), lanes, c)
    requires CalmCall(lanes, tier, c) && NoneRecovers(c, |c.attempts|)
    requires tier != "high" && |c.attempts| == AttemptLimit(lanes, None)
    ensures Distinct(c.attempts)
    ensures |lanes| <= 4 ==> forall d :: d in lanes ==> d in c.attempts
  {
    AllCandidates(lanes, tier);
    DistinctCardinality(lanes);
    DistinctIffEnoughLanes(lanes, legacy, tier, c, Elements(lanes));
    if |lanes| <= 4 {
      DistinctBounded(c.attempts, Elements(lanes));
      forall d | d in lanes ensures d in c.attempts {
        assert d in Elements(lanes);
      }
    }
  }

  // ---------------------------------------------------------------------------
  // The loop
  // ---------------------------------------------------------------------------

  datatype SyncResult =
    | Completed(lane: Deployment)
    | Propagated(lane: Deployment)       // neither a 429 nor a timeout
    | LastError(lane: Deployment)        // every attempt was rate-limited or timed out
    | NoAttempt                          // the loop made no attempt, so there is no error to re-raise

  ghost predicate SyncRun(pick: Picker, lanes: seq<Deployment>, c: SyncCourse, limit: int, result: SyncResult)
  {
    var n := |c.attempts|;
    && SyncTrace(pick, lanes, c)
    && n <= Max(0, limit)
    && (forall i :: 0 <= i < n - 1 ==> c.world[i].outcome == Throttled)
    && match result
       case NoAttempt => n == 0 && limit <= 0
       case Completed(d) => n > 0 && c.attempts[n - 1] == d && c.world[n - 1].outcome == Success
       case Propagated(d) => n > 0 && c.attempts[n - 1] == d && c.world[n - 1].outcome == OtherError
       case LastError(d) => n > 0 && c.attempts[n - 1] == d && c.world[n - 1].outcome == Throttled && n == limit
  }

  lemma SyncExtends(pick: Picker, lanes: seq<Deployment>, c: SyncCourse, read: Health, d: Deployment, deadline: real)
    requires SyncTrace(pick, lanes, c) && |c.attempts| < |c.world|
    requires read == SyncLeft(lanes, c, |c.attempts|) + c.world[|c.attempts|].others
    requires Picked(pick, read, c.world[|c.attempts|]) == Some(d)
    requires deadline == c.world[|c.attempts|].failAt + c.cooldown
    ensures SyncTrace(pick, lanes, WithSyncAttempt(c, d, deadline, read))
  {
    var c' := WithSyncAttempt(c, d, deadline, read);
    forall i | 0 <= i < |c'.attempts| ensures ClientAt(pick, lanes, c', i) {
      assert SyncLeft(lanes, c', i) == SyncLeft(lanes, c, i);
      if i < |c.attempts| {
        assert ClientAt(pick, lanes, c, i);
      }
    }
  }

  /** The breaker map a call leaves behind. */
  ghost function SyncHealthAfter(pick: Picker, lanes: seq<Deployment>, c: SyncCourse, limit: int,
                                 result: SyncResult): Health
    requires SyncRun(pick, lanes, c, limit, result)
  {
    if result.Completed? || result.Propagated? then c.seen[|c.seen| - 1]
    else SyncLeft(lanes, c, |c.attempts|)
  }

  /** Only throttled attempts go on, and the outcome of the last attempt is the outcome of the call. */
  lemma SyncOutcome(pick: Picker, lanes: seq<Deployment>, c: SyncCourse, limit: int, result: SyncResult)
    requires SyncRun(pick, lanes, c, limit, result)
    ensures |c.attempts| <= |c.world| && (forall i :: 0 <= i < |c.attempts| - 1 ==> c.world[i].outcome == Throttled)
    ensures c.attempts == [] <==> limit <= 0
    ensures result.LastError? ==> |c.attempts| == limit
    ensures result ==
            if c.attempts == [] then NoAttempt
            else
              var last, outcome := c.attempts[|c.attempts| - 1], c.world[|c.attempts| - 1].outcome;
              match outcome
              case Success => Completed(last)
              case OtherError => Propagated(last)
              case Throttled => LastError(last)
  {
  }

  /** The last failure is reported before the call ends; an answer or another error reports nothing. */
  lemma SyncHealthLeft(pick: Picker, lanes: seq<Deployment>, c: SyncCourse, limit: int, result: SyncResult)
    requires SyncRun(pick, lanes, c, limit, result)
    ensures var (after, n) := (SyncHealthAfter(pick, lanes, c, limit, result), |c.attempts|);
            && (n == 0 ==> after == c.h0)
            && (n > 0 && c.world[n - 1].outcome != Throttled ==> after == c.seen[n - 1])
            && (n > 0 && c.world[n - 1].outcome == Throttled ==>
                  after == Reported(lanes, c.seen[n - 1], c.attempts[n - 1], c.world[n - 1].failAt + c.cooldown))
  {
  }

  /** A call in progress: every attempt so far was throttled, and `health` is what the last report left. */
  ghost predicate SyncFailing(pick: Picker, lanes: seq<Deployment>, c: SyncCourse, health: Health)
  {
    && SyncTrace(pick, lanes, c)
    && (forall j :: 0 <= j < |c.attempts| ==> c.world[j].outcome == Throttled)
    && health == SyncLeft(lanes, c, |c.attempts|)
  }

  lemma SyncGoesOn(pick: Picker, lanes: seq<Deployment>, c: SyncCourse, before: Health, read: Health, d: Deployment,
                   deadline: real)
    requires SyncFailing(pick, lanes, c, before) && |c.attempts| < |c.world|
    requires var step := c.world[|c.attempts|];
             && read == before + step.others && Picked(pick, read, step) == Some(d)
             && step.outcome == Throttled && deadline == step.failAt + c.cooldown
    ensures SyncFailing(pick, lanes, WithSyncAttempt(c, d, deadline, read), Reported(lanes, read, d, deadline))
  {
    SyncExtends(pick, lanes, c, read, d, deadline);
  }

  lemma SyncAnswered(pick: Picker, lanes: seq<Deployment>, c: SyncCourse, limit: int, before: Health, read: Health,
                     d: Deployment, deadline: real)
    requires SyncFailing(pick, lanes, c, before) && |c.attempts| < |c.world| && |c.attempts| < limit
    requires var step := c.world[|c.attempts|];
             && read == before + step.others && Picked(pick, read, step) == Some(d)
             && step.outcome != Throttled && deadline == step.failAt + c.cooldown
    ensures SyncRun(pick, lanes, WithSyncAttempt(c, d, deadline, read), limit,
                    if c.world[|c.attempts|].outcome == Success then Completed(d) else Propagated(d))
  {
    SyncExtends(pick, lanes, c, read, d, deadline);
  }

  lemma SyncExhausted(pick: Picker, lanes: seq<Deployment>, c: SyncCourse, limit: int, health: Health)
    requires SyncFailing(pick, lanes, c, health) && |c.attempts| == Max(0, limit)
    ensures SyncRun(pick, lanes, c, limit,
                    if c.attempts == [] then NoAttempt else LastError(c.attempts[|c.attempts| - 1]))
  {
  }

  class ChatClient {
    const lanes: seq<Deployment>
    const legacy: Deployment
    const disableGpt4o: bool
    const cooldown: real
    var health: Health

    constructor (lanes: seq<Deployment>, legacy: Deployment, disableGpt4o: bool, cooldown: real)
      ensures this.lanes == lanes && this.legacy == legacy && this.disableGpt4o == disableGpt4o
              && this.cooldown == cooldown
      ensures health == map[]
    {
      this.lanes, this.legacy, this.disableGpt4o, this.cooldown := lanes, legacy, disableGpt4o, cooldown;
      health := map[];
    }

    method GetChatClient(tier: string, step: Step) returns (d: Deployment)
      modifies this
      ensures health == old(health) + step.others
      ensures Picked(ClientFor(lanes, legacy, EffectiveTier(disableGpt4o, tier)), health, step) == Some(d)
    {
      health := health + step.others;
      if |lanes| <= 1 {
        return legacy;
      }
      var chosen := SelectDeployment(lanes, health, step.token, Chat, EffectiveTier(disableGpt4o, tier), step.selectAt);
      d := if chosen == None then legacy else chosen.value;
    }

    method ReportChatFailure(d: Deployment, failAt: real) returns (deadline: real)
      modifies this
      ensures deadline == failAt + cooldown
      ensures health == Reported(lanes, old(health), d, deadline)
    {
      deadline := failAt + cooldown;
      if |lanes| <= 1 {
        return;
      }
      var i := 0;
      while i < |lanes| && lanes[i].deploymentId != d.deploymentId
        invariant 0 <= i <= |lanes|
        invariant FirstWithId(lanes[i..], d.deploymentId) == FirstWithId(lanes, d.deploymentId)
      {
        assert lanes[i..][1..] == lanes[i + 1..];
        i := i + 1;
      }
      if i < |lanes| {
        health := health[lanes[i].name := deadline];
      }
    }

    method ChatCompleteWithFailover(tier: string, maxAttempts: Option<int>, world: World)
      returns (result: SyncResult, ghost c: SyncCourse)
      requires |world| >= AttemptLimit(lanes, maxAttempts)
      modifies this
      ensures c.h0 == old(health) && c.cooldown == cooldown && c.world == world
      ensures SyncRun(ClientFor(lanes, legacy, EffectiveTier(disableGpt4o, tier)), lanes, c,
                      AttemptLimit(lanes, maxAttempts), result)
      ensures health == SyncHealthAfter(ClientFor(lanes, legacy, EffectiveTier(disableGpt4o, tier)), lanes, c,
                                        AttemptLimit(lanes, maxAttempts), result)
    {
      var limit, last := AttemptLimit(lanes, maxAttempts), None;
      ghost var pick := ClientFor(lanes, legacy, EffectiveTier(disableGpt4o, tier));
      c := SyncCourse(health, cooldown, world, [], [], []);
      for i := 0 to Max(0, limit)
        invariant c.h0 == old(health) && c.cooldown == cooldown && c.world == world && |c.attempts| == i
        invariant last == if i == 0 then None else Some(c.attempts[i - 1])
        invariant SyncFailing(pick, lanes, c, health)
      {
        ghost var before := health;
        var lane := GetChatClient(tier, world[i]);
        var outcome, failAt := world[i].outcome, world[i].failAt;
        ghost var read := health;
        if outcome != Throttled {
          ghost var deadline := failAt + cooldown;
          SyncAnswered(pick, lanes, c, limit, before, read, lane, deadline);
          result := if outcome == Success then Completed(lane) else Propagated(lane);
          c := WithSyncAttempt(c, lane, deadline, read);
          return;
        }
        var deadline := ReportChatFailure(lane, failAt);
        SyncGoesOn(pick, lanes, c, before, read, lane, deadline);
        c, last := WithSyncAttempt(c, lane, deadline, read), Some(lane);
      }
      SyncExhausted(pick, lanes, c, limit, health);
      result := if last == None then NoAttempt else LastError(last.value);
    }
  }
}
