/**
 * Model of client/lib/upload.ts: the concurrency-limited upload queue and its
 * cancel/pause controller. Completions, progress reports and controller calls arrive in
 * any order; each is one step of a run.
 */
module UploadQueue {
  import opened Common

  datatype Phase = Queued | Uploading | Confirming | Done | Paused | Cancelled | Error

  predicate Terminal(p: Phase) {
    p.Done? || p.Paused? || p.Cancelled? || p.Error?
  }

  // ---------------------------------------------------------------------------
  // UploadController as a value: sets of indices, and the abort signal of each known file
  // ---------------------------------------------------------------------------

  /** `signals[i]` is true once the current AbortController of file i has been aborted. */
  datatype Control = Control(cancelled: set<nat>, paused: set<nat>, signals: map<nat, bool>)

  datatype Call =
    | Cancel(file: nat)
    | CancelAll
    | Pause(file: nat)
    | Resume(file: nat)
    | Cleanup

  function Abort(signals: map<nat, bool>, i: nat): map<nat, bool> {
    if i in signals then signals[i := true] else signals
  }

  function Called(c: Control, call: Call): Control {
    match call
    case Cancel(i) => Control(c.cancelled + {i}, c.paused, Abort(c.signals, i))
    case CancelAll => Control(c.cancelled + c.signals.Keys, c.paused, map i | i in c.signals :: true)
    case Pause(i) => Control(c.cancelled, c.paused + {i}, Abort(c.signals, i))
    case Resume(i) => Control(c.cancelled, c.paused - {i}, c.signals[i := false])
    case Cleanup => Control({}, {}, map[])
  }

  function WithSignal(c: Control, i: nat): Control {
    if i in c.signals then c else c.(signals := c.signals[i := false])
  }

  // ---------------------------------------------------------------------------
  // The queue as a transition system
  // ---------------------------------------------------------------------------

  /** `uploads` are the files for which uploadFileDirect was ever called; `started` the order of turns. */
  datatype Queue = Queue(nextIndex: nat, running: seq<nat>, phases: seq<Phase>, uploads: set<nat>, started: seq<nat>,
                         control: Control)

  datatype Step =
    | Start                        // the next file takes its turn
    | Report(file: nat, phase: Phase)  // onProgress from inside a running upload
    | Settle(file: nat, ok: bool)  // its promise settles and leaves `running`
    | Calls(call: Call)

  function Init(n: nat, control: Control): Queue {
    Queue(0, [], seq(n, _ => Queued), {}, [], control)
  }

  function StartNext(q: Queue): Queue
    requires q.nextIndex < |q.phases|
  {
    var i := q.nextIndex;
    var q' := q.(nextIndex := i + 1, running := q.running + [i], started := q.started + [i]);
    if i in q.control.cancelled
    then q'.(phases := q.phases[i := Cancelled])
    else q'.(uploads := q.uploads + {i}, control := WithSignal(q.control, i))
  }

  function Without(s: seq<nat>, x: nat): (r: seq<nat>)
    ensures x !in s ==> r == s
    ensures x in s ==> |r| == |s| - 1
    ensures forall y :: y in r ==> y in s
  {
    if s == [] then []
    else if s[0] == x then s[1..]
    else [s[0]] + Without(s[1..], x)
  }

  /** What a settled upload shows last: done, or why it was rejected. */
  function Verdict(c: Control, i: nat, ok: bool): Phase {
    if ok then Done
    else if i in c.cancelled then Cancelled
    else if i in c.paused then Paused
    else Error
  }

  function SettleOne(q: Queue, i: nat, ok: bool): Queue
    requires i in q.running && i < |q.phases|
  {
    var q' := q.(running := Without(q.running, i));
    if i in q.uploads then q'.(phases := q.phases[i := Verdict(q.control, i, ok)]) else q'
  }

  /** One step; a step that cannot happen now changes nothing. */
  function Apply(q: Queue, maxConcurrent: int, step: Step): Queue {
    match step
    case Start => if q.nextIndex < |q.phases| && |q.running| < maxConcurrent then StartNext(q) else q
    case Report(i, p) =>
      if i in q.running && i in q.uploads && i < |q.phases| && (p.Uploading? || p.Confirming? || p.Error?)
      then q.(phases := q.phases[i := p]) else q
    case Settle(i, ok) => if i in q.running && i < |q.phases| then SettleOne(q, i, ok) else q
    case Calls(call) => q.(control := Called(q.control, call))
  }

  function RunFrom(q: Queue, maxConcurrent: int, steps: seq<Step>): Queue {
    if steps == [] then q
    else Apply(RunFrom(q, maxConcurrent, steps[..|steps| - 1]), maxConcurrent, steps[|steps| - 1])
  }

  predicate Finished(q: Queue) {
    q.nextIndex == |q.phases| && q.running == []
  }

  function FirstN(n: nat): seq<nat> {
    seq(n, i => i)
  }

  /** What every reachable queue satisfies. */
  ghost predicate Inv(q: Queue, maxConcurrent: int) {
    && q.nextIndex <= |q.phases|
    && |q.running| <= Max(0, maxConcurrent)
    && Distinct(q.running)
    && (forall i :: i in q.running ==> i < q.nextIndex)
    && q.started == FirstN(q.nextIndex)
    && (forall i :: i in q.uploads ==> i < q.nextIndex)
    && (forall i :: 0 <= i < q.nextIndex && i !in q.uploads ==> q.phases[i] == Cancelled)
    && (forall i :: 0 <= i < q.nextIndex && i !in q.running ==> Terminal(q.phases[i]))
    && forall i :: q.nextIndex <= i < |q.phases| ==> q.phases[i] == Queued
  }

  lemma DistinctTail(s: seq<nat>)
    requires Distinct(s) && s != []
    ensures Distinct(s[1..]) && s[0] !in s[1..]
  {
  }

  lemma {:induction false} WithoutDistinct(s: seq<nat>, x: nat)
    requires Distinct(s)
    ensures Distinct(Without(s, x)) && x !in Without(s, x)
    ensures forall y :: y in s && y != x ==> y in Without(s, x)
  {
    if s != [] {
      DistinctTail(s);
      if s[0] != x {
        WithoutDistinct(s[1..], x);
        assert forall y :: y in s ==> y == s[0] || y in s[1..];
        DistinctCons(s[0], Without(s[1..], x));
      }
    }
  }

  lemma DistinctCons(x: nat, s: seq<nat>)
    requires Distinct(s) && x !in s
    ensures Distinct([x] + s)
  {
  }

  lemma StartKeepsInv(q: Queue, maxConcurrent: int)
    requires Inv(q, maxConcurrent) && q.nextIndex < |q.phases| && |q.running| < maxConcurrent
    ensures Inv(StartNext(q), maxConcurrent)
  {
    var q' := StartNext(q);
    assert q'.started == FirstN(q.nextIndex) + [q.nextIndex] == FirstN(q.nextIndex + 1);
    assert q.nextIndex !in q.running;
  }

  lemma SettleKeepsInv(q: Queue, maxConcurrent: int, i: nat, ok: bool)
    requires Inv(q, maxConcurrent) && i in q.running
    ensures Inv(SettleOne(q, i, ok), maxConcurrent)
  {
    WithoutDistinct(q.running, i);
  }

  lemma StepKeepsInv(q: Queue, maxConcurrent: int, step: Step)
    requires Inv(q, maxConcurrent)
    ensures Inv(Apply(q, maxConcurrent, step), maxConcurrent)
  {
    match step
    case Start =>
      if q.nextIndex < |q.phases| && |q.running| < maxConcurrent {
        StartKeepsInv(q, maxConcurrent);
      }
    case Settle(i, ok) =>
      if i in q.running {
        SettleKeepsInv(q, maxConcurrent, i, ok);
      }
    case Report(_, _) =>
    case Calls(_) =>
  }

  lemma {:induction false} RunKeepsInv(q: Queue, maxConcurrent: int, steps: seq<Step>)
    requires Inv(q, maxConcurrent)
    ensures Inv(RunFrom(q, maxConcurrent, steps), maxConcurrent)
    ensures |RunFrom(q, maxConcurrent, steps).phases| == |q.phases|
  {
    if steps != [] {
      RunKeepsInv(q, maxConcurrent, steps[..|steps| - 1]);
      StepKeepsInv(RunFrom(q, maxConcurrent, steps[..|steps| - 1]), maxConcurrent, steps[|steps| - 1]);
    }
  }

  /**
   * In every run over n files at most maxConcurrent uploads run and the files take their turns
   * once each in order; when the run is over, every file's last phase is a terminal one.
   */
  lemma EveryRunIsOrderly(n: nat, control: Control, maxConcurrent: int, steps: seq<Step>)
    ensures var q := RunFrom(Init(n, control), maxConcurrent, steps);
            && |q.running| <= Max(0, maxConcurrent)
            && q.nextIndex <= n && q.started == FirstN(q.nextIndex)
            && (Finished(q) ==>
                  q.started == FirstN(n) && |q.phases| == n && forall i :: 0 <= i < n ==> Terminal(q.phases[i]))
  {
    RunKeepsInv(Init(n, control), maxConcurrent, steps);
  }

  // ---------------------------------------------------------------------------
  // Termination
  // ---------------------------------------------------------------------------

  function Measure(q: Queue): int {
    2 * (|q.phases| - q.nextIndex) + |q.running|
  }

  /** Taking a turn or settling brings the queue nearer its end; nothing sets it back. */
  lemma MeasureDecreases(q: Queue, maxConcurrent: int, step: Step)
    requires Inv(q, maxConcurrent)
    ensures Measure(Apply(q, maxConcurrent, step)) <= Measure(q)
    ensures Apply(q, maxConcurrent, step).running != q.running ==> Measure(Apply(q, maxConcurrent, step)) < Measure(q)
  {
  }

  /**
   * An unfinished queue can move exactly when an upload may run at all or one is running; otherwise the loop
   * spins for ever.
   */
  lemma CanMove(q: Queue, maxConcurrent: int)
    requires Inv(q, maxConcurrent) && !Finished(q)
    ensures (exists step :: Apply(q, maxConcurrent, step).running != q.running)
       <==> maxConcurrent >= 1 || q.running != []
  {
    if q.running != [] {
      var step := Settle(q.running[0], true);
      assert q.running[0] in q.running;
      assert |Apply(q, maxConcurrent, step).running| == |q.running| - 1;
    } else if maxConcurrent >= 1 {
      assert |Apply(q, maxConcurrent, Start).running| == 1;
    }
  }

  // ---------------------------------------------------------------------------
  // Cancelling
  // ---------------------------------------------------------------------------

  ghost predicate NoCleanup(steps: seq<Step>) {
    forall k :: 0 <= k < |steps| ==> steps[k] != Calls(Cleanup)
  }

  /** File i is cancelled and was not uploaded; once it had its turn it shows "cancelled". */
  ghost predicate OutOfTheRun(q: Queue, i: nat) {
    && i in q.control.cancelled && i !in q.uploads
    && i < |q.phases| && (i < q.nextIndex ==> q.phases[i] == Cancelled)
  }

  lemma StaysOutOfTheRun(q: Queue, maxConcurrent: int, step: Step, i: nat)
    requires OutOfTheRun(q, i) && step != Calls(Cleanup)
    ensures OutOfTheRun(Apply(q, maxConcurrent, step), i)
  {
  }

  /** A file cancelled before its turn is never uploaded, and its phase after its turn stays "cancelled". */
  lemma {:induction false} CancelledBeforeTurnNeverUploads(q: Queue, maxConcurrent: int, steps: seq<Step>, i: nat)
    requires Inv(q, maxConcurrent) && q.nextIndex <= i < |q.phases| && i in q.control.cancelled
    requires NoCleanup(steps)
    ensures OutOfTheRun(RunFrom(q, maxConcurrent, steps), i)
  {
    if steps != [] {
      var init, last := steps[..|steps| - 1], steps[|steps| - 1];
      assert forall k :: 0 <= k < |init| ==> init[k] == steps[k];
      CancelledBeforeTurnNeverUploads(q, maxConcurrent, init, i);
      StaysOutOfTheRun(RunFrom(q, maxConcurrent, init), maxConcurrent, last, i);
    }
  }

  /** Steps that neither cancel file i, nor cancel all once more, nor forget what was cancelled. */
  ghost predicate SparesFile(steps: seq<Step>, i: nat) {
    forall k :: 0 <= k < |steps| ==> Spares(steps[k], i)
  }

  predicate Spares(step: Step, i: nat) {
    step != Calls(Cancel(i)) && step != Calls(CancelAll) && step != Calls(Cleanup)
  }

  /** Until its turn, file i is as cancelled as it was; at its turn that decides whether it is uploaded. */
  ghost predicate Decided(q: Queue, i: nat, cancelled: bool) {
    && (i in q.control.cancelled <==> cancelled)
    && (i in q.uploads <==> i < q.nextIndex && !cancelled)
  }

  lemma StaysDecided(q: Queue, maxConcurrent: int, step: Step, i: nat, cancelled: bool)
    requires Decided(q, i, cancelled) && Spares(step, i)
    ensures Decided(Apply(q, maxConcurrent, step), i, cancelled)
  {
  }

  lemma {:induction false} RunDecided(q: Queue, maxConcurrent: int, steps: seq<Step>, i: nat, cancelled: bool)
    requires Decided(q, i, cancelled) && SparesFile(steps, i)
    ensures Decided(RunFrom(q, maxConcurrent, steps), i, cancelled)
  {
    if steps != [] {
      var init := steps[..|steps| - 1];
      assert forall k :: 0 <= k < |init| ==> init[k] == steps[k];
      RunDecided(q, maxConcurrent, init, i, cancelled);
      StaysDecided(RunFrom(q, maxConcurrent, init), maxConcurrent, steps[|steps| - 1], i, cancelled);
    }
  }

  /**
   * "Cancel all" stops a waiting file exactly when the file was cancelled already or had a signal:
   * once any other waiting file has had its turn, however long after, it is being or has been uploaded.
   */
  lemma CancelAllMissesWaitingFiles(q: Queue, maxConcurrent: int, steps: seq<Step>, i: nat)
    requires Inv(q, maxConcurrent) && q.nextIndex <= i < |q.phases| && SparesFile(steps, i)
    ensures var r := RunFrom(Apply(q, maxConcurrent, Calls(CancelAll)), maxConcurrent, steps);
            i < r.nextIndex ==> (i in r.uploads <==> i !in q.control.cancelled && i !in q.control.signals)
  {
    var cancelled := i in q.control.cancelled || i in q.control.signals;
    RunDecided(Apply(q, maxConcurrent, Calls(CancelAll)), maxConcurrent, steps, i, cancelled);
  }

  /**
   * Pausing a waiting file does not hold it back: its turn never asks whether it is paused, so it is
   * uploaded then exactly when it was not cancelled.
   */
  lemma PauseMissesWaitingFile(q: Queue, maxConcurrent: int, steps: seq<Step>, i: nat)
    requires Inv(q, maxConcurrent) && q.nextIndex <= i < |q.phases| && SparesFile(steps, i)
    ensures var r := RunFrom(Apply(q, maxConcurrent, Calls(Pause(i))), maxConcurrent, steps);
            i < r.nextIndex ==> (i in r.uploads <==> i !in q.control.cancelled)
  {
    RunDecided(Apply(q, maxConcurrent, Calls(Pause(i))), maxConcurrent, steps, i, i in q.control.cancelled);
  }

  // ---- What a call does, from the call on ------------------------------------

  /** Each controller call, by what is cancelled, paused and aborted afterwards. */
  lemma CallEffects(c: Control, i: nat, j: nat)
    ensures j in Called(c, Cancel(i)).cancelled <==> j == i || j in c.cancelled
    ensures j in Called(c, CancelAll).cancelled <==> j in c.signals || j in c.cancelled
    ensures j in Called(c, Pause(i)).cancelled <==> j in c.cancelled
    ensures j in Called(c, Resume(i)).cancelled <==> j in c.cancelled
    ensures j in Called(c, Pause(i)).paused <==> j == i || j in c.paused
    ensures j in Called(c, Resume(i)).paused <==> j != i && j in c.paused
    ensures Called(c, Cancel(i)).paused == c.paused && Called(c, CancelAll).paused == c.paused
    ensures Called(c, Cleanup).cancelled == {} && Called(c, Cleanup).paused == {} && Called(c, Cleanup).signals == map[]
  {
  }

  /** Cancelling and pausing abort the file's signal if there is one; resuming gives it a fresh one. */
  lemma SignalEffects(c: Control, i: nat, j: nat)
    ensures var after := Called(c, Cancel(i)).signals;
            (j in after <==> j in c.signals) && (j in after ==> (after[j] <==> j == i || c.signals[j]))
    ensures Called(c, Pause(i)).signals == Called(c, Cancel(i)).signals
    ensures var after := Called(c, CancelAll).signals; (j in after <==> j in c.signals) && (j in after ==> after[j])
    ensures var after := Called(c, Resume(i)).signals;
            (j in after <==> j == i || j in c.signals) && (j in after ==> (after[j] <==> j != i && c.signals[j]))
  {
  }

  /** At its turn an uncancelled file gets a signal, the old one if it had one; a cancelled file gets none. */
  lemma TurnEffects(q: Queue, maxConcurrent: int, j: nat)
    requires q.nextIndex < |q.phases| && |q.running| < maxConcurrent
    ensures var (i, r) := (q.nextIndex, Apply(q, maxConcurrent, Start));
            && r.nextIndex == i + 1 && r.running == q.running + [i] && r.started == q.started + [i]
            && r.control.cancelled == q.control.cancelled && r.control.paused == q.control.paused
            && (j in r.control.signals <==> j in q.control.signals || (j == i && i !in q.control.cancelled))
            && (j in r.control.signals ==> (r.control.signals[j] <==> j in q.control.signals && q.control.signals[j]))
            && (if i in q.control.cancelled then r.phases == q.phases[i := Cancelled] && r.uploads == q.uploads
                else r.phases == q.phases && r.uploads == q.uploads + {i})
  {
  }

  /**
   * Cancelling a waiting file keeps it from being uploaded, whatever happens later short of a cleanup,
   * and it shows "cancelled" after its turn. No other file is cancelled by it.
   */
  lemma CancelStopsWaitingFile(q: Queue, maxConcurrent: int, steps: seq<Step>, i: nat, j: nat)
    requires Inv(q, maxConcurrent) && q.nextIndex <= i < |q.phases| && NoCleanup(steps)
    ensures var r := RunFrom(Apply(q, maxConcurrent, Calls(Cancel(i))), maxConcurrent, steps);
            |r.phases| == |q.phases| && i !in r.uploads && (i < r.nextIndex ==> r.phases[i] == Cancelled)
    ensures j != i ==>
              (j in Apply(q, maxConcurrent, Calls(Cancel(i))).control.cancelled <==> j in q.control.cancelled)
  {
    StepKeepsInv(q, maxConcurrent, Calls(Cancel(i)));
    CancelledBeforeTurnNeverUploads(Apply(q, maxConcurrent, Calls(Cancel(i))), maxConcurrent, steps, i);
    RunKeepsInv(Apply(q, maxConcurrent, Calls(Cancel(i))), maxConcurrent, steps);
  }

  /** File i was uploaded at its turn, and is cancelled or paused as the flags say. */
  ghost predicate InUpload(q: Queue, i: nat, cancelled: bool, paused: bool) {
    && i in q.uploads && i < |q.phases|
    && (cancelled ==> i in q.control.cancelled)
    && (paused ==> i !in q.control.cancelled && i in q.control.paused)
  }

  predicate LeavesPaused(step: Step, i: nat) {
    Spares(step, i) && step != Calls(Resume(i))
  }

  lemma {:induction false} StaysInUpload(q: Queue, maxConcurrent: int, steps: seq<Step>, i: nat, cancelled: bool,
                                         paused: bool)
    requires InUpload(q, i, cancelled, paused) && NoCleanup(steps)
    requires paused ==> forall k :: 0 <= k < |steps| ==> LeavesPaused(steps[k], i)
    ensures InUpload(RunFrom(q, maxConcurrent, steps), i, cancelled, paused)
  {
    if steps != [] {
      var init := steps[..|steps| - 1];
      assert forall k :: 0 <= k < |init| ==> init[k] == steps[k];
      StaysInUpload(q, maxConcurrent, init, i, cancelled, paused);
    }
  }

  /** An upload that fails after it was cancelled shows "cancelled", whatever happens in between short of a cleanup. */
  lemma CancelledUploadShowsCancelled(q: Queue, maxConcurrent: int, steps: seq<Step>, i: nat)
    requires i in q.uploads && i < |q.phases| && NoCleanup(steps)
    ensures var r := RunFrom(Apply(q, maxConcurrent, Calls(Cancel(i))), maxConcurrent, steps);
            i in r.running ==>
              |r.phases| > i && Apply(r, maxConcurrent, Settle(i, false)).phases == r.phases[i := Cancelled]
  {
    StaysInUpload(Apply(q, maxConcurrent, Calls(Cancel(i))), maxConcurrent, steps, i, true, false);
  }

  /** One that fails after it was paused shows "paused", unless it is cancelled or resumed in between. */
  lemma PausedUploadShowsPaused(q: Queue, maxConcurrent: int, steps: seq<Step>, i: nat)
    requires i in q.uploads && i < |q.phases| && i !in q.control.cancelled && NoCleanup(steps)
    requires forall k :: 0 <= k < |steps| ==> LeavesPaused(steps[k], i)
    ensures var r := RunFrom(Apply(q, maxConcurrent, Calls(Pause(i))), maxConcurrent, steps);
            i in r.running ==>
              |r.phases| > i && Apply(r, maxConcurrent, Settle(i, false)).phases == r.phases[i := Paused]
  {
    StaysInUpload(Apply(q, maxConcurrent, Calls(Pause(i))), maxConcurrent, steps, i, false, true);
  }

  /** A success shows "done" and any other failure "error"; a file cancelled at its turn keeps showing "cancelled". */
  lemma SettledUploadShows(q: Queue, maxConcurrent: int, i: nat)
    requires Inv(q, maxConcurrent) && i in q.running && i < |q.phases|
    ensures i in q.uploads ==> Apply(q, maxConcurrent, Settle(i, true)).phases == q.phases[i := Done]
    ensures i in q.uploads && i !in q.control.cancelled && i !in q.control.paused ==>
              Apply(q, maxConcurrent, Settle(i, false)).phases == q.phases[i := Error]
    ensures i !in q.uploads ==>
              forall ok :: Apply(q, maxConcurrent, Settle(i, ok)).phases == q.phases && q.phases[i] == Cancelled
  {
  }

  /** A progress report is the last phase of its file while that is being uploaded, and changes nothing else. */
  lemma ReportShows(q: Queue, maxConcurrent: int, i: nat, p: Phase)
    requires i < |q.phases| && (p == Uploading || p == Confirming || p == Error)
    ensures Apply(q, maxConcurrent, Report(i, p))
         == if i in q.running && i in q.uploads then q.(phases := q.phases[i := p]) else q
  {
  }

  // ---------------------------------------------------------------------------
  // The controller object and the queue loop
  // ---------------------------------------------------------------------------

  class UploadController {
    var abortControllers: map<nat, bool>
    var paused: set<nat>
    var cancelled: set<nat>

    function View(): Control
      reads this
    {
      Control(cancelled, paused, abortControllers)
    }

    constructor ()
      ensures View() == Control({}, {}, map[])
    {
      abortControllers, paused, cancelled := map[], {}, {};
    }

    method GetSignal(fileIndex: nat)
      modifies this
      ensures View() == WithSignal(old(View()), fileIndex)
    {
      if fileIndex !in abortControllers {
        abortControllers := abortControllers[fileIndex := false];
      }
    }

    method CancelFile(fileIndex: nat)
      modifies this
      ensures View() == Called(old(View()), Cancel(fileIndex))
    {
      cancelled := cancelled + {fileIndex};
      if fileIndex in abortControllers {
        abortControllers := abortControllers[fileIndex := true];
      }
    }

    /** Goes over the known abort controllers, in any order. */
    method CancelEvery()
      modifies this
      ensures View() == Called(old(View()), CancelAll)
    {
      var todo := abortControllers.Keys;
      while todo != {}
        invariant todo <= old(abortControllers.Keys) && paused == old(paused)
        invariant cancelled == old(cancelled) + (old(abortControllers.Keys) - todo)
        invariant abortControllers
               == map i | i in old(abortControllers) :: if i in todo then old(abortControllers)[i] else true
        decreases todo
      {
        var i :| i in todo;
        cancelled := cancelled + {i};
        abortControllers := abortControllers[i := true];
        todo := todo - {i};
      }
    }

    method PauseFile(fileIndex: nat)
      modifies this
      ensures View() == Called(old(View()), Pause(fileIndex))
    {
      paused := paused + {fileIndex};
      if fileIndex in abortControllers {
        abortControllers := abortControllers[fileIndex := true];
      }
    }

    method ResumeFile(fileIndex: nat)
      modifies this
      ensures View() == Called(old(View()), Resume(fileIndex))
    {
      paused := paused - {fileIndex};
      abortControllers := abortControllers[fileIndex := false];
    }

    method CleanUp()
      modifies this
      ensures View() == Called(old(View()), Cleanup)
    {
      abortControllers, paused, cancelled := map[], {}, {};
    }

    method Receive(call: Call)
      modifies this
      ensures View() == Called(old(View()), call)
    {
      match call
      case Cancel(i) => CancelFile(i);
      case CancelAll => CancelEvery();
      case Pause(i) => PauseFile(i);
      case Resume(i) => ResumeFile(i);
      case Cleanup => CleanUp();
    }
  }

  /**
   * What happens while the loop awaits the next completion: progress reports, controller calls and
   * completions in any order; if none of these completed a running file, the one chosen by `pick` does.
   */
  datatype Await = Await(meanwhile: seq<Step>, pick: nat, ok: bool)

  ghost predicate OnlyMeanwhile(steps: seq<Step>) {
    forall k :: 0 <= k < |steps| ==> !steps[k].Start?
  }

  /** `now` is the queue that `steps` lead to from `origin`. */
  ghost predicate Reached(origin: Queue, maxConcurrent: int, steps: seq<Step>, now: Queue) {
    Inv(now, maxConcurrent) && now == RunFrom(origin, maxConcurrent, steps)
  }

  lemma RunningInRange(q: Queue, maxConcurrent: int, i: nat)
    requires Inv(q, maxConcurrent) && i in q.running
    ensures i < |q.phases|
  {
  }

  /** Only a completion of a running file shortens `running`; nothing else but a start touches it or the next index. */
  lemma MeanwhileEffect(q: Queue, maxConcurrent: int, step: Step)
    requires !step.Start?
    ensures var q' := Apply(q, maxConcurrent, step);
            && q'.nextIndex == q.nextIndex && |q'.phases| == |q.phases|
            && if step.Settle? && step.file in q.running && step.file < |q.phases| then |q'.running| == |q.running| - 1
               else q'.running == q.running
  {
  }

  lemma RunStep(origin: Queue, maxConcurrent: int, steps: seq<Step>, now: Queue, step: Step)
    requires Reached(origin, maxConcurrent, steps, now)
    ensures Reached(origin, maxConcurrent, steps + [step], Apply(now, maxConcurrent, step))
  {
    assert (steps + [step])[..|steps|] == steps;
    StepKeepsInv(now, maxConcurrent, step);
  }

  class UploadRun {
    const maxConcurrent: int
    const controller: UploadController
    var nextIndex: nat
    var running: seq<nat>
    var phases: seq<Phase>     // the last phase reported for each file
    var uploads: set<nat>      // files whose promise is an upload, not the resolved one of a cancelled file
    var started: seq<nat>
    ghost var origin: Queue
    ghost var steps: seq<Step>

    function View(): Queue
      reads this, controller
    {
      Queue(nextIndex, running, phases, uploads, started, controller.View())
    }

    /** The state is the one the recorded steps lead to. */
    ghost predicate Valid()
      reads this, controller
    {
      Reached(origin, maxConcurrent, steps, View())
    }

    constructor (n: nat, maxConcurrent: int, controller: UploadController)
      ensures Valid() && this.maxConcurrent == maxConcurrent && this.controller == controller
      ensures steps == [] && origin == Init(n, controller.View()) && View() == origin
    {
      this.maxConcurrent, this.controller := maxConcurrent, controller;
      nextIndex, running, phases, uploads, started := 0, [], seq(n, _ => Queued), {}, [];
      origin, steps := Init(n, controller.View()), [];
    }

    method StartOne()
      requires Valid() && nextIndex < |phases| && |running| < maxConcurrent
      modifies this, controller
      ensures Valid() && origin == old(origin) && steps == old(steps) + [Start]
      ensures View() == StartNext(old(View()))
    {
      ghost var before := View();
      var idx := nextIndex;
      nextIndex, running, started := idx + 1, running + [idx], started + [idx];
      if idx in controller.cancelled {
        phases := phases[idx := Cancelled];
      } else {
        controller.GetSignal(idx);
        uploads := uploads + {idx};
      }
      RunStep(origin, maxConcurrent, steps, before, Start);
      steps := steps + [Start];
    }

    /** A promise settles; nothing happens unless it is one of the running ones. */
    method SettleFile(idx: nat, ok: bool)
      requires Valid()
      modifies this
      ensures Valid() && origin == old(origin) && steps == old(steps) + [Settle(idx, ok)]
      ensures View() == Apply(old(View()), maxConcurrent, Settle(idx, ok))
    {
      ghost var before := View();
      if idx in running && idx < |phases| {
        var verdict := Verdict(controller.View(), idx, ok);
        running := Without(running, idx);
        if idx in uploads {
          phases := phases[idx := verdict];
        }
      }
      RunStep(origin, maxConcurrent, steps, before, Settle(idx, ok));
      steps := steps + [Settle(idx, ok)];
    }

    /** A progress report that arrives while the loop waits; one from a file not being uploaded is none. */
    method Hear(file: nat, phase: Phase)
      requires Valid()
      modifies this
      ensures Valid() && origin == old(origin) && steps == old(steps) + [Report(file, phase)]
      ensures View() == Apply(old(View()), maxConcurrent, Report(file, phase))
    {
      ghost var before := View();
      if file in running && file in uploads && file < |phases|
        && (phase.Uploading? || phase.Confirming? || phase.Error?) {
        phases := phases[file := phase];
      }
      RunStep(origin, maxConcurrent, steps, before, Report(file, phase));
      steps := steps + [Report(file, phase)];
    }

    /** A controller call that arrives while the loop waits. */
    method Obey(call: Call)
      requires Valid()
      modifies this`steps, controller
      ensures Valid() && steps == old(steps) + [Calls(call)]
      ensures View() == Apply(old(View()), maxConcurrent, Calls(call))
    {
      ghost var before := View();
      controller.Receive(call);
      RunStep(origin, maxConcurrent, steps, before, Calls(call));
      steps := steps + [Calls(call)];
    }

    /** One thing that happens during a wait. */
    method Meanwhile(step: Step)
      requires Valid() && !step.Start?
      modifies this, controller
      ensures Valid() && origin == old(origin) && steps == old(steps) + [step]
      ensures View() == Apply(old(View()), maxConcurrent, step)
    {
      match step {
        case Report(i, p) => Hear(i, p);
        case Calls(call) => Obey(call);
        case Settle(i, ok) => SettleFile(i, ok);
      }
    }

    /** The wait for a completion: at least one running file settles, and others may before the loop resumes. */
    method AwaitOne(turn: Await)
      requires Valid() && running != [] && OnlyMeanwhile(turn.meanwhile)
      modifies this, controller
      ensures Valid() && origin == old(origin) && old(steps) <= steps
      ensures nextIndex == old(nextIndex) && |phases| == old(|phases|) && |running| < old(|running|)
    {
      var atFirst := |running|;
      for k := 0 to |turn.meanwhile|
        invariant Valid() && origin == old(origin) && old(steps) <= steps
        invariant nextIndex == old(nextIndex) && |phases| == old(|phases|) && |running| <= atFirst
      {
        MeanwhileEffect(View(), maxConcurrent, turn.meanwhile[k]);
        Meanwhile(turn.meanwhile[k]);
      }
      if |running| == atFirst {
        var last := running[turn.pick % |running|];
        RunningInRange(View(), maxConcurrent, last);
        MeanwhileEffect(View(), maxConcurrent, Settle(last, turn.ok));
        Meanwhile(Settle(last, turn.ok));
      }
    }

    /**
     * uploadFileQueue. With no upload allowed and files to send the source's loop spins for ever,
     * so that case is left to CanMove. Each wait sees a completion, so |phases| waits suffice.
     */
    method Process(env: seq<Await>)
      requires Valid() && nextIndex == 0 && running == []
      requires maxConcurrent >= 1 || |phases| == 0
      requires |env| >= |phases| && forall k :: 0 <= k < |env| ==> OnlyMeanwhile(env[k].meanwhile)
      modifies this, controller
      ensures Valid() && origin == old(origin) && old(steps) <= steps && Finished(View())
      ensures |phases| == old(|phases|) && started == FirstN(|phases|)
      ensures forall i :: 0 <= i < |phases| ==> Terminal(phases[i])
    {
      var waits := 0;
      while nextIndex < |phases| || running != []
        invariant Valid() && origin == old(origin) && old(steps) <= steps && |phases| == old(|phases|)
        invariant waits + |running| <= nextIndex
        decreases 2 * (|phases| - nextIndex) + |running|
      {
        ghost var left := 2 * (|phases| - nextIndex) + |running|;
        while nextIndex < |phases| && |running| < maxConcurrent
          invariant Valid() && origin == old(origin) && old(steps) <= steps && |phases| == old(|phases|)
          invariant waits + |running| <= nextIndex
          invariant nextIndex < |phases| || running != []
          invariant 2 * (|phases| - nextIndex) + |running| <= left
          decreases |phases| - nextIndex
        {
          StartOne();
        }
        if running != [] {
          AwaitOne(env[waits]);
          waits := waits + 1;
        }
      }
    }
  }
}
