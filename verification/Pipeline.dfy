/**
 The two-phase pipeline as a transition system.

 Every goroutine of the pipeline is in some place of a `State`: the run loop, the captures,
 the analyse worker and the analyses it spawned. An `Action` is one step of one of them. The
 steps interleave freely, so a property of every run is a property of every schedule.
 */
module Pipeline {
  /** Where the run loop stands. */
  datatype RunPc = Selecting | WaitingCaptures | ClosingQueue | WaitingWorker | ClosingExtractor | Returned

  datatype WorkerPc = Receiving | WaitingAnalyses | Exited

  /**
   A trigger is named by its number. `captureGroup` and `analyseGroup` are the counters of the
   two wait groups; `leaving` and `finishing` hold the calls that returned but have not yet
   been counted down. The last five fields record what happened and steer nothing.
   */
  datatype State = State(
    capacity: nat,
    cancelled: bool,
    run: RunPc,
    accepted: nat,
    captureGroup: nat,
    capturing: set<nat>,
    ready: set<nat>,
    leaving: set<nat>,
    queue: seq<nat>,
    closed: bool,
    worker: WorkerPc,
    analyseGroup: nat,
    analysing: set<nat>,
    finishing: set<nat>,
    extractorCloses: nat,
    panicked: bool,
    abandoned: set<nat>,
    dropped: set<nat>,
    enqueued: seq<nat>,
    spawned: seq<nat>,
    analysed: seq<nat>)

  function Init(capacity: nat): State {
    State(capacity, false, Selecting, 0, 0, {}, {}, {}, [], false, Receiving, 0, {}, {}, 0, false,
          {}, {}, [], [], [])
  }

  datatype Action =
    | Cancel                      // the root context is cancelled
    | Trigger                     // the run loop takes a trigger and spawns a capture
    | Abandon(id: nat)            // a capture returns without a result: no window, or an error
    | Capture(id: nat)            // a capture has its screenshot
    | Enqueue(id: nat)            // the non-blocking send succeeds, or panics on a closed queue
    | HandOff(id: nat)            // an unbuffered send meets the waiting worker
    | Drop(id: nat)               // the non-blocking send finds no room
    | CaptureDone(id: nat)        // captureGroup.Done
    | Receive                     // the worker takes a result and spawns its analysis
    | RangeEnds                   // the worker finds the queue closed and empty
    | AnalyseReturns(id: nat)     // an analyse call returns
    | AnalyseDone(id: nat)        // the worker's wait group is counted down
    | WorkerExits                 // the worker's wait ends, workerDone is closed
    | TakeDone                    // the run loop takes the ctx.Done branch
    | CapturesWaited              // captureGroup.Wait returns
    | CloseQueue
    | WorkerWaited                // the receive from workerDone returns
    | CloseExtractor              // the extractor is closed and Run returns

  predicate Enabled(s: State, a: Action) {
    !s.panicked && match a
      case Cancel => !s.cancelled
      case Trigger => s.run.Selecting?
      case Abandon(id) => id in s.capturing
      case Capture(id) => id in s.capturing
      case Enqueue(id) => id in s.ready && (s.closed || |s.queue| < s.capacity)
      case HandOff(id) => id in s.ready && !s.closed && s.capacity == 0 && s.worker.Receiving?
      case Drop(id) => id in s.ready && !s.closed && |s.queue| >= s.capacity
      case CaptureDone(id) => id in s.leaving && s.captureGroup > 0
      case Receive => s.worker.Receiving? && s.queue != []
      case RangeEnds => s.worker.Receiving? && s.queue == [] && s.closed
      case AnalyseReturns(id) => id in s.analysing
      case AnalyseDone(id) => id in s.finishing && s.analyseGroup > 0
      case WorkerExits => s.worker.WaitingAnalyses? && s.analyseGroup == 0
      case TakeDone => s.run.Selecting? && s.cancelled
      case CapturesWaited => s.run.WaitingCaptures? && s.captureGroup == 0
      case CloseQueue => s.run.ClosingQueue?
      case WorkerWaited => s.run.WaitingWorker? && s.worker.Exited?
      case CloseExtractor => s.run.ClosingExtractor?
  }

  function Next(s: State, a: Action): State
    requires Enabled(s, a)
  {
    match a
    case Cancel => s.(cancelled := true)
    case Trigger =>
      s.(accepted := s.accepted + 1, captureGroup := s.captureGroup + 1,
         capturing := s.capturing + {s.accepted})
    case Abandon(id) =>
      s.(capturing := s.capturing - {id}, abandoned := s.abandoned + {id}, leaving := s.leaving + {id})
    case Capture(id) => s.(capturing := s.capturing - {id}, ready := s.ready + {id})
    case Enqueue(id) =>
      if s.closed then s.(panicked := true)
      else s.(ready := s.ready - {id}, queue := s.queue + [id], enqueued := s.enqueued + [id],
              leaving := s.leaving + {id})
    case HandOff(id) =>
      s.(ready := s.ready - {id}, enqueued := s.enqueued + [id], spawned := s.spawned + [id],
         leaving := s.leaving + {id}, analyseGroup := s.analyseGroup + 1, analysing := s.analysing + {id})
    case Drop(id) =>
      s.(ready := s.ready - {id}, dropped := s.dropped + {id}, leaving := s.leaving + {id})
    case CaptureDone(id) => s.(leaving := s.leaving - {id}, captureGroup := s.captureGroup - 1)
    case Receive =>
      s.(queue := s.queue[1..], spawned := s.spawned + [s.queue[0]],
         analyseGroup := s.analyseGroup + 1, analysing := s.analysing + {s.queue[0]})
    case RangeEnds => s.(worker := WaitingAnalyses)
    case AnalyseReturns(id) =>
      s.(analysing := s.analysing - {id}, analysed := s.analysed + [id], finishing := s.finishing + {id})
    case AnalyseDone(id) => s.(finishing := s.finishing - {id}, analyseGroup := s.analyseGroup - 1)
    case WorkerExits => s.(worker := Exited)
    case TakeDone => s.(run := WaitingCaptures)
    case CapturesWaited => s.(run := ClosingQueue)
    case CloseQueue =>
      if s.closed then s.(panicked := true) else s.(closed := true, run := WaitingWorker)
    case WorkerWaited => s.(run := ClosingExtractor)
    case CloseExtractor => s.(extractorCloses := s.extractorCloses + 1, run := Returned)
  }

  // ---------- The invariant ----------

  function One(b: bool): nat {
    if b then 1 else 0
  }

  /** In how many places a trigger is. */
  function Places(s: State, id: nat): nat {
    One(id in s.capturing) + One(id in s.ready) + One(id in s.abandoned) + One(id in s.dropped)
    + multiset(s.queue)[id] + One(id in s.analysing) + multiset(s.analysed)[id]
  }

  /** Every accepted trigger is in exactly one place, and nothing else is anywhere. */
  ghost predicate OnePlace(s: State) {
    forall id: nat :: Places(s, id) == One(id < s.accepted)
  }

  /** The wait group counters count the calls that have not been counted down. */
  predicate CapturesCounted(s: State) {
    && s.captureGroup == |s.capturing| + |s.ready| + |s.leaving|
    && (forall id | id in s.leaving :: id < s.accepted && id !in s.capturing && id !in s.ready)
  }

  predicate AnalysesCounted(s: State) {
    && s.analyseGroup == |s.analysing| + |s.finishing|
    && (forall id | id in s.finishing :: id in s.analysed && id !in s.analysing)
  }

  predicate Ordered(s: State) {
    s.spawned + s.queue == s.enqueued && |s.queue| <= s.capacity
  }

  /** The spawned analyses are those that run and those that returned. */
  predicate Tracked(s: State) {
    multiset(s.analysing) + multiset(s.analysed) == multiset(s.spawned)
  }

  predicate Phased(s: State) {
    && !s.panicked
    && (s.closed <==> s.run.WaitingWorker? || s.run.ClosingExtractor? || s.run.Returned?)
    && (s.run.ClosingQueue? || s.closed ==> s.captureGroup == 0)
    && (!s.run.Selecting? ==> s.cancelled)
    && (!s.worker.Receiving? ==> s.closed && s.queue == [])
    && (s.worker.Exited? ==> s.analyseGroup == 0)
    && (s.run.ClosingExtractor? || s.run.Returned? ==> s.worker.Exited?)
    && s.extractorCloses == One(s.run.Returned?)
  }

  function Total(s: State): nat {
    |s.capturing| + |s.ready| + |s.abandoned| + |s.dropped| + |s.queue| + |s.analysing| + |s.analysed|
  }

  ghost predicate Inv(s: State) {
    && OnePlace(s) && Total(s) == s.accepted
    && CapturesCounted(s) && AnalysesCounted(s)
    && Ordered(s) && Tracked(s) && Phased(s)
  }

  // ---------- Every step keeps the invariant ----------

  lemma InitInv(capacity: nat)
    ensures Inv(Init(capacity))
  {
  }

  /** The trigger a step moves from one place to another. */
  function Moved(s: State, a: Action): nat
    requires Enabled(s, a)
  {
    match a
    case Trigger => s.accepted
    case Abandon(id) => id
    case Capture(id) => id
    case Enqueue(id) => id
    case HandOff(id) => id
    case Drop(id) => id
    case Receive => s.queue[0]
    case AnalyseReturns(id) => id
    case _ => 0
  }

  predicate IsCaptureStep(a: Action) {
    a.Trigger? || a.Abandon? || a.Capture? || a.Enqueue? || a.HandOff? || a.Drop?
  }

  lemma CaptureStepPlaces(s: State, a: Action, id: nat)
    requires Enabled(s, a) && IsCaptureStep(a)
    requires Places(s, id) == One(id < s.accepted)
    requires Places(s, Moved(s, a)) == One(Moved(s, a) < s.accepted)
    ensures Places(Next(s, a), id) == One(id < Next(s, a).accepted)
  {
  }

  lemma OtherStepPlaces(s: State, a: Action, id: nat)
    requires Enabled(s, a) && !IsCaptureStep(a)
    requires Places(s, id) == One(id < s.accepted)
    requires Places(s, Moved(s, a)) == One(Moved(s, a) < s.accepted)
    ensures Places(Next(s, a), id) == One(id < Next(s, a).accepted)
  {
    if a.Receive? {
      assert s.queue == [s.queue[0]] + s.queue[1..];
    }
  }

  lemma KeepsOnePlace(s: State, a: Action)
    requires OnePlace(s) && Enabled(s, a)
    ensures OnePlace(Next(s, a))
  {
    forall id: nat ensures Places(Next(s, a), id) == One(id < Next(s, a).accepted) {
      if IsCaptureStep(a) {
        CaptureStepPlaces(s, a, id);
      } else {
        OtherStepPlaces(s, a, id);
      }
    }
  }

  /** A trigger is nowhere but where it is. */
  lemma Alone(s: State, id: nat)
    requires OnePlace(s)
    ensures id in s.capturing || id in s.ready || id in s.queue || id in s.analysing ==> id < s.accepted
    ensures id in s.capturing ==> id !in s.ready && id !in s.abandoned && id !in s.analysed
    ensures id in s.ready ==> id !in s.capturing && id !in s.dropped && id !in s.analysing && id !in s.analysed
    ensures id in s.queue ==> id !in s.analysing && id !in s.analysed
    ensures id in s.analysing ==> id !in s.analysed
    ensures id >= s.accepted ==> id !in s.capturing && id !in s.ready
  {
    assert Places(s, id) == One(id < s.accepted);
  }

  lemma KeepsCapturesCounted(s: State, a: Action)
    requires OnePlace(s) && CapturesCounted(s) && Enabled(s, a)
    ensures CapturesCounted(Next(s, a))
  {
    Alone(s, Moved(s, a));
  }

  lemma KeepsAnalysesCounted(s: State, a: Action)
    requires OnePlace(s) && AnalysesCounted(s) && Enabled(s, a)
    ensures AnalysesCounted(Next(s, a))
  {
    Alone(s, Moved(s, a));
  }

  lemma KeepsOrdered(s: State, a: Action)
    requires Ordered(s) && Enabled(s, a)
    ensures Ordered(Next(s, a))
  {
    if a.Receive? {
      assert s.spawned + s.queue == s.spawned + [s.queue[0]] + s.queue[1..];
    } else if a.Enqueue? {
      assert s.spawned + (s.queue + [a.id]) == s.spawned + s.queue + [a.id];
    }
  }

  lemma KeepsTracked(s: State, a: Action)
    requires OnePlace(s) && Tracked(s) && Enabled(s, a)
    ensures Tracked(Next(s, a))
  {
    Alone(s, Moved(s, a));
    if a.Receive? {
      MoveIn(s.analysing, s.queue[0]);
    } else if a.HandOff? {
      MoveIn(s.analysing, a.id);
    } else if a.AnalyseReturns? {
      MoveIn(s.analysing - {a.id}, a.id);
      assert s.analysing == (s.analysing - {a.id}) + {a.id};
    }
  }

  lemma MoveIn(ids: set<nat>, id: nat)
    requires id !in ids
    ensures multiset(ids + {id}) == multiset(ids) + multiset{id}
  {
  }

  lemma KeepsPhased(s: State, a: Action)
    requires Inv(s) && Enabled(s, a)
    ensures Phased(Next(s, a))
  {
  }

  lemma KeepsTotal(s: State, a: Action)
    requires Inv(s) && Enabled(s, a)
    ensures Total(Next(s, a)) == Next(s, a).accepted
  {
    Alone(s, Moved(s, a));
  }

  lemma StepKeepsInv(s: State, a: Action)
    requires Inv(s) && Enabled(s, a)
    ensures Inv(Next(s, a))
  {
    KeepsOnePlace(s, a);
    KeepsCapturesCounted(s, a);
    KeepsAnalysesCounted(s, a);
    KeepsOrdered(s, a);
    KeepsTracked(s, a);
    KeepsPhased(s, a);
    KeepsTotal(s, a);
  }

  // ---------- Safety over every run ----------

  ghost predicate RunOf(s: State, actions: seq<Action>, t: State)
    decreases |actions|
  {
    if actions == [] then s == t
    else Enabled(s, actions[0]) && RunOf(Next(s, actions[0]), actions[1..], t)
  }

  lemma {:induction false} RunKeepsInv(s: State, actions: seq<Action>, t: State)
    requires Inv(s) && RunOf(s, actions, t)
    ensures Inv(t) && t.capacity == s.capacity
    decreases |actions|
  {
    if actions != [] {
      StepKeepsInv(s, actions[0]);
      RunKeepsInv(Next(s, actions[0]), actions[1..], t);
    }
  }

  /** Every result in the queue was analysed, once, and no capture or analysis is left. */
  predicate Drained(s: State) {
    && multiset(s.analysed) == multiset(s.enqueued)
    && (forall id | id in s.enqueued :: multiset(s.analysed)[id] == 1)
    && s.queue == []
    && s.capturing + s.ready + s.leaving + s.analysing + s.finishing == {}
  }

  lemma ExitedIsDrained(s: State)
    requires Inv(s) && s.worker.Exited?
    ensures Drained(s)
  {
    assert s.spawned == s.enqueued;
    forall id | id in s.enqueued ensures multiset(s.analysed)[id] == 1 {
      assert Places(s, id) == One(id < s.accepted);
      assert id in multiset(s.enqueued);
    }
  }

  /**
   In every run, from the start, with any interleaving: no send on a closed queue and no second
   close; every accepted trigger accounted for; the queue within its capacity; analyses spawned
   in the order of the queue; and the extractor closed at most once, after everything is drained.
   */
  lemma EveryRunIsSafe(capacity: nat, actions: seq<Action>, t: State)
    requires RunOf(Init(capacity), actions, t)
    ensures !t.panicked
    ensures t.accepted == |t.capturing| + |t.ready| + |t.abandoned| + |t.dropped| + |t.queue|
                          + |t.analysing| + |t.analysed|
    ensures |t.queue| <= capacity
    ensures t.enqueued == t.spawned + t.queue
    ensures t.extractorCloses == One(t.run.Returned?)
    ensures t.run.ClosingExtractor? || t.run.Returned? ==> Drained(t)
  {
    InitInv(capacity);
    RunKeepsInv(Init(capacity), actions, t);
    if t.worker.Exited? {
      ExitedIsDrained(t);
    }
  }

  /** A result is dropped only when the queue is exactly full. */
  lemma DropsOnlyWhenFull(s: State, id: nat)
    requires Inv(s) && Enabled(s, Drop(id))
    ensures |s.queue| == s.capacity
  {
  }

  /** Once Run has returned, no goroutine of the pipeline can take another step. */
  lemma NothingAfterReturn(s: State, a: Action)
    requires Inv(s) && s.run.Returned?
    ensures !Enabled(s, a)
  {
    ExitedIsDrained(s);
    var all := s.capturing + s.ready + s.leaving + s.analysing + s.finishing;
    assert s.capturing <= all && s.ready <= all && s.leaving <= all && s.analysing <= all && s.finishing <= all;
  }

  // ---------- Shutdown ends ----------

  /** How many steps a shutdown can still take. */
  function Measure(s: State): nat {
    6 * |s.capturing| + 5 * |s.ready| + |s.leaving| + 3 * |s.queue| + 2 * |s.analysing| + |s.finishing|
    + (match s.worker case Receiving => 2 case WaitingAnalyses => 1 case Exited => 0)
    + (match s.run
       case Selecting => 5
       case WaitingCaptures => 4
       case ClosingQueue => 3
       case WaitingWorker => 2
       case ClosingExtractor => 1
       case Returned => 0)
  }

  lemma CaptureStepDecreases(s: State, a: Action)
    requires OnePlace(s) && Enabled(s, a) && IsCaptureStep(a) && !a.Trigger? && !s.closed
    ensures Measure(Next(s, a)) < Measure(s)
  {
    Alone(s, Moved(s, a));
  }

  lemma OtherStepDecreases(s: State, a: Action)
    requires Phased(s) && Enabled(s, a) && !IsCaptureStep(a) && !a.Cancel?
    ensures Measure(Next(s, a)) < Measure(s)
  {
  }

  /** Once the ctx.Done branch is taken, every step of any goroutine decreases the measure. */
  lemma ShutdownStepDecreases(s: State, a: Action)
    requires Inv(s) && !s.run.Selecting? && Enabled(s, a)
    ensures !Next(s, a).run.Selecting?
    ensures Measure(Next(s, a)) < Measure(s)
  {
    if IsCaptureStep(a) {
      CaptureStepDecreases(s, a);
    } else {
      OtherStepDecreases(s, a);
    }
  }

  /** So a shutdown takes at most as many steps as its measure, however the steps interleave. */
  lemma {:induction false} ShutdownIsBounded(s: State, actions: seq<Action>, t: State)
    requires Inv(s) && !s.run.Selecting? && RunOf(s, actions, t)
    ensures |actions| + Measure(t) <= Measure(s)
    decreases |actions|
  {
    if actions != [] {
      StepKeepsInv(s, actions[0]);
      ShutdownStepDecreases(s, actions[0]);
      ShutdownIsBounded(Next(s, actions[0]), actions[1..], t);
    }
  }

  /** A capture that has not been counted down has a step to take. */
  lemma CaptureProgress(s: State) returns (a: Action)
    requires Inv(s) && !s.closed && s.captureGroup > 0
    ensures Enabled(s, a)
  {
    if id :| id in s.capturing {
      a := Capture(id);
    } else if id :| id in s.ready {
      a := if |s.queue| < s.capacity then Enqueue(id) else Drop(id);
    } else {
      assert s.capturing == {} && s.ready == {};
      var id :| id in s.leaving;
      a := CaptureDone(id);
    }
  }

  lemma AnalyseProgress(s: State) returns (a: Action)
    requires Inv(s) && s.analyseGroup > 0
    ensures Enabled(s, a)
  {
    if id :| id in s.analysing {
      a := AnalyseReturns(id);
    } else {
      assert s.analysing == {};
      var id :| id in s.finishing;
      a := AnalyseDone(id);
    }
  }

  /** No state of a shutdown is stuck before Run returns. */
  lemma ShutdownProgress(s: State) returns (a: Action)
    requires Inv(s) && !s.run.Selecting? && !s.run.Returned?
    ensures Enabled(s, a)
  {
    match s.run
    case WaitingCaptures =>
      if s.captureGroup == 0 { a := CapturesWaited; } else { a := CaptureProgress(s); }
    case ClosingQueue => a := CloseQueue;
    case WaitingWorker =>
      match s.worker {
        case Receiving => a := if s.queue != [] then Receive else RangeEnds;
        case WaitingAnalyses =>
          if s.analyseGroup == 0 { a := WorkerExits; } else { a := AnalyseProgress(s); }
        case Exited => a := WorkerWaited;
      }
    case ClosingExtractor => a := CloseExtractor;
  }

  /** Every run of a shutdown that cannot be continued has returned from Run. */
  lemma ShutdownCannotDeadlock(s: State, actions: seq<Action>, t: State)
    requires Inv(s) && !s.run.Selecting? && RunOf(s, actions, t)
    requires forall a :: !Enabled(t, a)
    ensures t.run.Returned? && Drained(t) && t.extractorCloses == 1
  {
    RunKeepsInv(s, actions, t);
    ShutdownStays(s, actions, t);
    if !t.run.Returned? {
      var a := ShutdownProgress(t);
    } else {
      ExitedIsDrained(t);
    }
  }

  lemma {:induction false} ShutdownStays(s: State, actions: seq<Action>, t: State)
    requires Inv(s) && !s.run.Selecting? && RunOf(s, actions, t)
    ensures !t.run.Selecting?
    decreases |actions|
  {
    if actions != [] {
      StepKeepsInv(s, actions[0]);
      ShutdownStepDecreases(s, actions[0]);
      ShutdownStays(Next(s, actions[0]), actions[1..], t);
    }
  }
}
