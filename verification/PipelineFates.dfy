/**
 What becomes of each trigger, read off the actions of a run.

 The fields of a state that record what happened are those of the run's actions and no others;
 every outcome of a capture is open; and every run can be brought to its end, in which each result
 that was enqueued has been analysed.
 */
module PipelineFates {
  import opened Pipeline
  import opened Sequences

  // ---------- The record is that of the actions ----------

  /** What an action enqueues. */
  function EnqueuedOf(a: Action): seq<nat> {
    if a.Enqueue? || a.HandOff? then [a.id] else []
  }

  function AnalysedOf(a: Action): seq<nat> {
    if a.AnalyseReturns? then [a.id] else []
  }

  function EnqueuedBy(actions: seq<Action>): seq<nat> {
    if actions == [] then [] else EnqueuedOf(actions[0]) + EnqueuedBy(actions[1..])
  }

  function AnalysedBy(actions: seq<Action>): seq<nat> {
    if actions == [] then [] else AnalysedOf(actions[0]) + AnalysedBy(actions[1..])
  }

  /** There is a screenshot of this trigger, or there was one. */
  predicate Captured(s: State, id: nat) {
    id in s.ready || id in s.enqueued || id in s.dropped
  }

  /** One action records for a trigger what it does, and nothing else. */
  predicate Records(s: State, a: Action, t: State, id: nat) {
    && (id in t.abandoned <==> id in s.abandoned || a == Abandon(id))
    && (id in t.dropped <==> id in s.dropped || a == Drop(id))
    && (Captured(t, id) <==> Captured(s, id) || a == Capture(id))
    && (t.cancelled <==> s.cancelled || a == Cancel)
    && (t.closed <==> s.closed || a == CloseQueue)
    && (t.run.Returned? <==> s.run.Returned? || a == CloseExtractor)
  }

  lemma StepRecords(s: State, a: Action, id: nat)
    requires Inv(s) && Enabled(s, a)
    ensures Records(s, a, Next(s, a), id)
  {
    assert Phased(Next(s, a)) by {
      KeepsPhased(s, a);
    }
    assert a.Drop? || a.Enqueue? || a.HandOff? ==> a.id in s.ready;
  }

  lemma StepAppends(s: State, a: Action)
    requires Inv(s) && Enabled(s, a)
    ensures var t := Next(s, a);
            && t.accepted == s.accepted + (if a.Trigger? then 1 else 0)
            && t.enqueued == s.enqueued + EnqueuedOf(a)
            && t.analysed == s.analysed + AnalysedOf(a)
  {
    assert Phased(Next(s, a)) by {
      KeepsPhased(s, a);
    }
  }

  lemma InCons(a: Action, rest: seq<Action>, b: Action)
    ensures b in [a] + rest <==> a == b || b in rest
  {
  }

  /** What a run records for a trigger. */
  predicate RunRecords(s: State, actions: seq<Action>, t: State, id: nat) {
    && (id in t.abandoned <==> id in s.abandoned || Abandon(id) in actions)
    && (id in t.dropped <==> id in s.dropped || Drop(id) in actions)
    && (Captured(t, id) <==> Captured(s, id) || Capture(id) in actions)
    && (t.cancelled <==> s.cancelled || Cancel in actions)
    && (t.closed <==> s.closed || CloseQueue in actions)
    && (t.run.Returned? <==> s.run.Returned? || CloseExtractor in actions)
  }

  lemma RecordsCons(s: State, a: Action, u: State, rest: seq<Action>, t: State, id: nat)
    requires Records(s, a, u, id) && RunRecords(u, rest, t, id)
    ensures RunRecords(s, [a] + rest, t, id)
  {
    InCons(a, rest, Abandon(id));
    InCons(a, rest, Drop(id));
    InCons(a, rest, Capture(id));
    InCons(a, rest, Cancel);
    InCons(a, rest, CloseQueue);
    InCons(a, rest, CloseExtractor);
  }

  lemma {:induction false} RunIsRecorded(s: State, actions: seq<Action>, t: State, id: nat)
    requires Inv(s) && RunOf(s, actions, t)
    ensures RunRecords(s, actions, t, id)
    decreases |actions|
  {
    if actions != [] {
      var a, rest := actions[0], actions[1..];
      StepKeepsInv(s, a);
      StepRecords(s, a, id);
      RunIsRecorded(Next(s, a), rest, t, id);
      RecordsCons(s, a, Next(s, a), rest, t, id);
      assert actions == [a] + rest;
    }
  }

  lemma {:induction false} RunAppends(s: State, actions: seq<Action>, t: State)
    requires Inv(s) && RunOf(s, actions, t)
    ensures t.accepted == s.accepted + multiset(actions)[Trigger]
    ensures t.enqueued == s.enqueued + EnqueuedBy(actions)
    ensures t.analysed == s.analysed + AnalysedBy(actions)
    decreases |actions|
  {
    if actions != [] {
      var a, rest := actions[0], actions[1..];
      var u := Next(s, a);
      StepKeepsInv(s, a);
      RunAppends(u, rest, t);
      assert actions == [a] + rest;
      AppendsCons(s, a, rest, t);
    }
  }

  lemma AppendsCons(s: State, a: Action, rest: seq<Action>, t: State)
    requires Inv(s) && Enabled(s, a)
    requires var u := Next(s, a);
             && t.accepted == u.accepted + multiset(rest)[Trigger]
             && t.enqueued == u.enqueued + EnqueuedBy(rest) && t.analysed == u.analysed + AnalysedBy(rest)
    ensures t.accepted == s.accepted + multiset([a] + rest)[Trigger]
    ensures t.enqueued == s.enqueued + EnqueuedBy([a] + rest) && t.analysed == s.analysed + AnalysedBy([a] + rest)
  {
    StepAppends(s, a);
    assert ([a] + rest)[1..] == rest;
    Regroup(s.enqueued, EnqueuedOf(a), EnqueuedBy(rest));
    Regroup(s.analysed, AnalysedOf(a), AnalysedBy(rest));
  }

  /**
   In every run from the start: a trigger is abandoned if and only if its capture returned without
   a result, dropped if and only if its result was, and has a result in hand, enqueued or dropped
   if and only if it was captured; the results enqueued and analysed are those of the actions, in
   their order; there are as many triggers as were taken.
   */
  lemma FatesAreActions(capacity: nat, actions: seq<Action>, t: State, id: nat)
    requires RunOf(Init(capacity), actions, t)
    ensures t.accepted == multiset(actions)[Trigger]
    ensures t.enqueued == EnqueuedBy(actions) && t.analysed == AnalysedBy(actions)
    ensures id in t.abandoned <==> Abandon(id) in actions
    ensures id in t.dropped <==> Drop(id) in actions
    ensures id in t.ready || id in t.enqueued || id in t.dropped <==> Capture(id) in actions
    ensures t.cancelled <==> Cancel in actions
    ensures t.closed <==> CloseQueue in actions
    ensures t.run.Returned? <==> CloseExtractor in actions
  {
    InitInv(capacity);
    RunIsRecorded(Init(capacity), actions, t, id);
    RunAppends(Init(capacity), actions, t);
  }

  // ---------- Every outcome is open ----------

  /** With room in an open queue, a captured result is enqueued behind those that wait. */
  lemma CapturedIsQueued(s: State, id: nat)
    requires Inv(s) && id in s.capturing && !s.closed && |s.queue| < s.capacity
    ensures Enabled(s, Capture(id)) && Enabled(Next(s, Capture(id)), Enqueue(id))
    ensures var t := Next(Next(s, Capture(id)), Enqueue(id));
            t == s.(capturing := s.capturing - {id}, leaving := s.leaving + {id},
                    queue := s.queue + [id], enqueued := s.enqueued + [id])
  {
    Alone(s, id);
    assert s.ready + {id} - {id} == s.ready;
  }

  lemma RunOf3(s: State, a: Action, t: State, b: Action, u: State, c: Action, v: State)
    requires Enabled(s, a) && Next(s, a) == t && Enabled(t, b) && Next(t, b) == u && Enabled(u, c) && Next(u, c) == v
    ensures RunOf(s, [a, b, c], v)
  {
    assert [a, b, c][1..] == [b, c] && [b, c][1..] == [c] && [c][1..] == [];
    assert RunOf(u, [c], v);
    assert RunOf(t, [b, c], v);
  }

  lemma RunOf4(s: State, a: Action, t: State, b: Action, u: State, c: Action, v: State, d: Action, w: State)
    requires Enabled(s, a) && Next(s, a) == t && Enabled(t, b) && Next(t, b) == u && Enabled(u, c) && Next(u, c) == v
    requires Enabled(v, d) && Next(v, d) == w
    ensures RunOf(s, [a, b, c, d], w)
  {
    RunOf3(t, b, u, c, v, d, w);
    assert [a, b, c, d][1..] == [b, c, d];
  }

  /** The run loop can take a trigger, whose number is nowhere yet. */
  predicate Ready(s: State) {
    && !s.panicked && s.run.Selecting? && !s.closed && s.worker.Receiving?
    && s.accepted !in s.capturing && s.accepted !in s.ready && s.accepted !in s.leaving
  }

  lemma SelectingIsReady(s: State)
    requires Inv(s) && s.run.Selecting?
    ensures Ready(s)
  {
    Alone(s, s.accepted);
  }

  lemma InAndOut(ids: set<nat>, id: nat)
    requires id !in ids
    ensures ids + {id} - {id} == ids
  {
  }

  /** The next trigger is taken. */
  function Taken(s: State): State {
    s.(accepted := s.accepted + 1, captureGroup := s.captureGroup + 1, capturing := s.capturing + {s.accepted})
  }

  /** Its screenshot is taken. */
  function Shot(s: State): State {
    s.(accepted := s.accepted + 1, captureGroup := s.captureGroup + 1, ready := s.ready + {s.accepted})
  }

  /** Its capture has returned, but has not been counted down. */
  function Leaving(s: State): State {
    s.(captureGroup := s.captureGroup + 1, leaving := s.leaving + {s.accepted})
  }

  lemma TriggerSteps(s: State)
    requires Ready(s)
    ensures Enabled(s, Trigger) && Next(s, Trigger) == Taken(s)
    ensures Enabled(Taken(s), Capture(s.accepted)) && Next(Taken(s), Capture(s.accepted)) == Shot(s)
    ensures Next(Taken(s), Abandon(s.accepted))
         == Leaving(s).(accepted := s.accepted + 1, abandoned := s.abandoned + {s.accepted})
  {
    InAndOut(s.capturing, s.accepted);
  }

  /** A trigger may come to nothing. */
  lemma CanBeAbandoned(s: State)
    requires Ready(s)
    ensures var id := s.accepted;
            RunOf(s, [Trigger, Abandon(id), CaptureDone(id)],
                  s.(accepted := id + 1, abandoned := s.abandoned + {id}))
  {
    var id := s.accepted;
    var left := Leaving(s).(accepted := id + 1, abandoned := s.abandoned + {id});
    var t := s.(accepted := id + 1, abandoned := s.abandoned + {id});
    TriggerSteps(s);
    InAndOut(s.leaving, id);
    RunOf3(s, Trigger, Taken(s), Abandon(id), left, CaptureDone(id), t);
  }

  /** Whatever ends a capture with a result in hand, it is then counted down. */
  lemma ShotEnds(s: State, a: Action, left: State, t: State)
    requires Ready(s)
    requires Enabled(Shot(s), a) && Next(Shot(s), a) == left
    requires left.leaving == s.leaving + {s.accepted} && left.captureGroup == s.captureGroup + 1 && !left.panicked
    requires t == left.(leaving := s.leaving, captureGroup := s.captureGroup)
    ensures RunOf(s, [Trigger, Capture(s.accepted), a, CaptureDone(s.accepted)], t)
  {
    TriggerSteps(s);
    InAndOut(s.leaving, s.accepted);
    RunOf4(s, Trigger, Taken(s), Capture(s.accepted), Shot(s), a, left, CaptureDone(s.accepted), t);
  }

  /** With room in the queue, its result joins it. */
  lemma CanBeQueued(s: State)
    requires Ready(s) && |s.queue| < s.capacity
    ensures var id := s.accepted;
            RunOf(s, [Trigger, Capture(id), Enqueue(id), CaptureDone(id)],
                  s.(accepted := id + 1, queue := s.queue + [id], enqueued := s.enqueued + [id]))
  {
    var id := s.accepted;
    InAndOut(s.ready, id);
    ShotEnds(s, Enqueue(id),
             Leaving(s).(accepted := id + 1, queue := s.queue + [id], enqueued := s.enqueued + [id]),
             s.(accepted := id + 1, queue := s.queue + [id], enqueued := s.enqueued + [id]));
  }

  /** With none, it is dropped. */
  lemma CanBeDropped(s: State)
    requires Ready(s) && |s.queue| == s.capacity
    ensures var id := s.accepted;
            RunOf(s, [Trigger, Capture(id), Drop(id), CaptureDone(id)],
                  s.(accepted := id + 1, dropped := s.dropped + {id}))
  {
    var id := s.accepted;
    InAndOut(s.ready, id);
    ShotEnds(s, Drop(id), Leaving(s).(accepted := id + 1, dropped := s.dropped + {id}),
             s.(accepted := id + 1, dropped := s.dropped + {id}));
  }

  /** Without a buffer, it may go to the waiting worker from hand to hand. */
  lemma CanBeHandedOff(s: State)
    requires Ready(s) && s.capacity == 0
    ensures var id := s.accepted;
            RunOf(s, [Trigger, Capture(id), HandOff(id), CaptureDone(id)],
                  s.(accepted := id + 1, enqueued := s.enqueued + [id], spawned := s.spawned + [id],
                     analysing := s.analysing + {id}, analyseGroup := s.analyseGroup + 1))
  {
    var id := s.accepted;
    var t := s.(accepted := id + 1, enqueued := s.enqueued + [id], spawned := s.spawned + [id],
                analysing := s.analysing + {id}, analyseGroup := s.analyseGroup + 1);
    InAndOut(s.ready, id);
    ShotEnds(s, HandOff(id), t.(leaving := s.leaving + {id}, captureGroup := s.captureGroup + 1), t);
  }

  /**
   Whenever the run loop selects, each outcome of the next trigger is open: it comes to nothing; its
   result joins the queue behind the others when there is room, or is dropped when there is none; or,
   without a buffer, it goes to the waiting worker.
   */
  lemma EveryOutcomeIsOpen(capacity: nat, earlier: seq<Action>, s: State)
    requires RunOf(Init(capacity), earlier, s) && s.run.Selecting?
    ensures var id := s.accepted;
            && RunOf(s, [Trigger, Abandon(id), CaptureDone(id)],
                     s.(accepted := id + 1, abandoned := s.abandoned + {id}))
            && (|s.queue| < capacity ==>
                  RunOf(s, [Trigger, Capture(id), Enqueue(id), CaptureDone(id)],
                        s.(accepted := id + 1, queue := s.queue + [id], enqueued := s.enqueued + [id])))
            && (|s.queue| == capacity ==>
                  RunOf(s, [Trigger, Capture(id), Drop(id), CaptureDone(id)],
                        s.(accepted := id + 1, dropped := s.dropped + {id})))
            && (capacity == 0 ==>
                  RunOf(s, [Trigger, Capture(id), HandOff(id), CaptureDone(id)],
                        s.(accepted := id + 1, enqueued := s.enqueued + [id], spawned := s.spawned + [id],
                           analysing := s.analysing + {id}, analyseGroup := s.analyseGroup + 1)))
  {
    assert Ready(s) && s.capacity == capacity by {
      InitInv(capacity);
      RunKeepsInv(Init(capacity), earlier, s);
      SelectingIsReady(s);
    }
    CanBeAbandoned(s);
    if |s.queue| < capacity {
      CanBeQueued(s);
    }
    if |s.queue| == capacity {
      CanBeDropped(s);
    }
    if capacity == 0 {
      CanBeHandedOff(s);
    }
  }

  // ---------- Every run can end, and what it leaves ----------

  lemma RunCons(s: State, a: Action, rest: seq<Action>, t: State)
    requires Enabled(s, a) && RunOf(Next(s, a), rest, t)
    ensures RunOf(s, [a] + rest, t)
  {
    assert ([a] + rest)[1..] == rest;
  }

  lemma {:induction false} ShutdownCanEnd(s: State) returns (actions: seq<Action>, t: State)
    requires Inv(s) && !s.run.Selecting?
    ensures RunOf(s, actions, t) && t.run.Returned?
    decreases Measure(s)
  {
    if s.run.Returned? {
      actions, t := [], s;
    } else {
      var a := ShutdownProgress(s);
      StepKeepsInv(s, a);
      ShutdownStepDecreases(s, a);
      var rest;
      rest, t := ShutdownCanEnd(Next(s, a));
      RunCons(s, a, rest, t);
      actions := [a] + rest;
    }
  }

  /** Whatever has happened, the run can be cancelled and brought to its end. */
  lemma EveryRunCanEnd(capacity: nat, earlier: seq<Action>, s: State) returns (actions: seq<Action>, t: State)
    requires RunOf(Init(capacity), earlier, s)
    ensures RunOf(s, actions, t) && t.run.Returned?
  {
    InitInv(capacity);
    RunKeepsInv(Init(capacity), earlier, s);
    if !s.run.Selecting? {
      actions, t := ShutdownCanEnd(s);
    } else {
      var u := if s.cancelled then s else Next(s, Cancel);
      if !s.cancelled {
        StepKeepsInv(s, Cancel);
      }
      StepKeepsInv(u, TakeDone);
      actions, t := ShutdownCanEnd(Next(u, TakeDone));
      RunCons(u, TakeDone, actions, t);
      actions := [TakeDone] + actions;
      if !s.cancelled {
        RunCons(s, Cancel, actions, t);
        actions := [Cancel] + actions;
      }
    }
  }

  /**
   In every run that has returned, each trigger has come to exactly one end: its capture gave no
   result, or the result was dropped, or it was analysed, once; and those analysed are exactly
   those that were enqueued.
   */
  lemma EveryTriggerEnds(capacity: nat, actions: seq<Action>, t: State, id: nat)
    requires RunOf(Init(capacity), actions, t) && t.run.Returned?
    ensures id < multiset(actions)[Trigger]
       <==> Abandon(id) in actions || Drop(id) in actions || id in AnalysedBy(actions)
    ensures multiset(AnalysedBy(actions)) == multiset(EnqueuedBy(actions))
    ensures multiset(AnalysedBy(actions))[id] <= 1
    ensures !(Abandon(id) in actions && Drop(id) in actions)
    ensures Abandon(id) in actions || Drop(id) in actions ==> id !in AnalysedBy(actions)
  {
    InitInv(capacity);
    RunKeepsInv(Init(capacity), actions, t);
    ExitedIsDrained(t);
    FatesAreActions(capacity, actions, t, id);
    NothingHeld(t);
    assert Places(t, id) == One(id < t.accepted);
    assert id in t.analysed <==> multiset(t.analysed)[id] > 0;
  }

  lemma NothingHeld(s: State)
    requires Drained(s)
    ensures s.capturing == {} && s.ready == {} && s.analysing == {} && s.queue == []
  {
    var all := s.capturing + s.ready + s.leaving + s.analysing + s.finishing;
    assert s.capturing <= all && s.ready <= all && s.analysing <= all;
  }
}
