/**
 Runs of the poller against a server, with lost answers, failed writes and crashes.

 The server holds a log of updates in ascending order. A request with an offset makes it forget
 the updates below the offset and answer with some of those that follow. The poller acknowledges
 nothing else: what it has handled is confirmed by the offset of its next request.
 */
module PollerRuns {
  import opened Wrappers
  import opened Decimal
  import opened Space
  import opened Updates
  import P = Poller
  import S = Store

  /** The updates of a server, for ever, and the subscribers before the first of them. */
  datatype World = World(log: seq<Update>, initial: set<int64>)

  /**
   Positions count updates from the start of the log. `acked` is where the server's memory
   begins, `cursor` the next update to handle and `batch` the end of the answer in hand. The
   poller started last at `base` with the set `loaded`, and has handled `applied` since; no
   update from `seen` on was ever handled.
   */
  datatype State = State(
    acked: nat,
    offset: int64,
    cursor: nat,
    batch: nat,
    memory: set<int64>,
    file: set<int64>,
    base: nat,
    loaded: set<int64>,
    applied: seq<Update>,
    seen: nat)

  function Init(w: World): State {
    State(0, 0, 0, 0, w.initial, w.initial, 0, w.initial, [], 0)
  }

  datatype Action =
    | Poll(count: nat)       // a request, answered with so many updates
    | PollLost               // the server takes the request, the answer is lost or undecodable
    | PollUnsent             // the request does not reach the server
    | Handle(written: bool)  // the next update of the answer; `written` when a persist would succeed
    | Crash                  // the poller stops, and starts again from its file

  /** Identifiers ascend, as the server promises, from zero to below the greatest 64-bit number. */
  predicate Ascending(log: seq<Update>) {
    && (forall i | 0 <= i < |log| :: 0 <= log[i].id < MAX_INT64)
    && (forall i, j | 0 <= i < j < |log| :: log[i].id < log[j].id)
  }

  /** Where the server's memory begins once it has forgotten the updates below an offset. */
  function Confirmed(log: seq<Update>, acked: nat, offset: int64): nat
    decreases |log| - acked
  {
    if acked < |log| && log[acked].id < offset then Confirmed(log, acked + 1, offset) else acked
  }

  predicate Enabled(w: World, s: State, a: Action) {
    match a
    case Poll(count) => s.cursor == s.batch && Confirmed(w.log, s.acked, s.offset) + count <= |w.log|
    case PollLost => s.cursor == s.batch
    case PollUnsent => s.cursor == s.batch
    case Handle(_) => s.cursor < s.batch && s.cursor < |w.log|
    case Crash => true
  }

  function Max(a: nat, b: nat): nat {
    if a < b then b else a
  }

  function Next(w: World, s: State, a: Action): State
    requires Enabled(w, s, a)
  {
    match a
    case Poll(count) =>
      var from := Confirmed(w.log, s.acked, s.offset);
      s.(acked := from, cursor := from, batch := from + count)
    case PollLost => s.(acked := Confirmed(w.log, s.acked, s.offset))
    case PollUnsent => s
    case Handle(written) =>
      var u := w.log[s.cursor];
      var memory := Apply(s.memory, u);
      s.(offset := P.NextOffset(u.id), cursor := s.cursor + 1, memory := memory,
         file := if written && !CommandOf(u).Ignored? then memory else s.file,
         applied := s.applied + [u], seen := Max(s.seen, s.cursor + 1))
    case Crash =>
      s.(offset := 0, cursor := s.acked, batch := s.acked, memory := s.file,
         base := s.acked, loaded := s.file, applied := [])
  }

  predicate RunOf(w: World, s: State, actions: seq<Action>, t: State)
    decreases |actions|
  {
    if actions == [] then s == t
    else Enabled(w, s, actions[0]) && RunOf(w, Next(w, s, actions[0]), actions[1..], t)
  }

  // ---------- Each update once, in order ----------

  predicate Inv(w: World, s: State) {
    && s.base <= s.acked <= s.cursor <= s.batch <= |w.log|
    && s.cursor <= s.seen <= |w.log|
    && s.offset == (if s.cursor == s.base then 0 else P.NextOffset(w.log[s.cursor - 1].id))
    && s.applied == w.log[s.base..s.cursor]
    && s.memory == Fold(s.loaded, s.applied)
  }

  lemma {:induction false} ConfirmedIs(log: seq<Update>, acked: nat, offset: int64, end: nat)
    requires acked <= end <= |log|
    requires forall i | acked <= i < end :: log[i].id < offset
    requires end < |log| ==> offset <= log[end].id
    ensures Confirmed(log, acked, offset) == end
    decreases end - acked
  {
    if acked < end {
      ConfirmedIs(log, acked + 1, offset, end);
    }
  }

  /** A request confirms exactly the updates handled: the server resumes where the poller stands. */
  lemma PollResumes(w: World, s: State)
    requires Ascending(w.log) && Inv(w, s)
    ensures Confirmed(w.log, s.acked, s.offset) == s.cursor
  {
    ConfirmedIs(w.log, s.acked, s.offset, s.cursor);
  }

  lemma HandleKeepsInv(w: World, s: State, a: Action)
    requires Inv(w, s) && Enabled(w, s, a) && a.Handle?
    ensures Inv(w, Next(w, s, a))
  {
    assert w.log[s.base..s.cursor + 1] == w.log[s.base..s.cursor] + [w.log[s.cursor]];
    FoldSnoc(s.loaded, s.applied, w.log[s.cursor]);
  }

  lemma CrashKeepsInv(w: World, s: State)
    requires Inv(w, s)
    ensures Inv(w, Next(w, s, Crash))
  {
    assert w.log[s.acked..s.acked] == [];
  }

  lemma StepKeepsInv(w: World, s: State, a: Action)
    requires Ascending(w.log) && Inv(w, s) && Enabled(w, s, a)
    ensures Inv(w, Next(w, s, a))
  {
    match a
    case Poll(_) => PollResumes(w, s);
    case PollLost => PollResumes(w, s);
    case PollUnsent =>
    case Handle(_) => HandleKeepsInv(w, s, a);
    case Crash => CrashKeepsInv(w, s);
  }

  /** Between crashes the offset never decreases. */
  lemma StepRaisesOffset(w: World, s: State, a: Action)
    requires Ascending(w.log) && Inv(w, s) && Enabled(w, s, a) && !a.Crash?
    ensures s.offset <= Next(w, s, a).offset
  {
  }

  lemma {:induction false} RunKeepsInv(w: World, s: State, actions: seq<Action>, t: State)
    requires Ascending(w.log) && Inv(w, s) && RunOf(w, s, actions, t)
    ensures Inv(w, t)
    decreases |actions|
  {
    if actions != [] {
      StepKeepsInv(w, s, actions[0]);
      RunKeepsInv(w, Next(w, s, actions[0]), actions[1..], t);
    }
  }

  lemma Reachable(w: World, earlier: seq<Action>, s: State)
    requires Ascending(w.log) && RunOf(w, Init(w), earlier, s)
    ensures Inv(w, s)
  {
    RunKeepsInv(w, Init(w), earlier, s);
  }

  lemma {:induction false} StretchWithoutCrash(w: World, s: State, actions: seq<Action>, t: State)
    requires Ascending(w.log) && Inv(w, s) && RunOf(w, s, actions, t) && Crash !in actions
    ensures Inv(w, t) && t.base == s.base && t.loaded == s.loaded
    ensures s.applied <= t.applied && s.offset <= t.offset
    decreases |actions|
  {
    if actions != [] {
      var u := Next(w, s, actions[0]);
      StepKeepsInv(w, s, actions[0]);
      StepRaisesOffset(w, s, actions[0]);
      StepAppends(w, s, actions[0]);
      StretchWithoutCrash(w, u, actions[1..], t);
    }
  }

  /**
   From any state of any run, and until the next crash, whatever requests and writes fail: every
   update from where the poller last started is applied once, in the order of the log; memory is the
   fold of the updates handled since; and the offset never decreases. In a run without any crash
   these are all the updates of the log.
   */
  lemma EveryUpdateOnceInOrder(w: World, earlier: seq<Action>, s: State, actions: seq<Action>, t: State)
    requires Ascending(w.log) && RunOf(w, Init(w), earlier, s)
    requires RunOf(w, s, actions, t) && Crash !in actions
    ensures s.base == t.base <= t.cursor <= |w.log| && s.loaded == t.loaded
    ensures s.applied <= t.applied && t.applied == w.log[t.base..t.cursor]
    ensures t.memory == Fold(t.loaded, t.applied)
    ensures s.offset <= t.offset
    ensures Crash !in earlier ==> t.applied == w.log[..t.cursor] && t.loaded == w.initial
  {
    Reachable(w, earlier, s);
    StretchWithoutCrash(w, s, actions, t);
    if Crash !in earlier {
      StretchWithoutCrash(w, Init(w), earlier, s);
      assert w.log[0..t.cursor] == w.log[..t.cursor];
    }
  }

  lemma StepAppends(w: World, s: State, a: Action)
    requires Enabled(w, s, a) && !a.Crash?
    ensures s.applied <= Next(w, s, a).applied
    ensures Next(w, s, a).base == s.base && Next(w, s, a).loaded == s.loaded
  {
  }

  // ---------- One call of the poller ----------

  predicate AllHandle(actions: seq<Action>) {
    forall a | a in actions :: a.Handle?
  }

  lemma HandleOne(w: World, s: State, a: Action, rest: seq<Update>)
    requires Enabled(w, s, a) && a.Handle?
    ensures Fold(s.memory, [w.log[s.cursor]] + rest) == Fold(Next(w, s, a).memory, rest)
    ensures P.OffsetAfter(s.offset, [w.log[s.cursor]] + rest) == P.OffsetAfter(Next(w, s, a).offset, rest)
  {
    var u := w.log[s.cursor];
    FoldCat(s.memory, [u], rest);
    FoldSnoc(s.memory, [], u);
    assert [] + [u] == [u];
  }

  /** From a set, an offset and a position, a state is reached by handling updates as one call would. */
  predicate Handled(log: seq<Update>, memory: set<int64>, offset: int64, from: nat, t: State) {
    && from <= t.cursor <= |log|
    && t.memory == Fold(memory, log[from..t.cursor])
    && t.offset == P.OffsetAfter(offset, log[from..t.cursor])
  }

  lemma {:induction false} HandlesFold(w: World, s: State, actions: seq<Action>, t: State)
    requires RunOf(w, s, actions, t) && AllHandle(actions)
    requires s.cursor <= |w.log|
    ensures t.cursor == s.cursor + |actions| && t.batch == s.batch
    ensures Handled(w.log, s.memory, s.offset, s.cursor, t)
    decreases |actions|
  {
    if actions != [] {
      assert actions[0] in actions;
      var u := Next(w, s, actions[0]);
      HandlesFold(w, u, actions[1..], t);
      HandleOne(w, s, actions[0], w.log[u.cursor..t.cursor]);
      assert w.log[s.cursor..t.cursor] == [w.log[s.cursor]] + w.log[u.cursor..t.cursor];
    }
  }

  lemma PollOpens(w: World, s: State, count: nat)
    requires Ascending(w.log) && Inv(w, s) && Enabled(w, s, Poll(count))
    ensures s.cursor + count <= |w.log|
    ensures Next(w, s, Poll(count)) == s.(acked := s.cursor, batch := s.cursor + count)
  {
    PollResumes(w, s);
  }

  /**
   A request and the handling of its whole answer do to memory and offset what one call of
   `Poller.Poll` does, and the answer is the stretch of the log that follows what was handled.
   */
  lemma PollHandlesItsAnswer(w: World, s: State, count: nat, handles: seq<Action>, t: State)
    requires Ascending(w.log) && Inv(w, s) && Enabled(w, s, Poll(count))
    requires |handles| == count && AllHandle(handles) && RunOf(w, Next(w, s, Poll(count)), handles, t)
    ensures t.cursor == t.batch == s.cursor + count
    ensures Handled(w.log, s.memory, s.offset, s.cursor, t)
  {
    PollOpens(w, s, count);
    HandlesFold(w, Next(w, s, Poll(count)), handles, t);
  }

  /** So many updates handled with none written, but for the last when `written`. */
  function Handles(n: nat, written: bool): seq<Action> {
    if n == 0 then [] else [Handle(written && n == 1)] + Handles(n - 1, written)
  }

  lemma {:induction false} HandlesAreHandles(n: nat, written: bool)
    ensures |Handles(n, written)| == n && AllHandle(Handles(n, written))
    decreases n
  {
    if n > 0 {
      HandlesAreHandles(n - 1, written);
    }
  }

  /** The state after handling so many updates of the answer in hand. */
  function HandledState(w: World, s: State, n: nat, written: bool): State
    requires s.cursor + n <= s.batch && s.cursor + n <= |w.log|
    decreases n
  {
    if n == 0 then s else HandledState(w, Next(w, s, Handle(written && n == 1)), n - 1, written)
  }

  lemma {:induction false} HandlesRun(w: World, s: State, n: nat, written: bool)
    requires s.cursor + n <= s.batch && s.cursor + n <= |w.log|
    ensures RunOf(w, s, Handles(n, written), HandledState(w, s, n, written))
    decreases n
  {
    if n > 0 {
      var a := Handle(written && n == 1);
      HandlesRun(w, Next(w, s, a), n - 1, written);
      assert ([a] + Handles(n - 1, written))[1..] == Handles(n - 1, written);
    }
  }

  /** Nothing is written but with the last update, and then all of memory is. */
  lemma {:induction false} HandledFile(w: World, s: State, n: nat, written: bool)
    requires s.cursor + n <= s.batch && s.cursor + n <= |w.log|
    ensures var t := HandledState(w, s, n, written);
            t.file == if written && n > 0 && !CommandOf(w.log[s.cursor + n - 1]).Ignored? then t.memory else s.file
    decreases n
  {
    if n > 0 {
      HandledFile(w, Next(w, s, Handle(written && n == 1)), n - 1, written);
    }
  }

  lemma HandledToCommand(w: World, s: State, n: nat)
    requires 0 < n && s.cursor + n <= s.batch && s.cursor + n <= |w.log|
    requires !CommandOf(w.log[s.cursor + n - 1]).Ignored?
    ensures var t := HandledState(w, s, n, true);
            && AllHandle(Handles(n, true)) && RunOf(w, s, Handles(n, true), t)
            && t.file == Fold(s.memory, w.log[s.cursor..s.cursor + n])
  {
    var t := HandledState(w, s, n, true);
    HandlesAreHandles(n, true);
    HandlesRun(w, s, n, true);
    assert t.memory == Fold(s.memory, w.log[s.cursor..s.cursor + n]) by {
      HandlesFold(w, s, Handles(n, true), t);
    }
    HandledFile(w, s, n, true);
  }

  lemma TakeOf(log: seq<Update>, a: nat, b: nat, n: nat)
    requires a <= b <= |log| && n <= b - a
    ensures log[a..b][..n] == log[a..a + n] && (n > 0 ==> log[a..b][n - 1] == log[a + n - 1])
  {
  }

  lemma HandledSnapshot(w: World, s: State, n: nat)
    requires s.cursor <= s.batch <= |w.log| && P.CommandAt(w.log[s.cursor..s.batch], n)
    ensures var t := HandledState(w, s, n, true);
            && AllHandle(Handles(n, true)) && RunOf(w, s, Handles(n, true), t)
            && t.file == Fold(s.memory, w.log[s.cursor..s.batch][..n])
  {
    TakeOf(w.log, s.cursor, s.batch, n);
    HandledToCommand(w, s, n);
  }

  lemma {:induction false} RunCat(w: World, s: State, a: seq<Action>, u: State, b: seq<Action>, t: State)
    requires RunOf(w, s, a, u) && RunOf(w, u, b, t)
    ensures RunOf(w, s, a + b, t)
    decreases |a|
  {
    if a == [] {
      assert a + b == b;
    } else {
      RunCat(w, Next(w, s, a[0]), a[1..], u, b, t);
      assert (a + b)[0] == a[0] && (a + b)[1..] == a[1..] + b;
    }
  }

  /** Handles what is left of an answer. */
  lemma AnswerEnds(w: World, s: State) returns (handles: seq<Action>, t: State)
    requires s.cursor <= s.batch <= |w.log|
    ensures AllHandle(handles) && RunOf(w, s, handles, t) && t.cursor == t.batch == s.batch
    ensures t.memory == Fold(s.memory, w.log[s.cursor..s.batch])
  {
    var n := s.batch - s.cursor;
    handles, t := Handles(n, false), HandledState(w, s, n, false);
    HandlesAreHandles(n, false);
    HandlesRun(w, s, n, false);
    HandlesFold(w, s, handles, t);
  }

  /**
   Whatever has happened, the poller can catch up with the server: it handles what it has, requests
   the rest and handles that, and has then applied every update from where it stood.
   */
  lemma EveryRunCanCatchUp(w: World, earlier: seq<Action>, s: State) returns (actions: seq<Action>, t: State)
    requires Ascending(w.log) && RunOf(w, Init(w), earlier, s)
    ensures RunOf(w, s, actions, t) && Crash !in actions
    ensures s.cursor <= t.cursor == |w.log| && t.memory == Fold(s.memory, w.log[s.cursor..])
  {
    Reachable(w, earlier, s);
    var first, u := AnswerEnds(w, s);
    RunKeepsInv(w, s, first, u);
    var count := |w.log| - u.cursor;
    PollResumes(w, u);
    var v := Next(w, u, Poll(count));
    PollOpens(w, u, count);
    var last;
    last, t := AnswerEnds(w, v);
    RunOfOne(w, u, Poll(count));
    RunCat(w, s, first, u, [Poll(count)], v);
    RunCat(w, s, first + [Poll(count)], v, last, t);
    actions := first + [Poll(count)] + last;
    CatchUpFolds(w.log, s.memory, s.cursor, u.cursor);
    assert Crash !in actions by {
      assert forall a | a in actions :: a in first || a == Poll(count) || a in last;
    }
  }

  lemma RunOfOne(w: World, s: State, a: Action)
    requires Enabled(w, s, a)
    ensures RunOf(w, s, [a], Next(w, s, a))
  {
    assert [a][1..] == [];
  }

  lemma CatchUpFolds(log: seq<Update>, memory: set<int64>, from: nat, mid: nat)
    requires from <= mid <= |log|
    ensures Fold(Fold(memory, log[from..mid]), log[mid..|log|]) == Fold(memory, log[from..])
  {
    FoldCat(memory, log[from..mid], log[mid..|log|]);
    assert log[from..mid] + log[mid..|log|] == log[from..];
  }

  /** What one call of the poller starts from: a set in memory, and a file that holds another. */
  predicate Agrees(s: State, memory: set<int64>, file: Option<string>) {
    s.memory == memory && S.Contents(file) == Some(s.file)
  }

  /**
   Every state of the disk during `Poller.Poll` holds the file of a state of a run, one in which some
   updates of the answer have been handled. A crash inside a call is therefore a crash of a run, and
   the poller starts again as that run does.
   */
  lemma CrashInsidePoll(w: World, s: State, memory: set<int64>, before: Option<string>, file: Option<string>)
    returns (handles: seq<Action>, t: State)
    requires s.cursor <= s.batch <= |w.log| && Agrees(s, memory, before)
    requires P.Snapshot(file, before, memory, w.log[s.cursor..s.batch])
    ensures AllHandle(handles) && RunOf(w, s, handles, t)
    ensures S.Contents(file) == Some(t.file) && Next(w, t, Crash).memory == t.file
  {
    var answer := w.log[s.cursor..s.batch];
    if file == before {
      handles, t := [], s;
    } else {
      var n: nat :| P.CommandAt(answer, n) && S.Contents(file) == Some(Fold(memory, answer[..n]));
      handles, t := Handles(n, true), HandledState(w, s, n, true);
      HandledSnapshot(w, s, n);
    }
  }

  // ---------- Crashes ----------

  /** A set that comes out right once the updates from a position up to `seen` are applied to it. */
  predicate CatchesUp(w: World, s: State, subscribers: set<int64>, from: nat) {
    && from <= s.seen <= |w.log|
    && Fold(subscribers, w.log[from..s.seen]) == Fold(w.initial, w.log[..s.seen])
  }

  predicate Durable(w: World, s: State) {
    Inv(w, s) && CatchesUp(w, s, s.memory, s.cursor) && CatchesUp(w, s, s.file, s.acked)
  }

  /** A step that confirms updates only while the file agrees with memory. */
  predicate Careful(s: State, a: Action) {
    (a.Poll? || a.PollLost?) && s.acked < s.cursor ==> s.file == s.memory
  }

  predicate CarefulRun(w: World, s: State, actions: seq<Action>, t: State)
    requires RunOf(w, s, actions, t)
    decreases |actions|
  {
    actions == [] || (Careful(s, actions[0]) && CarefulRun(w, Next(w, s, actions[0]), actions[1..], t))
  }

  lemma InitDurable(w: World)
    ensures Durable(w, Init(w))
  {
    assert w.log[0..0] == [] == w.log[..0];
  }

  lemma HandledAgain(w: World, s: State, a: Action)
    requires Inv(w, s) && Enabled(w, s, a) && a.Handle? && CatchesUp(w, s, s.memory, s.cursor) && s.cursor < s.seen
    ensures var t := Next(w, s, a); CatchesUp(w, t, t.memory, t.cursor)
  {
    var u, rest := w.log[s.cursor], w.log[s.cursor + 1..s.seen];
    assert w.log[s.cursor..s.seen] == [u] + rest;
    HandleOne(w, s, a, rest);
  }

  lemma HandledFirst(w: World, s: State, a: Action)
    requires Inv(w, s) && Enabled(w, s, a) && a.Handle? && CatchesUp(w, s, s.memory, s.cursor) && s.cursor == s.seen
    ensures var t := Next(w, s, a); CatchesUp(w, t, t.memory, t.cursor)
  {
    var u := w.log[s.cursor];
    assert w.log[s.cursor..s.seen] == [] == w.log[s.cursor + 1..s.cursor + 1];
    assert w.log[..s.cursor + 1] == w.log[..s.seen] + [u];
    FoldSnoc(w.initial, w.log[..s.seen], u);
  }

  lemma HandledCatchesUp(w: World, s: State, a: Action)
    requires Inv(w, s) && Enabled(w, s, a) && a.Handle? && CatchesUp(w, s, s.memory, s.cursor)
    ensures var t := Next(w, s, a); CatchesUp(w, t, t.memory, t.cursor)
  {
    if s.cursor < s.seen {
      HandledAgain(w, s, a);
    } else {
      HandledFirst(w, s, a);
    }
  }

  lemma UnwrittenCatchesUp(w: World, s: State, a: Action)
    requires Inv(w, s) && Enabled(w, s, a) && a.Handle? && CatchesUp(w, s, s.file, s.acked)
    ensures CatchesUp(w, Next(w, s, a), s.file, s.acked)
  {
    var t, u := Next(w, s, a), w.log[s.cursor];
    if s.cursor == s.seen {
      assert w.log[s.acked..t.seen] == w.log[s.acked..s.seen] + [u];
      assert w.log[..t.seen] == w.log[..s.seen] + [u];
      FoldSnoc(s.file, w.log[s.acked..s.seen], u);
      FoldSnoc(w.initial, w.log[..s.seen], u);
    }
  }

  /** What memory has already, it may be given again from the last confirmed update on. */
  lemma WrittenCatchesUp(w: World, t: State)
    requires Inv(w, t) && CatchesUp(w, t, t.memory, t.cursor)
    ensures CatchesUp(w, t, t.memory, t.acked)
  {
    var a, b, c := w.log[t.base..t.acked], w.log[t.acked..t.cursor], w.log[t.cursor..t.seen];
    assert t.applied == a + b;
    assert w.log[t.acked..t.seen] == b + c;
    ReplayIsHarmless(t.loaded, a, b, c);
    FoldCat(t.loaded, a + b, c);
  }

  lemma StepKeepsDurable(w: World, s: State, a: Action)
    requires Ascending(w.log) && Durable(w, s) && Enabled(w, s, a) && Careful(s, a)
    ensures Durable(w, Next(w, s, a))
  {
    StepKeepsInv(w, s, a);
    match a
    case Poll(_) => PollResumes(w, s);
    case PollLost => PollResumes(w, s);
    case PollUnsent =>
    case Handle(written) =>
      HandledCatchesUp(w, s, a);
      if Next(w, s, a).file == s.file {
        UnwrittenCatchesUp(w, s, a);
      } else {
        WrittenCatchesUp(w, Next(w, s, a));
      }
    case Crash =>
  }

  lemma {:induction false} RunKeepsDurable(w: World, s: State, actions: seq<Action>, t: State)
    requires Ascending(w.log) && Durable(w, s) && RunOf(w, s, actions, t) && CarefulRun(w, s, actions, t)
    ensures Durable(w, t)
    decreases |actions|
  {
    if actions != [] {
      StepKeepsDurable(w, s, actions[0]);
      RunKeepsDurable(w, Next(w, s, actions[0]), actions[1..], t);
    }
  }

  /**
   Restarting converges, wherever the crashes fall and however often: as long as no request
   confirms an update while the file lags behind memory, memory has the set every update gives
   when applied once, as soon as the poller is back where it ever was.
   */
  lemma RestartConverges(w: World, actions: seq<Action>, t: State)
    requires Ascending(w.log) && RunOf(w, Init(w), actions, t) && CarefulRun(w, Init(w), actions, t)
    ensures t.cursor <= t.seen <= |w.log|
    ensures t.cursor == t.seen ==> t.memory == Fold(w.initial, w.log[..t.cursor])
  {
    InitDurable(w);
    RunKeepsDurable(w, Init(w), actions, t);
    assert w.log[t.seen..t.seen] == [];
  }

  /** Writes that all succeed keep the file and memory equal, so every request is careful. */
  lemma WritingKeepsAgreement(w: World, s: State, a: Action)
    requires Enabled(w, s, a) && s.file == s.memory && (a.Handle? ==> a.written)
    ensures Next(w, s, a).file == Next(w, s, a).memory
  {
  }

  lemma {:induction false} WritingIsCareful(w: World, s: State, actions: seq<Action>, t: State)
    requires RunOf(w, s, actions, t) && s.file == s.memory && Handle(false) !in actions
    ensures CarefulRun(w, s, actions, t) && t.file == t.memory
    decreases |actions|
  {
    if actions != [] {
      assert actions[0] in actions;
      WritingKeepsAgreement(w, s, actions[0]);
      WritingIsCareful(w, Next(w, s, actions[0]), actions[1..], t);
    }
  }

  /** So a run whose writes all succeed converges, wherever it crashes. */
  lemma WritingConverges(w: World, actions: seq<Action>, t: State)
    requires Ascending(w.log) && RunOf(w, Init(w), actions, t) && Handle(false) !in actions
    ensures t.file == t.memory && t.cursor <= t.seen <= |w.log|
    ensures t.cursor == t.seen ==> t.memory == Fold(w.initial, w.log[..t.cursor])
  {
    WritingIsCareful(w, Init(w), actions, t);
    RestartConverges(w, actions, t);
  }

  lemma RestoredIff(w: World, file: set<int64>, acked: nat, end: nat)
    requires acked <= end <= |w.log|
    ensures Fold(file, w.log[acked..end]) == Fold(w.initial, w.log[..end])
       <==> forall chat | LastCommand(w.log[acked..end], chat).None? ::
              chat in file <==> chat in Fold(w.initial, w.log[..acked])
  {
    assert w.log[..end] == w.log[..acked] + w.log[acked..end];
    FoldCat(w.initial, w.log[..acked], w.log[acked..end]);
    FoldForgets(file, Fold(w.initial, w.log[..acked]), w.log[acked..end]);
  }

  /**
   Without that care it depends. In any run that crashes, memory has the set every update gives,
   once the poller has handled some updates again, exactly when the file was right about every chat
   that none of these updates commands.
   */
  lemma RestartConvergesIff(w: World, earlier: seq<Action>, s: State, actions: seq<Action>, t: State)
    requires Ascending(w.log) && RunOf(w, Init(w), earlier, s)
    requires RunOf(w, Next(w, s, Crash), actions, t) && Crash !in actions
    ensures s.acked <= t.cursor <= |w.log|
    ensures t.memory == Fold(w.initial, w.log[..t.cursor])
       <==> forall chat | LastCommand(w.log[s.acked..t.cursor], chat).None? ::
              chat in s.file <==> chat in Fold(w.initial, w.log[..s.acked])
  {
    Reachable(w, earlier, s);
    StepKeepsInv(w, s, Crash);
    StretchWithoutCrash(w, Next(w, s, Crash), actions, t);
    RestoredIff(w, s.file, s.acked, t.cursor);
  }

  // ---------- What a crash loses ----------

  /** A step that writes the file: a command whose write succeeds. */
  predicate Writes(w: World, s: State, a: Action) {
    a.Handle? && a.written && s.cursor < |w.log| && !CommandOf(w.log[s.cursor]).Ignored?
  }

  /** The position behind the last command of a run that was written, or `from` when none was. */
  function LastWritten(w: World, s: State, actions: seq<Action>, t: State, from: nat): nat
    requires RunOf(w, s, actions, t)
    decreases |actions|
  {
    if actions == [] then from
    else
      var last := if Writes(w, s, actions[0]) then s.cursor + 1 else from;
      LastWritten(w, Next(w, s, actions[0]), actions[1..], t, last)
  }

  /** Memory and file of a run without a crash: all that was handled, and all up to some position. */
  predicate Holds(w: World, s: State, written: nat) {
    && s.base == 0 && s.loaded == w.initial
    && written <= s.cursor <= |w.log|
    && s.file == Fold(w.initial, w.log[..written])
  }

  lemma StepHolds(w: World, s: State, a: Action, written: nat)
    requires Ascending(w.log) && Inv(w, s) && Holds(w, s, written) && Enabled(w, s, a) && !a.Crash?
    ensures Inv(w, Next(w, s, a))
    ensures Holds(w, Next(w, s, a), if Writes(w, s, a) then s.cursor + 1 else written)
  {
    StepKeepsInv(w, s, a);
    if a.Poll? {
      PollResumes(w, s);
    } else if a.Handle? {
      assert w.log[0..s.cursor + 1] == w.log[..s.cursor + 1];
    }
  }

  /** The file is memory as it was after the last command that was written. */
  lemma {:induction false} FileIsLastWrite(w: World, s: State, actions: seq<Action>, t: State, written: nat)
    requires Ascending(w.log) && Inv(w, s) && Holds(w, s, written)
    requires RunOf(w, s, actions, t) && Crash !in actions
    ensures Inv(w, t) && Holds(w, t, LastWritten(w, s, actions, t, written))
    decreases |actions|
  {
    if actions != [] {
      StepHolds(w, s, actions[0], written);
      var last := if Writes(w, s, actions[0]) then s.cursor + 1 else written;
      FileIsLastWrite(w, Next(w, s, actions[0]), actions[1..], t, last);
    }
  }

  lemma CommandsDecide(s: set<int64>, a: seq<Update>, b: seq<Update>, chat: int64)
    ensures LastCommand(b, chat).None? ==> (chat in Fold(s, a + b) <==> chat in Fold(s, a))
  {
    FoldCat(s, a, b);
    LastWriterWins(Fold(s, a), b, chat);
  }

  /** The updates between the last write and the last confirmation leave a chat as it was. */
  predicate Unchanged(w: World, written: nat, acked: nat, chat: int64)
    requires written <= |w.log| && acked <= |w.log|
  {
    chat in Fold(w.initial, w.log[..written]) <==> chat in Fold(w.initial, w.log[..acked])
  }

  /**
   What a crash loses, by the writes that failed before it. Once the poller has handled some updates
   again, memory is right if and only if the updates between the last write and the last confirmation
   change no chat but those that are commanded again. So nothing is lost if that write came later than
   that confirmation, as soon as the poller is back at it.
   */
  lemma CrashLosesIff(w: World, earlier: seq<Action>, s: State, actions: seq<Action>, t: State)
    requires Ascending(w.log) && RunOf(w, Init(w), earlier, s) && Crash !in earlier
    requires RunOf(w, Next(w, s, Crash), actions, t) && Crash !in actions
    ensures s.acked <= t.cursor <= |w.log| && LastWritten(w, Init(w), earlier, s, 0) <= |w.log|
    ensures var written := LastWritten(w, Init(w), earlier, s, 0);
            && (t.memory == Fold(w.initial, w.log[..t.cursor])
                <==> forall chat | LastCommand(w.log[s.acked..t.cursor], chat).None? ::
                       Unchanged(w, written, s.acked, chat))
            && (s.acked <= written <= t.cursor ==> t.memory == Fold(w.initial, w.log[..t.cursor]))
  {
    var written := LastWritten(w, Init(w), earlier, s, 0);
    FileIsLastWrite(w, Init(w), earlier, s, 0);
    RestartConvergesIff(w, earlier, s, actions, t);
    if s.acked <= written <= t.cursor {
      forall chat | LastCommand(w.log[s.acked..t.cursor], chat).None?
        ensures chat in s.file <==> chat in Fold(w.initial, w.log[..s.acked])
      {
        WrittenAhead(w, s.acked, written, t.cursor, chat);
      }
    }
  }

  lemma WrittenAhead(w: World, acked: nat, written: nat, end: nat, chat: int64)
    requires acked <= written <= end <= |w.log| && LastCommand(w.log[acked..end], chat).None?
    ensures chat in Fold(w.initial, w.log[..written]) <==> chat in Fold(w.initial, w.log[..acked])
  {
    assert w.log[acked..end] == w.log[acked..written] + w.log[written..end];
    LastCommandCat(w.log[acked..written], w.log[written..end], chat);
    assert w.log[..written] == w.log[..acked] + w.log[acked..written];
    CommandsDecide(w.initial, w.log[..acked], w.log[acked..written], chat);
  }

  // ---------- A command can be lost ----------

  function OneStart(): World {
    World([Update(1, Some(Message(7, COMMAND_START)))], {})
  }

  function Losing(): seq<Action> {
    [Poll(1), Handle(false), Poll(0), Crash]
  }

  function AfterLosing(): State {
    State(1, 0, 1, 1, {}, {}, 1, {}, [], 1)
  }

  lemma StartCommands()
    ensures CommandOf(OneStart().log[0]) == Start(7)
  {
    TrimIsTight(COMMAND_START);
  }

  lemma RunOf4(w: World, s0: State, a: seq<Action>, s1: State, s2: State, s3: State, s4: State)
    requires |a| == 4
    requires Enabled(w, s0, a[0]) && Next(w, s0, a[0]) == s1
    requires Enabled(w, s1, a[1]) && Next(w, s1, a[1]) == s2
    requires Enabled(w, s2, a[2]) && Next(w, s2, a[2]) == s3
    requires Enabled(w, s3, a[3]) && Next(w, s3, a[3]) == s4
    ensures RunOf(w, s0, a, s4)
  {
    assert RunOf(w, s3, a[3..], s4) by {
      assert a[3..][1..] == [];
    }
    assert RunOf(w, s2, a[2..], s4) by {
      assert a[2..][1..] == a[3..];
    }
    assert RunOf(w, s1, a[1..], s4) by {
      assert a[1..][1..] == a[2..];
    }
  }

  /**
   A command whose write fails is lost for good when the next request confirms it before a
   crash: the chat asked to subscribe, the server has forgotten that, and the set is empty.
   */
  lemma UnwrittenCommandIsLost()
    ensures Ascending(OneStart().log) && RunOf(OneStart(), Init(OneStart()), Losing(), AfterLosing())
    ensures AfterLosing().acked == |OneStart().log|
    ensures AfterLosing().memory != Fold(OneStart().initial, OneStart().log)
  {
    StartCommands();
    var w := OneStart();
    var s1 := Init(w).(batch := 1);
    var s2 := State(0, 2, 1, 1, {7}, {}, 0, {}, w.log, 1);
    var s3 := s2.(acked := 1);
    assert Next(w, s1, Handle(false)) == s2;
    RunOf4(w, Init(w), Losing(), s1, s2, s3, AfterLosing());
    FoldSnoc({}, [], w.log[0]);
    assert [] + [w.log[0]] == w.log;
  }
}
