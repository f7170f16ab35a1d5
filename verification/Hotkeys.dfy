/**
 What the event tap tracks: which keys are held, and the box the pointer drew during a hold.

 A hold of the bounds key runs from the press that opens it to the next release. The functions
 of this module say what one event does; the lemmas say what that means over a whole trace.
 */
module Hotkeys {
  import opened Wrappers

  datatype Point = Point(x: real, y: real)

  datatype Event =
    | FlagsChanged(key: int, alternate: bool, shift: bool, command: bool, at: Point)
    | Moved(at: Point)        // moved, or dragged with either button
    | KeyDown(key: int)
    | TapDisabled

  datatype Keys = Keys(trigger: int, bounds: int, toggle: int)

  datatype Box = Box(minX: real, minY: real, maxX: real, maxY: real)

  /** What the tap asks of the rest of the program. */
  datatype Call =
    | Trigger
    | RecordBounds(box: Box)
    | Toggle
    | ChangePosition(dx: int, dy: int)
    | ChangeOpacity(direction: int)
    | ChangeFontSize(direction: int)

  datatype State = State(optionHeld: bool, mouseMoved: bool, controlUsed: bool, box: Box, commandHeld: bool)

  const INIT := State(false, false, false, Box(0.0, 0.0, 0.0, 0.0), false)

  function Around(p: Point): Box {
    Box(p.x, p.y, p.x, p.y)
  }

  function Stretch(b: Box, p: Point): Box {
    Box(if p.x < b.minX then p.x else b.minX, if p.y < b.minY then p.y else b.minY,
        if p.x > b.maxX then p.x else b.maxX, if p.y > b.maxY then p.y else b.maxY)
  }

  /** The bounds key's press opens a hold, its release ends one. */
  function StepBounds(keys: Keys, s: State, e: Event): State
    requires e.FlagsChanged?
  {
    if e.key != keys.bounds then s
    else if e.alternate && !s.optionHeld then
      s.(optionHeld := true, mouseMoved := false, controlUsed := false, box := Around(e.at))
    else s.(optionHeld := e.alternate)
  }

  function StepToggle(keys: Keys, s: State, e: Event): State
    requires e.FlagsChanged?
  {
    if e.key == keys.toggle then s.(commandHeld := e.command) else s
  }

  function Step(keys: Keys, s: State, e: Event): State {
    match e
    case FlagsChanged(_, _, _, _, _) => StepToggle(keys, StepBounds(keys, s, e), e)
    case Moved(at) => if s.optionHeld then s.(mouseMoved := true, box := Stretch(s.box, at)) else s
    case KeyDown(_) => if s.optionHeld then s.(controlUsed := true) else s
    case TapDisabled => s
  }

  function KeyCall(key: int): seq<Call> {
    if key == 0x7B then [ChangePosition(-1, 0)]
    else if key == 0x7C then [ChangePosition(1, 0)]
    else if key == 0x7E then [ChangePosition(0, -1)]
    else if key == 0x7D then [ChangePosition(0, 1)]
    else if key == 0x1B then [ChangeOpacity(-1)]
    else if key == 0x18 then [ChangeOpacity(1)]
    else if key == 0x1D then [ChangeOpacity(0)]
    else if key == 0x2B then [ChangeFontSize(-1)]
    else if key == 0x2F then [ChangeFontSize(1)]
    else if key == 0x2C then [ChangeFontSize(0)]
    else []
  }

  function BoundsCalls(keys: Keys, s: State, e: Event): seq<Call>
    requires e.FlagsChanged?
  {
    if e.key == keys.bounds && !e.alternate && s.optionHeld && s.mouseMoved && !s.controlUsed
    then [RecordBounds(s.box)] else []
  }

  function TriggerCalls(keys: Keys, e: Event): seq<Call>
    requires e.FlagsChanged?
  {
    if e.key == keys.trigger && e.shift then [Trigger] else []
  }

  function ToggleCalls(keys: Keys, s: State, e: Event): seq<Call>
    requires e.FlagsChanged?
  {
    if e.key == keys.toggle && e.command && !s.commandHeld then [Toggle] else []
  }

  /** The calls an event causes, in order. */
  function Calls(keys: Keys, s: State, e: Event): seq<Call> {
    match e
    case FlagsChanged(_, _, _, _, _) => BoundsCalls(keys, s, e) + TriggerCalls(keys, e) + ToggleCalls(keys, s, e)
    case KeyDown(key) => if s.optionHeld then KeyCall(key) else []
    case _ => []
  }

  /** The state after a trace, the last event handled last. */
  function After(keys: Keys, es: seq<Event>): State {
    if es == [] then INIT else Step(keys, After(keys, es[..|es| - 1]), es[|es| - 1])
  }

  /** All the calls of a trace, in order. */
  function CallsOf(keys: Keys, es: seq<Event>): seq<Call> {
    if es == [] then []
    else CallsOf(keys, es[..|es| - 1]) + Calls(keys, After(keys, es[..|es| - 1]), es[|es| - 1])
  }

  // ---------- Holds, as one reads them off a trace ----------

  predicate IsPress(keys: Keys, e: Event) {
    e.FlagsChanged? && e.key == keys.bounds && e.alternate
  }

  predicate IsRelease(keys: Keys, e: Event) {
    e.FlagsChanged? && e.key == keys.bounds && !e.alternate
  }

  /** No release from one position up to another. */
  predicate Unreleased(keys: Keys, es: seq<Event>, from: nat, end: nat) {
    end <= |es| && forall k | from <= k < end :: !IsRelease(keys, es[k])
  }

  /** The press at `p` opens a hold that lasts to the end: no release since, no press it continues. */
  predicate Opens(keys: Keys, es: seq<Event>, p: nat) {
    && p < |es| && IsPress(keys, es[p]) && Unreleased(keys, es, p, |es|)
    && forall k | 0 <= k < p && IsPress(keys, es[k]) :: !Unreleased(keys, es, k, |es|)
  }

  function PointOf(e: Event): seq<Point> {
    if e.Moved? then [e.at] else []
  }

  /** The points seen since the press at `p`: its own, and that of every move since. */
  function Points(es: seq<Event>, p: nat): seq<Point>
    requires p < |es| && es[p].FlagsChanged?
  {
    if |es| == p + 1 then [es[p].at] else Points(es[..|es| - 1], p) + PointOf(es[|es| - 1])
  }

  predicate MovedSince(es: seq<Event>, p: nat) {
    exists k | p < k < |es| :: es[k].Moved?
  }

  predicate TypedSince(es: seq<Event>, p: nat) {
    exists k | p < k < |es| :: es[k].KeyDown?
  }

  /** A box contains all of some points, and each of its sides touches one of them. */
  predicate IsBoxOf(b: Box, points: seq<Point>) {
    && (forall p | p in points :: b.minX <= p.x <= b.maxX && b.minY <= p.y <= b.maxY)
    && (exists p | p in points :: p.x == b.minX)
    && (exists p | p in points :: p.x == b.maxX)
    && (exists p | p in points :: p.y == b.minY)
    && (exists p | p in points :: p.y == b.maxY)
  }

  lemma BoxOfOne(p: Point)
    ensures IsBoxOf(Around(p), [p])
  {
    assert p in [p];
  }

  lemma BoxGrows(b: Box, points: seq<Point>, p: Point)
    requires IsBoxOf(b, points)
    ensures IsBoxOf(Stretch(b, p), points + [p])
  {
    assert forall q | q in points :: q in points + [p];
    assert p in points + [p];
  }

  /** Where the hold in progress was opened. */
  function HoldStart(keys: Keys, es: seq<Event>): (p: Option<nat>)
    ensures p.Some? ==> p.value < |es| && es[p.value].FlagsChanged?
  {
    if es == [] then None
    else
      var e, before := es[|es| - 1], HoldStart(keys, es[..|es| - 1]);
      if IsRelease(keys, e) then None
      else if IsPress(keys, e) && before.None? then Some(|es| - 1)
      else before
  }

  lemma UnreleasedSnoc(keys: Keys, es: seq<Event>, from: nat)
    requires es != [] && from < |es|
    ensures Unreleased(keys, es, from, |es|)
       <==> Unreleased(keys, es[..|es| - 1], from, |es| - 1) && !IsRelease(keys, es[|es| - 1])
  {
    var n := |es| - 1;
    assert forall k | from <= k < n :: es[..n][k] == es[k];
  }

  predicate NoneUnreleased(keys: Keys, es: seq<Event>, end: nat) {
    end <= |es| && forall k | 0 <= k < end && IsPress(keys, es[k]) :: !Unreleased(keys, es, k, |es|)
  }

  lemma NoneUnreleasedSnoc(keys: Keys, es: seq<Event>, end: nat)
    requires es != [] && end < |es|
    requires NoneUnreleased(keys, es[..|es| - 1], end) || IsRelease(keys, es[|es| - 1])
    ensures NoneUnreleased(keys, es, end)
  {
    forall k | 0 <= k < end && IsPress(keys, es[k])
      ensures !Unreleased(keys, es, k, |es|)
    {
      UnreleasedSnoc(keys, es, k);
      assert es[..|es| - 1][k] == es[k];
    }
  }

  lemma {:induction false} HoldStartOpens(keys: Keys, es: seq<Event>)
    ensures match HoldStart(keys, es)
            case None => NoneUnreleased(keys, es, |es|)
            case Some(p) => Opens(keys, es, p)
    decreases |es|
  {
    if es != [] {
      var n := |es| - 1;
      var e, before := es[n], HoldStart(keys, es[..n]);
      HoldStartOpens(keys, es[..n]);
      UnreleasedSnoc(keys, es, n);
      if before.None? || IsRelease(keys, e) {
        NoneUnreleasedSnoc(keys, es, n);
      } else {
        UnreleasedSnoc(keys, es, before.value);
        NoneUnreleasedSnoc(keys, es, before.value);
      }
    }
  }

  /** A hold is opened by one press only, the one `HoldStart` finds. */
  lemma OpensIsHoldStart(keys: Keys, es: seq<Event>, p: nat)
    ensures Opens(keys, es, p) <==> HoldStart(keys, es) == Some(p)
  {
    HoldStartOpens(keys, es);
    if HoldStart(keys, es).Some? {
      var q := HoldStart(keys, es).value;
      assert IsPress(keys, es[q]) && Unreleased(keys, es, q, |es|);
    }
  }

  // ---------- The state tracks the hold ----------

  /** What the state knows about the hold that `p` opened. */
  predicate Tracks(s: State, es: seq<Event>, p: nat)
    requires p < |es| && es[p].FlagsChanged?
  {
    && (s.mouseMoved <==> MovedSince(es, p))
    && (s.controlUsed <==> TypedSince(es, p))
    && IsBoxOf(s.box, Points(es, p))
  }

  lemma SinceSnoc(es: seq<Event>, p: nat)
    requires p + 1 < |es|
    ensures MovedSince(es, p) <==> MovedSince(es[..|es| - 1], p) || es[|es| - 1].Moved?
    ensures TypedSince(es, p) <==> TypedSince(es[..|es| - 1], p) || es[|es| - 1].KeyDown?
  {
    var n := |es| - 1;
    assert forall k | p < k < n :: es[..n][k] == es[k];
  }

  lemma TracksOpened(keys: Keys, s: State, es: seq<Event>)
    requires es != [] && IsPress(keys, es[|es| - 1]) && !s.optionHeld
    ensures Tracks(Step(keys, s, es[|es| - 1]), es, |es| - 1)
  {
    BoxOfOne(es[|es| - 1].at);
  }

  lemma TracksOn(keys: Keys, s: State, es: seq<Event>, p: nat)
    requires p + 1 < |es| && es[p].FlagsChanged? && s.optionHeld && !IsRelease(keys, es[|es| - 1])
    requires Tracks(s, es[..|es| - 1], p)
    ensures Tracks(Step(keys, s, es[|es| - 1]), es, p)
  {
    SinceSnoc(es, p);
    var e, points := es[|es| - 1], Points(es[..|es| - 1], p);
    if e.Moved? {
      BoxGrows(s.box, points, e.at);
    } else {
      assert points + [] == points;
    }
  }

  lemma {:induction false} StateTracksHold(keys: Keys, es: seq<Event>)
    ensures After(keys, es).optionHeld <==> HoldStart(keys, es).Some?
    ensures HoldStart(keys, es).Some? ==> Tracks(After(keys, es), es, HoldStart(keys, es).value)
    decreases |es|
  {
    if es != [] {
      var n := |es| - 1;
      var e, before := es[n], HoldStart(keys, es[..n]);
      StateTracksHold(keys, es[..n]);
      if !IsRelease(keys, e) {
        if before.Some? {
          TracksOn(keys, After(keys, es[..n]), es, before.value);
        } else if IsPress(keys, e) {
          TracksOpened(keys, After(keys, es[..n]), es);
        }
      }
    }
  }

  /**
   After any trace, an event records bounds exactly when it releases a hold during which the
   pointer moved and no key was typed; and the box recorded is then the exact bounding box of
   the point of the press and of all the moves in that hold.
   */
  lemma ReleaseRecordsBounds(keys: Keys, es: seq<Event>, e: Event)
    ensures (exists b :: RecordBounds(b) in Calls(keys, After(keys, es), e))
       <==> IsRelease(keys, e) && exists p :: Opens(keys, es, p) && MovedSince(es, p) && !TypedSince(es, p)
    ensures forall b, p | RecordBounds(b) in Calls(keys, After(keys, es), e) && Opens(keys, es, p) ::
              IsBoxOf(b, Points(es, p))
  {
    var s := After(keys, es);
    StateTracksHold(keys, es);
    forall p: nat
      ensures Opens(keys, es, p) <==> HoldStart(keys, es) == Some(p)
    {
      OpensIsHoldStart(keys, es, p);
    }
    RecordsWhen(keys, s, e);
  }

  lemma RecordsWhen(keys: Keys, s: State, e: Event)
    ensures forall b :: RecordBounds(b) in Calls(keys, s, e)
                   <==> IsRelease(keys, e) && s.optionHeld && s.mouseMoved && !s.controlUsed && b == s.box
  {
    var calls := Calls(keys, s, e);
    if IsRelease(keys, e) && s.optionHeld && s.mouseMoved && !s.controlUsed {
      assert calls[0] == RecordBounds(s.box);
    }
  }

  // ---------- The keys of a hold ----------

  /** What each key asks for: a column and row to move by, or less, more or a reset of something. */
  const MOVES := {(0x7B, -1, 0), (0x7C, 1, 0), (0x7E, 0, -1), (0x7D, 0, 1)}
  const OPACITIES := {(0x1B, -1), (0x18, 1), (0x1D, 0)}
  const FONT_SIZES := {(0x2B, -1), (0x2F, 1), (0x2C, 0)}

  lemma KeyCallIs(key: int, call: Call)
    ensures call in KeyCall(key) <==> match call
              case ChangePosition(dx, dy) => (key, dx, dy) in MOVES
              case ChangeOpacity(d) => (key, d) in OPACITIES
              case ChangeFontSize(d) => (key, d) in FONT_SIZES
              case _ => false
    ensures |KeyCall(key)| <= 1
  {
  }

  lemma OnlyKeysCall(keys: Keys, s: State, e: Event, call: Call)
    requires call.ChangePosition? || call.ChangeOpacity? || call.ChangeFontSize?
    ensures call in Calls(keys, s, e) <==> e.KeyDown? && s.optionHeld && call in KeyCall(e.key)
  {
    if e.FlagsChanged? {
      assert forall c | c in Calls(keys, s, e) :: c.RecordBounds? || c.Trigger? || c.Toggle?;
    }
  }

  /**
   After any trace, an event moves the prompter, or changes its opacity or its font size, exactly
   when it is the press of a key for that while a hold is in progress.
   */
  lemma KeysActInHold(keys: Keys, es: seq<Event>, e: Event, call: Call)
    ensures var held := e.KeyDown? && exists p :: Opens(keys, es, p);
            match call
            case ChangePosition(dx, dy) => call in Calls(keys, After(keys, es), e) <==> held && (e.key, dx, dy) in MOVES
            case ChangeOpacity(d) => call in Calls(keys, After(keys, es), e) <==> held && (e.key, d) in OPACITIES
            case ChangeFontSize(d) => call in Calls(keys, After(keys, es), e) <==> held && (e.key, d) in FONT_SIZES
            case _ => true
  {
    StateTracksHold(keys, es);
    forall p: nat
      ensures Opens(keys, es, p) <==> HoldStart(keys, es) == Some(p)
    {
      OpensIsHoldStart(keys, es, p);
    }
    if call.ChangePosition? || call.ChangeOpacity? || call.ChangeFontSize? {
      OnlyKeysCall(keys, After(keys, es), e, call);
      if e.KeyDown? {
        KeyCallIs(e.key, call);
      }
    }
  }

  // ---------- The toggle key ----------

  predicate IsToggleKey(keys: Keys, e: Event) {
    e.FlagsChanged? && e.key == keys.toggle
  }

  /** The last event of the toggle key was a press. */
  predicate ToggleDown(keys: Keys, es: seq<Event>) {
    exists k | 0 <= k < |es| :: IsToggleKey(keys, es[k]) && es[k].command && NoToggleSince(keys, es, k)
  }

  predicate NoToggleSince(keys: Keys, es: seq<Event>, k: nat) {
    forall j | k < j < |es| :: !IsToggleKey(keys, es[j])
  }

  lemma ToggleDownSnoc(keys: Keys, es: seq<Event>)
    requires es != []
    ensures var e := es[|es| - 1];
            ToggleDown(keys, es) <==> if IsToggleKey(keys, e) then e.command else ToggleDown(keys, es[..|es| - 1])
  {
    var n := |es| - 1;
    assert NoToggleSince(keys, es, n);
    forall k: nat | k < n
      ensures es[..n][k] == es[k]
      ensures !IsToggleKey(keys, es[n]) ==> (NoToggleSince(keys, es, k) <==> NoToggleSince(keys, es[..n], k))
    {
      assert forall j | k < j < n :: es[..n][j] == es[j];
    }
    if !IsToggleKey(keys, es[n]) && ToggleDown(keys, es[..n]) {
      var k :| 0 <= k < n && IsToggleKey(keys, es[..n][k]) && es[..n][k].command && NoToggleSince(keys, es[..n], k);
      assert es[k] == es[..n][k];
    }
  }

  lemma {:induction false} CommandHeldIsToggleDown(keys: Keys, es: seq<Event>)
    ensures After(keys, es).commandHeld <==> ToggleDown(keys, es)
    decreases |es|
  {
    if es != [] {
      CommandHeldIsToggleDown(keys, es[..|es| - 1]);
      ToggleDownSnoc(keys, es);
    }
  }

  /** After any trace, an event toggles exactly when it presses the toggle key and the key is up. */
  lemma TogglesOnPressEdge(keys: Keys, es: seq<Event>, e: Event)
    ensures Toggle in Calls(keys, After(keys, es), e)
       <==> IsToggleKey(keys, e) && e.command && !ToggleDown(keys, es)
  {
    CommandHeldIsToggleDown(keys, es);
    var calls := Calls(keys, After(keys, es), e);
    if IsToggleKey(keys, e) && e.command && !ToggleDown(keys, es) {
      assert calls[|calls| - 1] == Toggle;
    }
  }
}
