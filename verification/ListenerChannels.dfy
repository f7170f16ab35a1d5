/** What the listener's channels hold after the calls of a trace, as long as nobody receives. */
module ListenerChannels {
  import opened Sequences
  import opened Wrappers
  import opened Geometry
  import opened Hotkeys
  import M = Mailbox

  const TRIGGER_CHANNEL_BUFFER := 10

  /** What the channels hold: how many triggers and toggles, and at most one of everything else. */
  datatype Channels = Channels(
    triggers: nat,
    bounds: Option<Rectangle>,
    toggles: nat,
    gridPosition: Option<(int, int)>,
    opacity: Option<int>,
    fontSize: Option<int>)

  const EMPTY := Channels(0, None, 0, None, None, None)

  function BoxRectangle(b: Box): Rectangle {
    Rect(Trunc(b.minX), Trunc(b.minY), Trunc(b.maxX), Trunc(b.maxY))
  }

  /** A recorded box becomes the rectangle of its truncated corners, none of them swapped. */
  lemma BoxIsNotFlipped(b: Box)
    requires b.minX <= b.maxX && b.minY <= b.maxY
    ensures BoxRectangle(b) == Rectangle(Trunc(b.minX), Trunc(b.minY), Trunc(b.maxX), Trunc(b.maxY))
  {
    TruncKeepsOrder(b.minX, b.maxX);
    TruncKeepsOrder(b.minY, b.maxY);
  }

  /** A call leaves its mark on one channel. */
  function Deliver(c: Channels, call: Call): Channels {
    match call
    case Trigger => if c.triggers < TRIGGER_CHANNEL_BUFFER then c.(triggers := c.triggers + 1) else c
    case RecordBounds(box) => c.(bounds := Some(BoxRectangle(box)))
    case Toggle => if c.toggles < TRIGGER_CHANNEL_BUFFER then c.(toggles := c.toggles + 1) else c
    case ChangePosition(dx, dy) => c.(gridPosition := Some((dx, dy)))
    case ChangeOpacity(d) => if c.opacity.None? then c.(opacity := Some(d)) else c
    case ChangeFontSize(d) => if c.fontSize.None? then c.(fontSize := Some(d)) else c
  }

  /** The channels after a sequence of calls, the last one made last. */
  function DeliverAll(c: Channels, calls: seq<Call>): Channels {
    if calls == [] then c else Deliver(DeliverAll(c, calls[..|calls| - 1]), calls[|calls| - 1])
  }

  lemma {:induction false} DeliverCat(c: Channels, a: seq<Call>, b: seq<Call>)
    ensures DeliverAll(c, a + b) == DeliverAll(DeliverAll(c, a), b)
    decreases |b|
  {
    if b == [] {
      assert a + b == a;
    } else {
      assert (a + b)[..|a + b| - 1] == a + b[..|b| - 1];
      DeliverCat(c, a, b[..|b| - 1]);
    }
  }

  lemma DeliverOne(c: Channels, call: Call)
    ensures DeliverAll(c, [call]) == Deliver(c, call)
  {
    assert [call][..0] == [];
  }

  lemma DeliverThree(c: Channels, a: seq<Call>, b: seq<Call>, d: seq<Call>)
    ensures DeliverAll(c, a + b + d) == DeliverAll(DeliverAll(DeliverAll(c, a), b), d)
  {
    DeliverCat(c, a + b, d);
    DeliverCat(c, a, b);
  }

  // ---------- What the channels hold after any calls ----------

  function RectangleOf(call: Call): Option<Rectangle> {
    if call.RecordBounds? then Some(BoxRectangle(call.box)) else None
  }

  function PositionOf(call: Call): Option<(int, int)> {
    if call.ChangePosition? then Some((call.dx, call.dy)) else None
  }

  function OpacityOf(call: Call): Option<int> {
    if call.ChangeOpacity? then Some(call.direction) else None
  }

  function FontSizeOf(call: Call): Option<int> {
    if call.ChangeFontSize? then Some(call.direction) else None
  }

  /** The values of one kind among some calls, in order. */
  function Values<T>(calls: seq<Call>, of: Call -> Option<T>): seq<T> {
    if calls == [] then []
    else
      var v := of(calls[|calls| - 1]);
      Values(calls[..|calls| - 1], of) + if v.Some? then [v.value] else []
  }

  lemma {:induction false} ValuesCat<T>(a: seq<Call>, b: seq<Call>, of: Call -> Option<T>)
    ensures Values(a + b, of) == Values(a, of) + Values(b, of)
    decreases |b|
  {
    if b == [] {
      assert a + b == a;
    } else {
      var v := of(b[|b| - 1]);
      assert (a + b)[..|a + b| - 1] == a + b[..|b| - 1];
      ValuesCat(a, b[..|b| - 1], of);
      Regroup(Values(a, of), Values(b[..|b| - 1], of), if v.Some? then [v.value] else []);
    }
  }

  function First<T>(values: seq<T>): Option<T> {
    if values == [] then None else Some(values[0])
  }

  function Last<T>(values: seq<T>): Option<T> {
    if values == [] then None else Some(values[|values| - 1])
  }

  lemma CountSnoc(calls: seq<Call>, call: Call)
    requires calls != []
    ensures multiset(calls)[call]
         == multiset(calls[..|calls| - 1])[call] + if calls[|calls| - 1] == call then 1 else 0
  {
    assert calls == calls[..|calls| - 1] + [calls[|calls| - 1]];
  }

  /** Triggers and toggles are counted up to the capacity of their channels. */
  lemma {:induction false} PressesAreCounted(calls: seq<Call>)
    ensures DeliverAll(EMPTY, calls).triggers == Min(multiset(calls)[Trigger], TRIGGER_CHANNEL_BUFFER)
    ensures DeliverAll(EMPTY, calls).toggles == Min(multiset(calls)[Toggle], TRIGGER_CHANNEL_BUFFER)
    decreases |calls|
  {
    if calls != [] {
      PressesAreCounted(calls[..|calls| - 1]);
      CountSnoc(calls, Trigger);
      CountSnoc(calls, Toggle);
    }
  }

  lemma {:induction false} BoundsHeld(calls: seq<Call>)
    ensures DeliverAll(EMPTY, calls).bounds == Last(Values(calls, RectangleOf))
    decreases |calls|
  {
    if calls != [] {
      BoundsHeld(calls[..|calls| - 1]);
    }
  }

  lemma {:induction false} PositionHeld(calls: seq<Call>)
    ensures DeliverAll(EMPTY, calls).gridPosition == Last(Values(calls, PositionOf))
    decreases |calls|
  {
    if calls != [] {
      PositionHeld(calls[..|calls| - 1]);
    }
  }

  lemma {:induction false} OpacityHeld(calls: seq<Call>)
    ensures DeliverAll(EMPTY, calls).opacity == First(Values(calls, OpacityOf))
    decreases |calls|
  {
    if calls != [] {
      OpacityHeld(calls[..|calls| - 1]);
    }
  }

  lemma {:induction false} FontSizeHeld(calls: seq<Call>)
    ensures DeliverAll(EMPTY, calls).fontSize == First(Values(calls, FontSizeOf))
    decreases |calls|
  {
    if calls != [] {
      FontSizeHeld(calls[..|calls| - 1]);
    }
  }

  /**
   The channels of bounds and grid positions hold the last value they were given; those of
   opacities and font sizes hold the first.
   */
  lemma FirstOrLastIsHeld(calls: seq<Call>)
    ensures var c := DeliverAll(EMPTY, calls);
            && c.bounds == Last(Values(calls, RectangleOf)) && c.gridPosition == Last(Values(calls, PositionOf))
            && c.opacity == First(Values(calls, OpacityOf)) && c.fontSize == First(Values(calls, FontSizeOf))
  {
    BoundsHeld(calls);
    PositionHeld(calls);
    OpacityHeld(calls);
    FontSizeHeld(calls);
  }

  // ---------- Over a trace ----------

  /** The rectangles that a trace records. */
  function Rectangles(keys: Keys, es: seq<Event>): seq<Rectangle> {
    Values(CallsOf(keys, es), RectangleOf)
  }

  /** An event releases a hold during which the pointer moved and no key was typed. */
  ghost predicate Records(keys: Keys, es: seq<Event>, e: Event) {
    IsRelease(keys, e) && exists p :: Opens(keys, es, p) && MovedSince(es, p) && !TypedSince(es, p)
  }

  lemma CallsSnoc(keys: Keys, es: seq<Event>, e: Event)
    ensures CallsOf(keys, es + [e]) == CallsOf(keys, es) + Calls(keys, After(keys, es), e)
  {
    assert (es + [e])[..|es|] == es;
  }

  lemma OneRectangle(keys: Keys, s: State, e: Event)
    ensures Values(Calls(keys, s, e), RectangleOf)
         == if e.FlagsChanged? && BoundsCalls(keys, s, e) != [] then [BoxRectangle(s.box)] else []
  {
    match e
    case FlagsChanged(_, _, _, _, _) =>
      ValuesCat(BoundsCalls(keys, s, e) + TriggerCalls(keys, e), ToggleCalls(keys, s, e), RectangleOf);
      ValuesCat(BoundsCalls(keys, s, e), TriggerCalls(keys, e), RectangleOf);
    case _ =>
  }

  lemma RectanglesSnoc(keys: Keys, es: seq<Event>, e: Event)
    ensures var s := After(keys, es);
            Rectangles(keys, es + [e]) == Rectangles(keys, es)
            + if e.FlagsChanged? && BoundsCalls(keys, s, e) != [] then [BoxRectangle(s.box)] else []
  {
    CallsSnoc(keys, es, e);
    ValuesCat(CallsOf(keys, es), Calls(keys, After(keys, es), e), RectangleOf);
    OneRectangle(keys, After(keys, es), e);
  }

  lemma RecordsIff(keys: Keys, es: seq<Event>, e: Event)
    ensures Records(keys, es, e) <==> e.FlagsChanged? && BoundsCalls(keys, After(keys, es), e) != []
  {
    ReleaseRecordsBounds(keys, es, e);
    RecordsWhen(keys, After(keys, es), e);
    assert RecordBounds(After(keys, es).box) in Calls(keys, After(keys, es), e)
      <==> e.FlagsChanged? && BoundsCalls(keys, After(keys, es), e) != [];
  }

  lemma BoxOfHold(keys: Keys, es: seq<Event>, e: Event) returns (p: nat)
    requires Records(keys, es, e)
    ensures Opens(keys, es, p) && IsBoxOf(After(keys, es).box, Points(es, p))
  {
    p :| Opens(keys, es, p) && MovedSince(es, p) && !TypedSince(es, p);
    OpensIsHoldStart(keys, es, p);
    StateTracksHold(keys, es);
  }

  /**
   A trace records a rectangle with each event that releases such a hold, that of the exact
   bounding box of the press point and the moves; and none with any other event.
   */
  lemma RectanglesGrow(keys: Keys, es: seq<Event>, e: Event)
    ensures Records(keys, es, e) ==>
      exists p, b :: Opens(keys, es, p) && IsBoxOf(b, Points(es, p))
                     && Rectangles(keys, es + [e]) == Rectangles(keys, es) + [BoxRectangle(b)]
    ensures !Records(keys, es, e) ==> Rectangles(keys, es + [e]) == Rectangles(keys, es)
  {
    RectanglesSnoc(keys, es, e);
    RecordsIff(keys, es, e);
    if Records(keys, es, e) {
      var p := BoxOfHold(keys, es, e);
    }
  }

  /** The channel of bounds holds the rectangle of the last recording release, if there was one. */
  lemma LastReleaseIsHeld(keys: Keys, es: seq<Event>)
    ensures DeliverAll(EMPTY, CallsOf(keys, es)).bounds == Last(Rectangles(keys, es))
  {
    FirstOrLastIsHeld(CallsOf(keys, es));
  }

  /**
   And whoever receives, whenever: with the callback as the one producer, the tracker of bounds
   gets the rectangles of the trace with some left out, in order, and the last of them has arrived
   or waits whenever the callback has returned.
   */
  lemma TrackerGetsLatest(keys: Keys, es: seq<Event>, actions: seq<M.Action<Rectangle>>, t: M.State<Rectangle>)
    requires M.RunOf(M.Init(), actions, t) && M.Given(actions) == Rectangles(keys, es) && t.producer.Idle?
    ensures M.Subsequence(t.delivered + M.Holding(t), Rectangles(keys, es))
    ensures Last(t.delivered + M.Holding(t)) == Last(Rectangles(keys, es))
  {
    M.LatestWins(actions, t);
  }

  // ---------- Presses over a trace ----------

  predicate IsTrigger(keys: Keys, e: Event) {
    e.FlagsChanged? && e.key == keys.trigger && e.shift
  }

  function Triggers(keys: Keys, es: seq<Event>): nat {
    if es == [] then 0
    else Triggers(keys, es[..|es| - 1]) + if IsTrigger(keys, es[|es| - 1]) then 1 else 0
  }

  /** How often the toggle key was pressed while it was up. */
  function Toggles(keys: Keys, es: seq<Event>): nat {
    if es == [] then 0
    else
      var e := es[|es| - 1];
      var before := es[..|es| - 1];
      Toggles(keys, before) + if IsToggleKey(keys, e) && e.command && !ToggleDown(keys, before) then 1 else 0
  }

  lemma KeysPressNothing(key: int)
    ensures Trigger !in KeyCall(key) && Toggle !in KeyCall(key)
  {
  }

  lemma PressOfFlags(keys: Keys, s: State, e: Event)
    requires e.FlagsChanged?
    ensures multiset(Calls(keys, s, e))[Trigger] == |TriggerCalls(keys, e)|
    ensures multiset(Calls(keys, s, e))[Toggle] == |ToggleCalls(keys, s, e)|
  {
    var a, b, c := BoundsCalls(keys, s, e), TriggerCalls(keys, e), ToggleCalls(keys, s, e);
    assert multiset(a + b + c) == multiset(a) + multiset(b) + multiset(c);
  }

  lemma OnePress(keys: Keys, s: State, e: Event)
    ensures multiset(Calls(keys, s, e))[Trigger] == if IsTrigger(keys, e) then 1 else 0
    ensures multiset(Calls(keys, s, e))[Toggle] <= 1
  {
    match e
    case FlagsChanged(_, _, _, _, _) => PressOfFlags(keys, s, e);
    case KeyDown(key) => KeysPressNothing(key);
    case _ =>
  }

  lemma {:induction false} PressesOfTrace(keys: Keys, es: seq<Event>)
    ensures multiset(CallsOf(keys, es))[Trigger] == Triggers(keys, es)
    ensures multiset(CallsOf(keys, es))[Toggle] == Toggles(keys, es)
    decreases |es|
  {
    if es != [] {
      var e, before := es[|es| - 1], es[..|es| - 1];
      PressesOfTrace(keys, before);
      OnePress(keys, After(keys, before), e);
      TogglesOnPressEdge(keys, before, e);
    }
  }

  /** The channels of triggers and toggles hold one for each press, up to ten. */
  lemma PressesAreHeld(keys: Keys, es: seq<Event>)
    ensures var c := DeliverAll(EMPTY, CallsOf(keys, es));
            c.triggers == Min(Triggers(keys, es), 10) && c.toggles == Min(Toggles(keys, es), 10)
  {
    PressesAreCounted(CallsOf(keys, es));
    PressesOfTrace(keys, es);
  }
}
