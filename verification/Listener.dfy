/** The hotkey listener: the event tap's callback, and the channels it feeds. */
module Listener {
  import opened Wrappers
  import opened Geometry
  import opened Hotkeys
  import opened ListenerChannels
  import M = Mailbox

  class Listener {
    const keys: Keys

    var optionHeld: bool
    var mouseMoved: bool
    var controlUsed: bool
    var minX: real
    var minY: real
    var maxX: real
    var maxY: real
    var commandHeld: bool

    var triggerCh: nat
    var boundsCh: Option<Rectangle>
    var togglesCh: nat
    var gridPositionCh: Option<(int, int)>
    var opacityCh: Option<int>
    var fontSizeCh: Option<int>

    constructor (keys: Keys)
      ensures this.keys == keys && Tracking() == INIT && Sent() == EMPTY
    {
      this.keys := keys;
      optionHeld, mouseMoved, controlUsed, commandHeld := false, false, false, false;
      minX, minY, maxX, maxY := 0.0, 0.0, 0.0, 0.0;
      triggerCh, boundsCh, togglesCh := 0, None, 0;
      gridPositionCh, opacityCh, fontSizeCh := None, None, None;
    }

    ghost function Tracking(): State
      reads this
    {
      State(optionHeld, mouseMoved, controlUsed, Box(minX, minY, maxX, maxY), commandHeld)
    }

    ghost function Sent(): Channels
      reads this
    {
      Channels(triggerCh, boundsCh, togglesCh, gridPositionCh, opacityCh, fontSizeCh)
    }

    method HotkeyCallback()
      modifies this`triggerCh
      ensures Sent() == Deliver(old(Sent()), Trigger)
    {
      if triggerCh < TRIGGER_CHANNEL_BUFFER {
        triggerCh := triggerCh + 1;
      }
    }

    method GoRecordBounds(x0: real, y0: real, x1: real, y1: real)
      modifies this`boundsCh
      ensures Sent() == Deliver(old(Sent()), RecordBounds(Box(x0, y0, x1, y1)))
      ensures forall s: M.State<Rectangle> | s.producer.Idle? && s.slot == old(boundsCh) ::
                M.Replace(s, BoxRectangle(Box(x0, y0, x1, y1))).slot == boundsCh
    {
      if boundsCh.Some? {
        boundsCh := None;
      }
      var rect := Rect(Trunc(x0), Trunc(y0), Trunc(x1), Trunc(y1));
      if boundsCh.None? {
        boundsCh := Some(rect);
      }
    }

    method TeleprompterToggle()
      modifies this`togglesCh
      ensures Sent() == Deliver(old(Sent()), Toggle)
    {
      if togglesCh < TRIGGER_CHANNEL_BUFFER {
        togglesCh := togglesCh + 1;
      }
    }

    method PositionChangeXY(dx: int, dy: int)
      modifies this`gridPositionCh
      ensures Sent() == Deliver(old(Sent()), ChangePosition(dx, dy))
    {
      if gridPositionCh.Some? {
        gridPositionCh := None;
      }
      if gridPositionCh.None? {
        gridPositionCh := Some((dx, dy));
      }
    }

    method OpacityChange(direction: int)
      modifies this`opacityCh
      ensures Sent() == Deliver(old(Sent()), ChangeOpacity(direction))
    {
      if opacityCh.None? {
        opacityCh := Some(direction);
      }
    }

    method FontSizeChange(direction: int)
      modifies this`fontSizeCh
      ensures Sent() == Deliver(old(Sent()), ChangeFontSize(direction))
    {
      if fontSizeCh.None? {
        fontSizeCh := Some(direction);
      }
    }

    /** The callback: the state takes one step, and the channels get the calls of the event. */
    method EventCallback(e: Event)
      modifies this
      ensures Tracking() == Step(keys, old(Tracking()), e)
      ensures Sent() == DeliverAll(old(Sent()), Calls(keys, old(Tracking()), e))
    {
      match e
      case TapDisabled =>
      case FlagsChanged(_, _, _, _, _) => FlagsChange(e);
      case Moved(at) =>
        if optionHeld {
          mouseMoved := true;
          if at.x < minX { minX := at.x; }
          if at.y < minY { minY := at.y; }
          if at.x > maxX { maxX := at.x; }
          if at.y > maxY { maxY := at.y; }
        }
      case KeyDown(key) =>
        if optionHeld {
          controlUsed := true;
          KeyCommand(key);
        }
    }

    method BoundsKeyChange(e: Event)
      requires e.FlagsChanged?
      modifies this
      ensures Tracking() == StepBounds(keys, old(Tracking()), e)
      ensures Sent() == DeliverAll(old(Sent()), BoundsCalls(keys, old(Tracking()), e))
    {
      DeliverOne(Sent(), RecordBounds(Tracking().box));
      if e.key == keys.bounds {
        var optionNowHeld := e.alternate;
        if optionNowHeld && !optionHeld {
          optionHeld, mouseMoved, controlUsed := true, false, false;
          minX, maxX := e.at.x, e.at.x;
          minY, maxY := e.at.y, e.at.y;
        } else if !optionNowHeld && optionHeld {
          optionHeld := false;
          if mouseMoved && !controlUsed {
            GoRecordBounds(minX, minY, maxX, maxY);
          }
        }
      }
    }

    method TriggerKeyChange(e: Event)
      requires e.FlagsChanged?
      modifies this`triggerCh
      ensures Sent() == DeliverAll(old(Sent()), TriggerCalls(keys, e))
    {
      DeliverOne(Sent(), Trigger);
      if e.key == keys.trigger && e.shift {
        HotkeyCallback();
      }
    }

    method ToggleKeyChange(e: Event)
      requires e.FlagsChanged?
      modifies this`commandHeld, this`togglesCh
      ensures Tracking() == StepToggle(keys, old(Tracking()), e)
      ensures Sent() == DeliverAll(old(Sent()), ToggleCalls(keys, old(Tracking()), e))
    {
      DeliverOne(Sent(), Toggle);
      if e.key == keys.toggle {
        var commandNowHeld := e.command;
        if commandNowHeld && !commandHeld {
          commandHeld := true;
          TeleprompterToggle();
        } else if !commandNowHeld && commandHeld {
          commandHeld := false;
        }
      }
    }

    method FlagsChange(e: Event)
      requires e.FlagsChanged?
      modifies this
      ensures Tracking() == Step(keys, old(Tracking()), e)
      ensures Sent() == DeliverAll(old(Sent()), Calls(keys, old(Tracking()), e))
    {
      ghost var s, c := Tracking(), Sent();
      BoundsKeyChange(e);
      TriggerKeyChange(e);
      ToggleKeyChange(e);
      assert ToggleCalls(keys, StepBounds(keys, s, e), e) == ToggleCalls(keys, s, e);
      DeliverThree(c, BoundsCalls(keys, s, e), TriggerCalls(keys, e), ToggleCalls(keys, s, e));
    }

    method KeyCommand(key: int)
      modifies this`gridPositionCh, this`opacityCh, this`fontSizeCh
      ensures Sent() == DeliverAll(old(Sent()), KeyCall(key))
    {
      if KeyCall(key) != [] {
        DeliverOne(Sent(), KeyCall(key)[0]);
      }
      if key == 0x7B { PositionChangeXY(-1, 0); }
      else if key == 0x7C { PositionChangeXY(1, 0); }
      else if key == 0x7E { PositionChangeXY(0, -1); }
      else if key == 0x7D { PositionChangeXY(0, 1); }
      else if key == 0x1B { OpacityChange(-1); }
      else if key == 0x18 { OpacityChange(1); }
      else if key == 0x1D { OpacityChange(0); }
      else if key == 0x2B { FontSizeChange(-1); }
      else if key == 0x2F { FontSizeChange(1); }
      else if key == 0x2C { FontSizeChange(0); }
    }

    /** A whole trace, event by event, with nobody receiving. */
    method HandleAll(es: seq<Event>)
      requires Tracking() == INIT
      modifies this
      ensures Tracking() == After(keys, es)
      ensures Sent() == DeliverAll(old(Sent()), CallsOf(keys, es))
    {
      for i := 0 to |es|
        invariant Tracking() == After(keys, es[..i])
        invariant Sent() == DeliverAll(old(Sent()), CallsOf(keys, es[..i]))
      {
        assert es[..i + 1][..i] == es[..i];
        DeliverCat(old(Sent()), CallsOf(keys, es[..i]), Calls(keys, Tracking(), es[i]));
        EventCallback(es[i]);
      }
      assert es[..|es|] == es;
    }
  }
}
