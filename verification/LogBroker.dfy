/**
 The log broker: a circular replay buffer and a fan-out to subscribers.

 `Model()` is the broker's state in the terms of `LogProtocol`; every method is one or two of
 that module's steps.
 */
module LogBroker {
  import opened Wrappers
  import opened SlogLine
  import Space
  import L = LogLifetimes
  import P = LogProtocol

  // ---------- The ring ----------

  /** The slot of the i-th event from `head`. */
  function Slot(head: nat, i: nat): (slot: nat)
    ensures slot < P.RING_BUFFER
  {
    (head + i) % P.RING_BUFFER
  }

  lemma SlotsDiffer(head: nat, i: nat, j: nat)
    requires i < j < P.RING_BUFFER
    ensures Slot(head, i) != Slot(head, j)
  {
  }

  lemma SlotTurns(head: nat, i: nat)
    ensures Slot((head + 1) % P.RING_BUFFER, i) == Slot(head, i + 1)
    ensures head < P.RING_BUFFER ==> Slot(head, 0) == head == Slot(head, P.RING_BUFFER)
  {
  }

  /** The ring's slots hold the last events of the history, oldest first from `head`. */
  predicate RingHolds(ring: seq<LogEvent>, head: nat, length: nat, history: seq<LogEvent>) {
    && |ring| == P.RING_BUFFER && head < |ring|
    && length == |P.LastN(history, P.RING_BUFFER)|
    && forall i: nat | i < length :: ring[Slot(head, i)] == P.LastN(history, P.RING_BUFFER)[i]
  }

  lemma LastNGrows(history: seq<LogEvent>, e: LogEvent)
    requires |history| < P.RING_BUFFER
    ensures P.LastN(history + [e], P.RING_BUFFER) == P.LastN(history, P.RING_BUFFER) + [e]
  {
  }

  lemma LastNSlides(history: seq<LogEvent>, e: LogEvent)
    requires |history| >= P.RING_BUFFER
    ensures P.LastN(history + [e], P.RING_BUFFER) == P.LastN(history, P.RING_BUFFER)[1..] + [e]
  {
  }

  /** Storing an event in a ring with room. */
  lemma RingFills(ring: seq<LogEvent>, head: nat, length: nat, history: seq<LogEvent>, e: LogEvent)
    requires RingHolds(ring, head, length, history) && length < P.RING_BUFFER
    ensures RingHolds(ring[Slot(head, length) := e], head, length + 1, history + [e])
  {
    LastNGrows(history, e);
    var after := P.LastN(history + [e], P.RING_BUFFER);
    forall i: nat | i < length + 1 ensures ring[Slot(head, length) := e][Slot(head, i)] == after[i] {
      if i < length {
        SlotsDiffer(head, i, length);
      }
    }
  }

  /** Storing an event in a full ring overwrites the oldest. */
  lemma RingTurns(ring: seq<LogEvent>, head: nat, history: seq<LogEvent>, e: LogEvent)
    requires RingHolds(ring, head, P.RING_BUFFER, history)
    ensures RingHolds(ring[Slot(head, P.RING_BUFFER) := e], (head + 1) % P.RING_BUFFER, P.RING_BUFFER, history + [e])
  {
    var n, next := P.RING_BUFFER, (head + 1) % P.RING_BUFFER;
    var after := P.LastN(history + [e], n);
    LastNSlides(history, e);
    SlotTurns(head, n - 1);
    forall i: nat | i < n ensures ring[head := e][Slot(next, i)] == after[i] {
      SlotTurns(head, i);
      if i < n - 1 {
        SlotsDiffer(head, 0, i + 1);
      }
    }
  }

  // ---------- Channels ----------

  class Channel {
    const capacity: nat
    var buffer: seq<LogEvent>
    var closed: bool
    ghost var received: seq<LogEvent>

    constructor (capacity: nat)
      ensures this.capacity == capacity && buffer == [] && !closed && received == []
    {
      this.capacity := capacity;
      buffer, closed, received := [], false, [];
    }

    ghost function View(): P.Chan
      reads this
    {
      P.Chan(capacity, buffer, closed, received)
    }

    /** A blocking send, allowed only where it does not block. */
    method Send(e: LogEvent)
      requires !closed && |buffer| < capacity
      modifies this`buffer
      ensures buffer == old(buffer) + [e]
    {
      buffer := buffer + [e];
    }

    /** A send in a select with a default case. */
    method TrySend(e: LogEvent)
      requires !closed
      modifies this`buffer
      ensures View() == P.TrySend(old(View()), e)
    {
      if |buffer| < capacity {
        buffer := buffer + [e];
      }
    }

    method Close()
      requires !closed
      modifies this`closed
      ensures View() == old(View()).(closed := true)
    {
      closed := true;
    }

    method Receive() returns (e: LogEvent)
      requires buffer != []
      modifies this`buffer, this`received
      ensures e == old(buffer)[0]
      ensures View() == old(View()).(buffer := old(buffer)[1..], received := old(received) + [e])
    {
      e := buffer[0];
      buffer := buffer[1..];
      received := received + [e];
    }
  }

  // ---------- The broker ----------

  /** The subscribers are among the channels handed out, and no two of these are the same. */
  ghost predicate WiredTo(subscribers: map<nat, Channel>, channels: map<nat, Channel>) {
    && (forall id | id in subscribers :: id in channels && channels[id] == subscribers[id])
    && (forall i, j | i in channels && j in channels && i != j :: channels[i] != channels[j])
  }

  ghost function ViewsOf(channels: map<nat, Channel>): map<nat, P.Chan>
    reads channels.Values
  {
    map id | id in channels :: channels[id].View()
  }

  lemma WiredAdd(subscribers: map<nat, Channel>, channels: map<nat, Channel>, id: nat, ch: Channel)
    requires WiredTo(subscribers, channels) && id !in channels && ch !in channels.Values
    ensures WiredTo(subscribers[id := ch], channels[id := ch])
  {
  }

  lemma ViewsAdd(channels: map<nat, Channel>, id: nat, ch: Channel)
    ensures ViewsOf(channels[id := ch]) == ViewsOf(channels)[id := ch.View()]
  {
  }

  class LogBroker {
    var subscribers: map<nat, Channel>
    var nextID: nat
    const ring: array<LogEvent>
    var ringHead: nat
    var ringLength: nat
    ghost var history: seq<LogEvent>
    ghost var channels: map<nat, Channel>   // every channel ever handed out

    ghost predicate Valid()
      reads this, ring, channels.Values
    {
      RingHolds(ring[..], ringHead, ringLength, history) && Wired() && P.Inv(Model())
    }

    /** Every subscriber has its own channel. */
    ghost predicate Wired()
      reads this`subscribers, this`channels
    {
      WiredTo(subscribers, channels)
    }

    ghost function Views(): map<nat, P.Chan>
      reads this`channels, channels.Values
    {
      ViewsOf(channels)
    }

    ghost function Model(): P.State
      reads this, channels.Values
    {
      P.State(history, nextID, subscribers.Keys, {}, Views(), false)
    }

    constructor ()
      ensures Valid() && Model() == P.INIT
    {
      subscribers, nextID := map[], 0;
      ring := new LogEvent[P.RING_BUFFER](_ => Blank(0));
      ringHead, ringLength := 0, 0;
      history, channels := [], map[];
    }

    /** Replays the ring into a new channel; none of the sends can block. */
    method Replay(ch: Channel)
      requires Valid() && ch !in channels.Values && !ch.closed && ch.buffer == [] && ringLength <= ch.capacity
      modifies ch`buffer
      ensures ch.buffer == P.LastN(history, P.RING_BUFFER)
    {
      ghost var replay := P.LastN(history, P.RING_BUFFER);
      for i := 0 to ringLength
        invariant ch.buffer == replay[..i]
      {
        assert ring[Slot(ringHead, i)] == ring[..][Slot(ringHead, i)] == replay[i];
        ch.Send(ring[(ringHead + i) % ring.Length]);
      }
    }

    method NewChannel() returns (ch: Channel)
      requires Valid()
      ensures fresh(ch) && ch.View() == P.Joined(P.LastN(history, P.RING_BUFFER))
    {
      ch := new Channel(ringLength + P.SUBSCRIBER_BUFFER);
      Replay(ch);
    }

    /** Gives a channel the next number. */
    method Number(ch: Channel) returns (id: nat)
      requires Wired() && nextID !in channels && ch !in channels.Values
      modifies this`subscribers, this`nextID, this`channels
      ensures Wired() && id == old(nextID) && nextID == id + 1
      ensures subscribers == old(subscribers)[id := ch]
      ensures Views() == old(Views())[id := ch.View()]
    {
      id := nextID;
      WiredAdd(subscribers, channels, id, ch);
      ViewsAdd(channels, id, ch);
      nextID := nextID + 1;
      subscribers := subscribers[id := ch];
      channels := channels[id := ch];
    }

    /** Adds a channel that holds the replay to the map. */
    method Register(ch: Channel) returns (id: nat)
      requires Valid() && ch !in channels.Values && ch.View() == P.Joined(P.LastN(history, P.RING_BUFFER))
      modifies this`subscribers, this`nextID, this`channels
      ensures Valid() && id == old(nextID) && subscribers == old(subscribers)[id := ch]
      ensures Model() == P.Next(old(Model()), P.Subscribe)
    {
      assert nextID !in Views();
      P.StepKeepsInv(Model(), P.Subscribe);
      id := Number(ch);
      assert subscribers.Keys == old(subscribers).Keys + {id};
    }

    method Subscribe() returns (id: nat, ch: Channel)
      requires Valid()
      modifies this`subscribers, this`nextID, this`channels
      ensures Valid() && fresh(ch)
      ensures id == old(nextID) && subscribers == old(subscribers)[id := ch]
      ensures !ch.closed && ch.received == [] && ch.buffer == P.LastN(history, 100)
      ensures ch.capacity == |ch.buffer| + 64
      ensures Model() == P.Next(old(Model()), P.Subscribe)
    {
      ch := NewChannel();
      id := Register(ch);
    }

    /** Sends an event to every subscriber without blocking, in any order. */
    method FanOut(e: LogEvent)
      requires Wired() && (forall id | id in subscribers :: !subscribers[id].closed)
      modifies set id | id in subscribers :: subscribers[id]`buffer
      ensures Views().Keys == old(Views()).Keys
      ensures forall id | id in channels ::
                Views()[id] == if id in subscribers then P.TrySend(old(Views())[id], e) else old(Views())[id]
    {
      var left := subscribers.Keys;
      while left != {}
        invariant left <= subscribers.Keys
        invariant forall id | id in channels ::
                    channels[id].View() == if id in subscribers && id !in left
                                           then P.TrySend(old(channels[id].View()), e)
                                           else old(channels[id].View())
      {
        var id :| id in left;
        subscribers[id].TrySend(e);
        left := left - {id};
      }
    }

    /** Removes a subscriber, then closes its channel; an unknown number does nothing. */
    method Unsubscribe(id: nat)
      requires Valid()
      modifies this`subscribers, (if id in subscribers then {subscribers[id]} else {})`closed
      ensures Valid()
      ensures Model() == if id in old(subscribers) then P.Next(P.Next(old(Model()), P.Delete(id)), P.Close(id))
                         else old(Model())
      ensures subscribers == old(subscribers) - {id}
      ensures id in old(subscribers) ==> old(subscribers[id]).closed
    {
      if id in subscribers {
        var ch := subscribers[id];
        ghost var s := Model();
        subscribers := subscribers - {id};
        ch.Close();
        assert Model() == s.(active := s.active - {id}, chans := s.chans[id := s.chans[id].(closed := true)]) by {
          assert Views() == s.chans[id := ch.View()];
        }
        L.UnsubscribeCloses(s, id);
      }
    }

    /** Puts an event into the ring, over the oldest one when the ring is full. */
    method Store(event: LogEvent)
      requires RingHolds(ring[..], ringHead, ringLength, history)
      modifies this`ringHead, this`ringLength, this`history, ring
      ensures RingHolds(ring[..], ringHead, ringLength, history) && history == old(history) + [event]
    {
      ghost var before := ring[..];
      var index := (ringHead + ringLength) % ring.Length;
      ring[index] := event;
      assert ring[..] == before[Slot(ringHead, ringLength) := event];
      if ringLength < ring.Length {
        RingFills(before, ringHead, ringLength, history, event);
        ringLength := ringLength + 1;
      } else {
        RingTurns(before, ringHead, history, event);
        ringHead := (ringHead + 1) % ring.Length;
      }
      history := history + [event];
    }

    method Record(event: LogEvent)
      requires Valid()
      modifies this`ringHead, this`ringLength, this`history, ring
      ensures Valid() && Model() == old(Model()).(history := old(history) + [event])
    {
      Store(event);
    }

    method Send(event: LogEvent)
      requires Valid()
      modifies set id | id in subscribers :: subscribers[id]`buffer
      ensures Valid() && Model() == old(Model()).(chans := P.SentTo(old(Views()), subscribers.Keys, event))
    {
      ghost var s := Model();
      P.SendKeepsInv(s, event);
      assert forall id | id in subscribers :: !Views()[id].closed;
      FanOut(event);
      P.SentToIs(s.chans, s.active, event, Views());
    }

    /** Records an event and sends it on. */
    method Publish(event: LogEvent)
      requires Valid()
      modifies this`ringHead, this`ringLength, this`history, ring,
               set id | id in subscribers :: subscribers[id]`buffer
      ensures Valid()
      ensures Model() == P.Next(old(Model()), P.Write(event))
    {
      Record(event);
      Send(event);
    }

    /** An empty write does nothing; any other is parsed, recorded and sent on. */
    method Write(p: string, now: int, parseTime: string -> Option<int>) returns (n: nat)
      requires Valid()
      modifies this`ringHead, this`ringLength, this`history, ring,
               set id | id in subscribers :: subscribers[id]`buffer
      ensures Valid() && n == |p|
      ensures Model() == if p == "" then old(Model())
                         else P.Next(old(Model()), P.Write(EventOf(Space.TrimSpace(p), now, parseTime)))
    {
      if |p| == 0 {
        return 0;
      }
      var event := ParseSlogLine(p, now, parseTime);
      Publish(event);
      n := |p|;
    }

    /** A subscriber takes an event from its channel. */
    method Take(ghost id: nat, ch: Channel) returns (e: LogEvent)
      requires Valid() && id in channels && channels[id] == ch && ch.buffer != []
      modifies ch`buffer, ch`received
      ensures Valid() && e == old(ch.buffer)[0]
      ensures Model() == P.Next(old(Model()), P.Receive(id))
    {
      P.StepKeepsInv(Model(), P.Receive(id));
      e := ch.Receive();
      assert Views() == old(Views())[id := ch.View()];
    }

    method Count() returns (n: nat)
      requires Valid()
      ensures n == |Model().active|
    {
      n := |subscribers|;
    }
  }
}
