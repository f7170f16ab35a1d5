/**
 The log broker as a transition system: who holds which channel, and what was sent on it.

 Subscribing and writing are single steps, for both run under the broker's lock from start
 to end. Unsubscribing is two steps, because the channel is closed after the lock is released;
 reading from a channel needs no lock at all.
 */
module LogProtocol {
  import opened SlogLine
  import opened Sequences

  const RING_BUFFER := 100
  const SUBSCRIBER_BUFFER := 64

  /** A buffered channel, and what its reader has taken from it. */
  datatype Chan = Chan(capacity: nat, buffer: seq<LogEvent>, closed: bool, received: seq<LogEvent>)

  /**
   `history` is every event ever written. `active` are the subscribers in the broker's map,
   `closing` those removed from it by a call that has not closed their channel yet.
   */
  datatype State = State(
    history: seq<LogEvent>,
    nextID: nat,
    active: set<nat>,
    closing: set<nat>,
    chans: map<nat, Chan>,
    panicked: bool)

  const INIT := State([], 0, {}, {}, map[], false)

  datatype Action =
    | Subscribe
    | Write(event: LogEvent)
    | Delete(id: nat)     // Unsubscribe, under the lock
    | Close(id: nat)      // Unsubscribe, after the lock
    | Receive(id: nat)    // the subscriber takes an event

  /** The last `n` events, or all of them when there are fewer. */
  function LastN(events: seq<LogEvent>, n: nat): (r: seq<LogEvent>)
    ensures |r| == if |events| < n then |events| else n
  {
    if |events| < n then events else events[|events| - n..]
  }

  function Joined(replay: seq<LogEvent>): Chan {
    Chan(|replay| + SUBSCRIBER_BUFFER, replay, false, [])
  }

  /** A non-blocking send: a full buffer loses the event. */
  function TrySend(c: Chan, e: LogEvent): Chan {
    if |c.buffer| < c.capacity then c.(buffer := c.buffer + [e]) else c
  }

  function SentTo(chans: map<nat, Chan>, ids: set<nat>, e: LogEvent): map<nat, Chan> {
    map id | id in chans :: if id in ids then TrySend(chans[id], e) else chans[id]
  }

  lemma SentToIs(chans: map<nat, Chan>, ids: set<nat>, e: LogEvent, after: map<nat, Chan>)
    requires after.Keys == chans.Keys
    requires forall id | id in chans :: after[id] == if id in ids then TrySend(chans[id], e) else chans[id]
    ensures after == SentTo(chans, ids, e)
  {
  }

  predicate Enabled(s: State, a: Action) {
    !s.panicked && match a
      case Close(id) => id in s.closing && id in s.chans
      case Receive(id) => id in s.chans && s.chans[id].buffer != []
      case _ => true
  }

  function Next(s: State, a: Action): State
    requires Enabled(s, a)
  {
    match a
    case Subscribe =>
      s.(nextID := s.nextID + 1, active := s.active + {s.nextID},
         chans := s.chans[s.nextID := Joined(LastN(s.history, RING_BUFFER))])
    case Write(e) =>
      if exists id :: id in s.active && id in s.chans && s.chans[id].closed then s.(panicked := true)
      else s.(history := s.history + [e], chans := SentTo(s.chans, s.active, e))
    case Delete(id) =>
      if id in s.active then s.(active := s.active - {id}, closing := s.closing + {id}) else s
    case Close(id) =>
      if s.chans[id].closed then s.(panicked := true)
      else s.(closing := s.closing - {id}, chans := s.chans[id := s.chans[id].(closed := true)])
    case Receive(id) =>
      var c := s.chans[id];
      s.(chans := s.chans[id := c.(buffer := c.buffer[1..], received := c.received + [c.buffer[0]])])
  }

  // ---------- No interleaving panics ----------

  predicate Inv(s: State) {
    && !s.panicked
    && s.active <= s.chans.Keys && s.closing <= s.chans.Keys && s.active !! s.closing
    && (forall id | id in s.chans ::
          && id < s.nextID
          && |s.chans[id].buffer| <= s.chans[id].capacity
          && (id in s.active || id in s.closing ==> !s.chans[id].closed))
  }

  lemma StepKeepsInv(s: State, a: Action)
    requires Inv(s) && Enabled(s, a)
    ensures Inv(Next(s, a))
  {
  }

  lemma SendKeepsInv(s: State, e: LogEvent)
    requires Inv(s)
    ensures Inv(s.(chans := SentTo(s.chans, s.active, e)))
  {
  }

  predicate RunOf(s: State, actions: seq<Action>, t: State)
    decreases |actions|
  {
    if actions == [] then s == t
    else Enabled(s, actions[0]) && RunOf(Next(s, actions[0]), actions[1..], t)
  }

  lemma {:induction false} RunKeepsInv(s: State, actions: seq<Action>, t: State)
    requires Inv(s) && RunOf(s, actions, t)
    ensures Inv(t) && s.nextID <= t.nextID && s.chans.Keys <= t.chans.Keys
    decreases |actions|
  {
    if actions != [] {
      StepKeepsInv(s, actions[0]);
      RunKeepsInv(Next(s, actions[0]), actions[1..], t);
    }
  }

  /**
   In every run, no interleaving sends on a closed channel or closes one twice; buffers stay within
   their capacity; and no subscriber number is handed out twice, for the next one is above every
   number ever given.
   */
  lemma EveryRunIsSafe(actions: seq<Action>, t: State)
    requires RunOf(INIT, actions, t)
    ensures !t.panicked && t.nextID !in t.chans
    ensures forall id | id in t.chans :: id < t.nextID && |t.chans[id].buffer| <= t.chans[id].capacity
  {
    RunKeepsInv(INIT, actions, t);
  }

  // ---------- What a subscriber gets ----------

  /** Everything a subscriber has read or can still read. */
  function Delivered(c: Chan): seq<LogEvent> {
    c.received + c.buffer
  }

  function Event(a: Action): seq<LogEvent> {
    if a.Write? then [a.event] else []
  }

  function Written(actions: seq<Action>): seq<LogEvent> {
    if actions == [] then [] else Event(actions[0]) + Written(actions[1..])
  }

  /** A write reaches a subscriber that is active and has room. */
  predicate Reaches(s: State, a: Action, id: nat) {
    a.Write? && id in s.active && id in s.chans && |s.chans[id].buffer| < s.chans[id].capacity
  }

  /** The events of a run that were written while the subscriber was active and had room. */
  function Reached(s: State, actions: seq<Action>, t: State, id: nat): seq<LogEvent>
    requires RunOf(s, actions, t)
    decreases |actions|
  {
    if actions == [] then []
    else (if Reaches(s, actions[0], id) then Event(actions[0]) else [])
         + Reached(Next(s, actions[0]), actions[1..], t, id)
  }

  lemma StepDelivers(s: State, a: Action, id: nat)
    requires Inv(s) && Enabled(s, a) && id in s.chans
    ensures id in Next(s, a).chans && Next(s, a).chans[id].capacity == s.chans[id].capacity
    ensures Delivered(Next(s, a).chans[id])
         == Delivered(s.chans[id]) + if Reaches(s, a, id) then Event(a) else []
  {
    var c := s.chans[id];
    if a.Receive? && a.id == id {
      assert c.buffer == [c.buffer[0]] + c.buffer[1..];
    }
  }

  /**
   Over any run, what a subscriber has read or can read grows by exactly the events written
   while it was active and had room, in order.
   */
  lemma {:induction false} RunDelivers(s: State, actions: seq<Action>, t: State, id: nat)
    requires Inv(s) && RunOf(s, actions, t) && id in s.chans
    ensures id in t.chans && t.chans[id].capacity == s.chans[id].capacity
    ensures Delivered(t.chans[id]) == Delivered(s.chans[id]) + Reached(s, actions, t, id)
    decreases |actions|
  {
    if actions != [] {
      StepKeepsInv(s, actions[0]);
      var u := Next(s, actions[0]);
      StepDelivers(s, actions[0], id);
      RunDelivers(u, actions[1..], t, id);
      Regroup(Delivered(s.chans[id]), if Reaches(s, actions[0], id) then Event(actions[0]) else [],
              Reached(u, actions[1..], t, id));
    }
  }

  /** A write that misses an active subscriber finds its buffer exactly full. */
  lemma MissedOnlyWhenFull(s: State, a: Action, id: nat)
    requires Inv(s) && a.Write? && id in s.active && !Reaches(s, a, id)
    ensures |s.chans[id].buffer| == s.chans[id].capacity
  {
  }

  /**
   In every run, from the moment of subscribing, a subscriber is given the replay of the last events
   and then every later event, in order, except those written while its buffer held exactly as many
   unread events as the replay and the headroom together, or after it unsubscribed.
   */
  lemma SubscriberSeesReplayThenLive(earlier: seq<Action>, s: State, actions: seq<Action>, t: State)
    requires RunOf(INIT, earlier, s) && !s.panicked && RunOf(Next(s, Subscribe), actions, t)
    ensures var id := s.nextID;
            var replay := LastN(s.history, RING_BUFFER);
            && id !in s.chans && id in t.chans
            && replay == (if |s.history| <= 100 then s.history else s.history[|s.history| - 100..])
            && t.chans[id].capacity == |replay| + 64
            && Delivered(t.chans[id]) == replay + Reached(Next(s, Subscribe), actions, t, id)
  {
    RunKeepsInv(INIT, earlier, s);
    StepKeepsInv(s, Subscribe);
    RunDelivers(Next(s, Subscribe), actions, t, s.nextID);
  }

  /** Every write of the run reaches the subscriber. */
  predicate NeverMissed(s: State, actions: seq<Action>, t: State, id: nat)
    requires RunOf(s, actions, t)
    decreases |actions|
  {
    actions == [] || ((actions[0].Write? ==> Reaches(s, actions[0], id))
                      && NeverMissed(Next(s, actions[0]), actions[1..], t, id))
  }

  lemma StepRecords(s: State, a: Action)
    requires Inv(s) && Enabled(s, a)
    ensures Next(s, a).history == s.history + Event(a)
  {
  }

  lemma {:induction false} HistoryGrows(s: State, actions: seq<Action>, t: State)
    requires Inv(s) && RunOf(s, actions, t)
    ensures t.history == s.history + Written(actions)
    decreases |actions|
  {
    if actions != [] {
      StepKeepsInv(s, actions[0]);
      StepRecords(s, actions[0]);
      HistoryGrows(Next(s, actions[0]), actions[1..], t);
      Regroup(s.history, Event(actions[0]), Written(actions[1..]));
    }
  }

  lemma {:induction false} NeverMissedReachesAll(s: State, actions: seq<Action>, t: State, id: nat)
    requires RunOf(s, actions, t) && NeverMissed(s, actions, t, id)
    ensures Reached(s, actions, t, id) == Written(actions)
    decreases |actions|
  {
    if actions != [] {
      NeverMissedReachesAll(Next(s, actions[0]), actions[1..], t, id);
    }
  }

  /**
   A subscriber that keeps up sees one unbroken stretch of the history, from the first replayed
   event to the last one written: no gap and no duplicate where the replay joins the live events.
   */
  lemma KeepingUpSeesNoGap(earlier: seq<Action>, s: State, actions: seq<Action>, t: State)
    requires RunOf(INIT, earlier, s) && !s.panicked && RunOf(Next(s, Subscribe), actions, t)
    requires NeverMissed(Next(s, Subscribe), actions, t, s.nextID)
    ensures var first := |s.history| - |LastN(s.history, RING_BUFFER)|;
            && s.nextID in t.chans
            && first <= |t.history|
            && Delivered(t.chans[s.nextID]) == t.history[first..]
  {
    var u := Next(s, Subscribe);
    RunKeepsInv(INIT, earlier, s);
    StepKeepsInv(s, Subscribe);
    SubscriberSeesReplayThenLive(earlier, s, actions, t);
    HistoryGrows(u, actions, t);
    NeverMissedReachesAll(u, actions, t, s.nextID);
  }
}
