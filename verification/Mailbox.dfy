/**
 A channel with one place, filled by draining it first: the latest value wins.

 The producer drains and sends in two steps, and the consumer may receive between them. One
 producer is enough to make the two steps safe, whatever the consumer does.
 */
module Mailbox {
  import opened Sequences
  import opened Wrappers

  datatype Producer<T> = Idle | Draining(value: T) | Sending(value: T)

  /** `recorded` is everything the producer was given, `replaced` what it drained again. */
  datatype State<T> = State(
    slot: Option<T>,
    producer: Producer<T>,
    recorded: seq<T>,
    delivered: seq<T>,
    replaced: nat,
    lost: nat)

  datatype Action<T> =
    | Record(value: T)
    | Drain
    | Send
    | Receive

  function Init<T>(): State<T> {
    State(None, Idle, [], [], 0, 0)
  }

  predicate Enabled<T>(s: State<T>, a: Action<T>) {
    match a
    case Record(_) => s.producer.Idle?
    case Drain => s.producer.Draining?
    case Send => s.producer.Sending?
    case Receive => s.slot.Some?
  }

  function Next<T>(s: State<T>, a: Action<T>): State<T>
    requires Enabled(s, a)
  {
    match a
    case Record(v) => s.(producer := Draining(v), recorded := s.recorded + [v])
    case Drain =>
      s.(producer := Sending(s.producer.value), slot := None,
         replaced := s.replaced + if s.slot.Some? then 1 else 0)
    case Send =>
      if s.slot.None? then s.(producer := Idle, slot := Some(s.producer.value))
      else s.(producer := Idle, lost := s.lost + 1)
    case Receive => s.(slot := None, delivered := s.delivered + [s.slot.value])
  }

  /** What a producer does with a value when nobody receives in between. */
  function Replace<T>(s: State<T>, value: T): (t: State<T>)
    requires s.producer.Idle?
    ensures t.producer.Idle? && t.slot == Some(value)
  {
    Next(Next(Next(s, Record(value)), Drain), Send)
  }

  /** The values the producer is given in a run. */
  function Given<T>(actions: seq<Action<T>>): seq<T> {
    if actions == [] then []
    else (if actions[0].Record? then [actions[0].value] else []) + Given(actions[1..])
  }

  predicate RunOf<T(==)>(s: State<T>, actions: seq<Action<T>>, t: State<T>)
    decreases |actions|
  {
    if actions == [] then s == t
    else Enabled(s, actions[0]) && RunOf(Next(s, actions[0]), actions[1..], t)
  }

  // ---------- Subsequences ----------

  /** `a` is `b` with some elements left out. */
  predicate Subsequence<T(==)>(a: seq<T>, b: seq<T>)
    decreases |b|
  {
    || a == []
    || (b != [] && ((a[|a| - 1] == b[|b| - 1] && Subsequence(a[..|a| - 1], b[..|b| - 1]))
                    || Subsequence(a, b[..|b| - 1])))
  }

  lemma Skip<T>(a: seq<T>, b: seq<T>, v: T)
    requires Subsequence(a, b)
    ensures Subsequence(a, b + [v])
  {
    assert (b + [v])[..|b|] == b;
  }

  lemma Keep<T>(a: seq<T>, b: seq<T>, v: T)
    requires Subsequence(a, b)
    ensures Subsequence(a + [v], b + [v])
  {
    assert (b + [v])[..|b|] == b && (a + [v])[..|a|] == a;
  }

  lemma {:induction false} LeaveOutLast<T>(a: seq<T>, b: seq<T>)
    requires a != [] && Subsequence(a, b)
    ensures Subsequence(a[..|a| - 1], b)
    decreases |b|
  {
    var c := b[..|b| - 1];
    assert b == c + [b[|b| - 1]];
    if !(a[|a| - 1] == b[|b| - 1] && Subsequence(a[..|a| - 1], c)) {
      LeaveOutLast(a, c);
    }
    Skip(a[..|a| - 1], c, b[|b| - 1]);
  }

  // ---------- The invariant ----------

  function Holding<T>(s: State<T>): seq<T> {
    if s.slot.Some? then [s.slot.value] else []
  }

  /** What has arrived or waits in the slot. */
  function Passed<T>(s: State<T>): seq<T> {
    s.delivered + Holding(s)
  }

  /** What the producer has sent or replaced: all but the value it has in hand. */
  function Settled<T>(s: State<T>): seq<T>
    requires s.producer.Idle? || s.recorded != []
  {
    if s.producer.Idle? then s.recorded else s.recorded[..|s.recorded| - 1]
  }

  predicate InHand<T(==)>(s: State<T>) {
    s.producer.Idle? || (s.recorded != [] && s.recorded[|s.recorded| - 1] == s.producer.value)
  }

  predicate Inv<T(==)>(s: State<T>) {
    && InHand(s)
    && (s.producer.Sending? ==> s.slot.None?)
    && s.lost == 0
    && |Settled(s)| == |Passed(s)| + s.replaced
    && Subsequence(Passed(s), Settled(s))
    && (s.producer.Idle? && s.recorded != [] ==>
          Passed(s) != [] && Passed(s)[|Passed(s)| - 1] == s.recorded[|s.recorded| - 1])
  }

  lemma DrainKeepsInv<T>(s: State<T>)
    requires Inv(s) && Enabled(s, Drain)
    ensures Inv(Next(s, Drain))
  {
    var t := Next(s, Drain);
    if s.slot.Some? {
      LeaveOutLast(Passed(s), Settled(s));
      assert Passed(t) == Passed(s)[..|Passed(s)| - 1];
    }
  }

  lemma SendKeepsInv<T>(s: State<T>)
    requires Inv(s) && Enabled(s, Send)
    ensures Inv(Next(s, Send))
  {
    var t, v := Next(s, Send), s.producer.value;
    Keep(Passed(s), Settled(s), v);
    assert Passed(t) == Passed(s) + [v];
    assert Settled(t) == Settled(s) + [v];
  }

  lemma ReceiveKeepsInv<T>(s: State<T>)
    requires Inv(s) && Enabled(s, Receive)
    ensures Inv(Next(s, Receive))
  {
    assert Passed(Next(s, Receive)) == Passed(s);
    assert Settled(Next(s, Receive)) == Settled(s);
  }

  lemma RecordKeepsInv<T>(s: State<T>, v: T)
    requires Inv(s) && Enabled(s, Record(v))
    ensures Inv(Next(s, Record(v)))
  {
    assert Passed(Next(s, Record(v))) == Passed(s);
    assert Settled(Next(s, Record(v))) == Settled(s);
  }

  lemma StepKeepsInv<T>(s: State<T>, a: Action<T>)
    requires Inv(s) && Enabled(s, a)
    ensures Inv(Next(s, a))
  {
    match a
    case Record(v) => RecordKeepsInv(s, v);
    case Drain => DrainKeepsInv(s);
    case Send => SendKeepsInv(s);
    case Receive => ReceiveKeepsInv(s);
  }

  lemma {:induction false} RunKeepsInv<T>(s: State<T>, actions: seq<Action<T>>, t: State<T>)
    requires Inv(s) && RunOf(s, actions, t)
    ensures Inv(t)
    decreases |actions|
  {
    if actions != [] {
      StepKeepsInv(s, actions[0]);
      RunKeepsInv(Next(s, actions[0]), actions[1..], t);
    }
  }

  lemma {:induction false} RecordedIsGiven<T>(s: State<T>, actions: seq<Action<T>>, t: State<T>)
    requires RunOf(s, actions, t)
    ensures t.recorded == s.recorded + Given(actions)
    decreases |actions|
  {
    if actions != [] {
      var u := Next(s, actions[0]);
      RecordedIsGiven(u, actions[1..], t);
      Regroup(s.recorded, if actions[0].Record? then [actions[0].value] else [], Given(actions[1..]));
    }
  }

  lemma InitInv<T>()
    ensures Inv(Init<T>())
  {
  }

  /** A value is the last of a sequence. */
  predicate LastIs<T(==)>(s: seq<T>, v: T) {
    s != [] && s[|s| - 1] == v
  }

  /**
   In every run no send finds the slot taken, so nothing is lost. While the producer rests, what has
   arrived or waits in the slot is what the producer was given with some values left out, in order,
   and ends with the last of them.
   */
  lemma LatestWins<T>(actions: seq<Action<T>>, t: State<T>)
    requires RunOf(Init(), actions, t)
    ensures t.lost == 0
    ensures t.producer.Idle? ==>
      && Subsequence(t.delivered + Holding(t), Given(actions))
      && |Given(actions)| == |t.delivered + Holding(t)| + t.replaced
      && (Given(actions) != [] ==> LastIs(t.delivered + Holding(t), Given(actions)[|Given(actions)| - 1]))
  {
    InitInv<T>();
    RunKeepsInv(Init(), actions, t);
    RecordedIsGiven(Init(), actions, t);
    assert t.recorded == Given(actions);
  }

  lemma RunCons<T>(s: State<T>, a: Action<T>, rest: seq<Action<T>>, t: State<T>)
    requires Enabled(s, a) && RunOf(Next(s, a), rest, t)
    ensures RunOf(s, [a] + rest, t)
  {
    assert ([a] + rest)[1..] == rest;
  }

  lemma SettledArrives<T>(s: State<T>) returns (actions: seq<Action<T>>, t: State<T>)
    requires Inv(s) && s.producer.Idle?
    ensures RunOf(s, actions, t) && t.recorded == s.recorded && t.producer.Idle? && t.slot.None?
    ensures s.recorded != [] ==> LastIs(t.delivered, s.recorded[|s.recorded| - 1])
  {
    if s.slot.None? {
      actions, t := [], s;
      assert Passed(s) == s.delivered;
    } else {
      t := Next(s, Receive);
      RunCons(s, Receive, [], t);
      actions := [Receive] + [];
    }
  }

  /**
   Whatever has happened, the producer can finish and the consumer receive, and then the last value
   the producer was given has arrived.
   */
  lemma LatestCanArrive<T>(earlier: seq<Action<T>>, s: State<T>) returns (actions: seq<Action<T>>, t: State<T>)
    requires RunOf(Init(), earlier, s)
    ensures RunOf(s, actions, t) && t.producer.Idle? && t.slot.None?
    ensures Given(earlier) != [] ==> LastIs(t.delivered, Given(earlier)[|Given(earlier)| - 1])
  {
    InitInv<T>();
    RunKeepsInv(Init(), earlier, s);
    RecordedIsGiven(Init(), earlier, s);
    assert s.recorded == Given(earlier);
    var u := if s.producer.Draining? then Next(s, Drain) else s;
    if s.producer.Draining? {
      StepKeepsInv(s, Drain);
    }
    var v := if u.producer.Sending? then Next(u, Send) else u;
    if u.producer.Sending? {
      StepKeepsInv(u, Send);
    }
    actions, t := SettledArrives(v);
    if u.producer.Sending? {
      RunCons(u, Send, actions, t);
      actions := [Send] + actions;
    }
    if s.producer.Draining? {
      RunCons(s, Drain, actions, t);
      actions := [Drain] + actions;
    }
  }
}
