/**
 The life of a subscriber, read off the actions of a run: when it is active, when its channel is
 closed, how much its reader has taken, and that closing and reading never get stuck.
 */
module LogLifetimes {
  import opened SlogLine
  import opened Sequences
  import opened LogProtocol

  /** What a run says about one subscriber. */
  predicate Lives(s: State, deleted: bool, closed: bool, id: nat) {
    && id in s.chans
    && (id in s.active <==> !deleted)
    && (id in s.closing <==> deleted && !closed)
    && (s.chans[id].closed <==> closed)
  }

  lemma StepLives(s: State, a: Action, id: nat, deleted: bool, closed: bool)
    requires Inv(s) && Enabled(s, a) && Lives(s, deleted, closed, id) && (closed ==> deleted)
    ensures Lives(Next(s, a), deleted || a == Delete(id), closed || a == Close(id), id)
    ensures a == Close(id) ==> deleted && !closed
  {
  }

  lemma {:induction false} RunLives(s: State, actions: seq<Action>, t: State, id: nat, deleted: bool, closed: bool)
    requires Inv(s) && RunOf(s, actions, t) && Lives(s, deleted, closed, id) && (closed ==> deleted)
    ensures Lives(t, deleted || Delete(id) in actions, closed || Close(id) in actions, id)
    decreases |actions|
  {
    if actions != [] {
      var a, rest := actions[0], actions[1..];
      InCons(a, rest, Delete(id));
      InCons(a, rest, Close(id));
      assert actions == [a] + rest;
      StepKeepsInv(s, a);
      StepLives(s, a, id, deleted, closed);
      RunLives(Next(s, a), rest, t, id, deleted || a == Delete(id), closed || a == Close(id));
    }
  }

  lemma InCons(a: Action, rest: seq<Action>, b: Action)
    ensures b in [a] + rest <==> a == b || b in rest
  {
  }

  /** In every run, there have been as many subscribers as subscriptions. */
  lemma {:induction false} NumbersCount(s: State, actions: seq<Action>, t: State)
    requires Inv(s) && RunOf(s, actions, t)
    ensures t.nextID == s.nextID + multiset(actions)[Subscribe]
    decreases |actions|
  {
    if actions != [] {
      StepKeepsInv(s, actions[0]);
      NumbersCount(Next(s, actions[0]), actions[1..], t);
      assert actions == [actions[0]] + actions[1..];
    }
  }

  /**
   In every run from the start, and from any moment of subscribing: the subscriber is active until
   it is deleted, its channel is closed if and only if a close of it has happened, and its reader
   has taken one event with each receive.
   */
  lemma ClosedIffClosed(earlier: seq<Action>, s: State, actions: seq<Action>, t: State)
    requires RunOf(INIT, earlier, s) && !s.panicked && RunOf(Next(s, Subscribe), actions, t)
    ensures s.nextID == multiset(earlier)[Subscribe]
    ensures var id := s.nextID;
            && id in t.chans
            && (id in t.active <==> Delete(id) !in actions)
            && (t.chans[id].closed <==> Close(id) in actions)
            && |t.chans[id].received| == multiset(actions)[Receive(id)]
  {
    RunKeepsInv(INIT, earlier, s);
    NumbersCount(INIT, earlier, s);
    StepKeepsInv(s, Subscribe);
    RunLives(Next(s, Subscribe), actions, t, s.nextID, false, false);
    ReceivesCount(Next(s, Subscribe), actions, t, s.nextID);
  }

  lemma {:induction false} ReceivesCount(s: State, actions: seq<Action>, t: State, id: nat)
    requires Inv(s) && RunOf(s, actions, t) && id in s.chans
    ensures id in t.chans && |t.chans[id].received| == |s.chans[id].received| + multiset(actions)[Receive(id)]
    decreases |actions|
  {
    if actions != [] {
      StepKeepsInv(s, actions[0]);
      StepReceives(s, actions[0], id);
      ReceivesCount(Next(s, actions[0]), actions[1..], t, id);
      assert actions == [actions[0]] + actions[1..];
    }
  }

  lemma StepReceives(s: State, a: Action, id: nat)
    requires Inv(s) && Enabled(s, a) && id in s.chans
    ensures id in Next(s, a).chans
    ensures |Next(s, a).chans[id].received| == |s.chans[id].received| + if a == Receive(id) then 1 else 0
  {
  }

  // ---------- Nothing gets stuck ----------

  function Receives(id: nat, n: nat): seq<Action> {
    if n == 0 then [] else [Receive(id)] + Receives(id, n - 1)
  }

  /**
   A reader can always take everything its buffer holds, whether its channel is closed or not, and
   has then read all that was ever delivered; nothing else changes.
   */
  lemma {:induction false} ReaderDrains(s: State, id: nat) returns (t: State)
    requires Inv(s) && id in s.chans
    ensures RunOf(s, Receives(id, |s.chans[id].buffer|), t)
    ensures var c := s.chans[id]; t == s.(chans := s.chans[id := c.(buffer := [], received := Delivered(c))])
    decreases |s.chans[id].buffer|
  {
    var c := s.chans[id];
    if c.buffer == [] {
      t := s;
      assert c.received + [] == c.received;
      assert s.chans[id := c] == s.chans;
    } else {
      var u := Next(s, Receive(id));
      StepKeepsInv(s, Receive(id));
      t := ReaderDrains(u, id);
      assert c.buffer == [c.buffer[0]] + c.buffer[1..];
      assert Delivered(u.chans[id]) == Delivered(c);
      ReceivesCons(s, id, |c.buffer|, t);
    }
  }

  lemma ReceivesCons(s: State, id: nat, n: nat, t: State)
    requires n > 0 && Enabled(s, Receive(id)) && RunOf(Next(s, Receive(id)), Receives(id, n - 1), t)
    ensures RunOf(s, Receives(id, n), t)
  {
    var actions := Receives(id, n);
    assert actions[0] == Receive(id) && actions[1..] == Receives(id, n - 1);
  }

  /** Unsubscribing can always be carried through: the channel is then closed, and keeps what it holds. */
  lemma UnsubscribeCloses(s: State, id: nat)
    requires Inv(s) && id in s.active
    ensures Enabled(s, Delete(id)) && Enabled(Next(s, Delete(id)), Close(id))
    ensures Inv(Next(Next(s, Delete(id)), Close(id)))
    ensures Next(Next(s, Delete(id)), Close(id))
         == s.(active := s.active - {id}, chans := s.chans[id := s.chans[id].(closed := true)])
  {
    StepKeepsInv(s, Delete(id));
    StepKeepsInv(Next(s, Delete(id)), Close(id));
    assert s.closing + {id} - {id} == s.closing;
  }
}
