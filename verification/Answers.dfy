/**
 What the server answered, and what was made of it: every wait is waited out unless it is
 interrupted, and a sending fails for a reason that the answers give.
 */
module Answers {
  import opened Wrappers
  import opened Decimal
  import opened Delivery

  /**
   The answer to each post, by how many were made before it; and whether the context ends in a wait,
   by how many were made by then.
   */
  datatype Script = Script(replies: nat -> Reply, interrupted: nat -> bool)

  predicate AnsweredAt(w: Script, start: nat, posts: seq<Post>, k: nat) {
    k < |posts| ==> posts[k].reply == w.replies(start + k)
  }

  /** Posts from the `start`th on got the answers of the script. */
  predicate Answered(w: Script, start: nat, posts: seq<Post>) {
    forall k: nat | k < |posts| :: AnsweredAt(w, start, posts, k)
  }

  predicate WaitedAt(w: Script, start: nat, posts: seq<Post>, k: nat) {
    k + 1 < |posts| && posts[k].reply.RateLimited? && posts[k].chat == posts[k + 1].chat ==>
      !w.interrupted(start + k + 1)
  }

  /** Between two posts to a chat no wait was interrupted. */
  predicate WaitedOut(w: Script, start: nat, posts: seq<Post>) {
    forall k: nat | k < |posts| :: WaitedAt(w, start, posts, k)
  }

  predicate SameAt(posts: seq<Post>, j: nat, k: nat) {
    j < |posts| && k < |posts| && posts[j] == posts[k]
  }

  /** The same post was turned down by the rate limit once more than there are retries. */
  predicate Exhausted(posts: seq<Post>, k: nat, maxRetries: int) {
    0 <= maxRetries <= k < |posts| && forall j: nat | k - maxRetries <= j <= k :: SameAt(posts, j, k)
  }

  /** A post was the end of a sending, and the error says why. */
  predicate Fails(w: Script, start: nat, posts: seq<Post>, k: nat, maxRetries: int, err: Error) {
    k < |posts| && match posts[k].reply
      case Accepted => false
      case Refused => err == RefusedError
      case RateLimited => || (err == RateLimitError && Exhausted(posts, k, maxRetries))
                          || (err == Cancelled && w.interrupted(start + k + 1))
  }

  /** How a sending to one chat ends: with an acceptance, or with a failure. */
  predicate EndsAs(w: Script, start: nat, posts: seq<Post>, maxRetries: int, err: Option<Error>) {
    match err
    case None => posts == [] || posts[|posts| - 1].reply.Accepted?
    case Some(e) => posts != [] && Fails(w, start, posts, |posts| - 1, maxRetries, e)
  }

  predicate HeardAt(w: Script, start: nat, posts: seq<Post>, maxRetries: int, err: Option<Error>, k: nat) {
    AnsweredAt(w, start, posts, k) && WaitedAt(w, start, posts, k) && EndsAs(w, start, posts, maxRetries, err)
  }

  /** A sending to one chat as its answers have it, post by post. */
  ghost predicate Heard(w: Script, start: nat, posts: seq<Post>, maxRetries: int, err: Option<Error>) {
    forall k: nat :: HeardAt(w, start, posts, maxRetries, err, k)
  }

  lemma HeardIs(w: Script, start: nat, posts: seq<Post>, maxRetries: int, err: Option<Error>)
    ensures Heard(w, start, posts, maxRetries, err)
       <==> Answered(w, start, posts) && WaitedOut(w, start, posts) && EndsAs(w, start, posts, maxRetries, err)
  {
    if Heard(w, start, posts, maxRetries, err) {
      assert HeardAt(w, start, posts, maxRetries, err, 0);
      forall k: nat | k < |posts|
        ensures AnsweredAt(w, start, posts, k) && WaitedAt(w, start, posts, k)
      {
        assert HeardAt(w, start, posts, maxRetries, err, k);
      }
    }
    if Answered(w, start, posts) && WaitedOut(w, start, posts) && EndsAs(w, start, posts, maxRetries, err) {
      forall k: nat
        ensures HeardAt(w, start, posts, maxRetries, err, k)
      {
        assert k < |posts| ==> AnsweredAt(w, start, posts, k) && WaitedAt(w, start, posts, k);
      }
    }
  }

  // ---------- One text ----------

  /** An attempt that only has to wait. */
  predicate Waits(w: Script, start: nat, j: nat) {
    w.replies(start + j).RateLimited? && !w.interrupted(start + j + 1)
  }

  /** The `k`th attempt is accepted, after attempts that only had to wait. */
  predicate AcceptedAt(w: Script, start: nat, k: nat) {
    w.replies(start + k).Accepted? && forall j: nat | j < k :: Waits(w, start, j)
  }

  lemma AttemptsWait(w: Script, start: nat, posts: seq<Post>, chat: int64, text: string, maxRetries: nat,
                     err: Option<Error>, j: nat)
    requires Exchange(posts, chat, text, maxRetries, err) && j < |posts| - 1
    requires Answered(w, start, posts) && WaitedOut(w, start, posts)
    ensures Waits(w, start, j)
  {
    assert AnsweredAt(w, start, posts, j) && WaitedAt(w, start, posts, j);
    assert posts[j] in posts && posts[j + 1] in posts;
  }

  /**
   One text is accepted exactly when, within the attempts, an acceptance comes before any refusal
   and before any interrupted wait.
   */
  lemma ExchangeSucceedsIff(w: Script, start: nat, posts: seq<Post>, chat: int64, text: string, maxRetries: nat,
                            err: Option<Error>)
    requires Exchange(posts, chat, text, maxRetries, err) && Heard(w, start, posts, maxRetries, err)
    ensures err.None? <==> exists k: nat :: k <= maxRetries && AcceptedAt(w, start, k)
    ensures forall k: nat | k <= maxRetries && AcceptedAt(w, start, k) :: |posts| == k + 1
  {
    HeardIs(w, start, posts, maxRetries, err);
    var n := |posts| - 1;
    forall j: nat | j < n
      ensures Waits(w, start, j)
    {
      AttemptsWait(w, start, posts, chat, text, maxRetries, err, j);
    }
    assert AnsweredAt(w, start, posts, n);
    forall k: nat | k <= maxRetries && AcceptedAt(w, start, k)
      ensures k == n
    {
      assert k < n ==> Waits(w, start, k);
      assert n < k ==> Waits(w, start, n);
    }
    if err.None? {
      assert AcceptedAt(w, start, n);
    }
  }

  lemma HeardMore(w: Script, start: nat, posts: seq<Post>, p: Post)
    requires Answered(w, start, posts) && WaitedOut(w, start, posts)
    requires p.reply == w.replies(start + |posts|)
    requires posts != [] ==> !w.interrupted(start + |posts|)
    ensures Answered(w, start, posts + [p]) && WaitedOut(w, start, posts + [p])
  {
    forall k: nat | k < |posts + [p]|
      ensures AnsweredAt(w, start, posts + [p], k) && WaitedAt(w, start, posts + [p], k)
    {
      assert k < |posts| ==> AnsweredAt(w, start, posts, k) && WaitedAt(w, start, posts, k);
    }
  }

  lemma ExchangeHeard(w: Script, start: nat, posts: seq<Post>, chat: int64, text: string, maxRetries: nat,
                      err: Option<Error>)
    requires Exchange(posts, chat, text, maxRetries, err)
    requires Answered(w, start, posts) && WaitedOut(w, start, posts)
    requires err == Some(Cancelled) ==> w.interrupted(start + |posts|)
    ensures Heard(w, start, posts, maxRetries, err)
  {
    HeardIs(w, start, posts, maxRetries, err);
    var n := |posts| - 1;
    if err == Some(RateLimitError) {
      forall j: nat | j <= n
        ensures SameAt(posts, j, n)
      {
        assert posts[j] in posts && posts[n] in posts;
      }
      assert Exhausted(posts, n, maxRetries);
    }
  }

  // ---------- One chat ----------

  /** One of two stretches of posts, seen from the start of the first. */
  lemma BothAt(w: Script, start: nat, a: seq<Post>, b: seq<Post>, k: nat)
    requires Answered(w, start, a) && WaitedOut(w, start, a)
    requires Answered(w, start + |a|, b) && WaitedOut(w, start + |a|, b)
    requires k < |a + b|
    requires a != [] && b != [] ==> a[|a| - 1].reply.Accepted? || a[|a| - 1].chat != b[0].chat
    ensures AnsweredAt(w, start, a + b, k) && WaitedAt(w, start, a + b, k)
  {
    if k < |a| {
      assert AnsweredAt(w, start, a, k) && WaitedAt(w, start, a, k);
      assert k == |a| - 1 && b != [] ==> (a + b)[k + 1] == b[0];
    } else {
      assert AnsweredAt(w, start + |a|, b, k - |a|) && WaitedAt(w, start + |a|, b, k - |a|);
    }
  }

  lemma HeardThen(w: Script, start: nat, a: seq<Post>, b: seq<Post>, maxRetries: int, err: Option<Error>)
    requires Heard(w, start, a, maxRetries, None) && Heard(w, start + |a|, b, maxRetries, err)
    ensures Heard(w, start, a + b, maxRetries, err)
  {
    HeardIs(w, start, a, maxRetries, None);
    HeardIs(w, start + |a|, b, maxRetries, err);
    HeardIs(w, start, a + b, maxRetries, err);
    var ab := a + b;
    forall k: nat | k < |ab|
      ensures AnsweredAt(w, start, ab, k) && WaitedAt(w, start, ab, k)
    {
      BothAt(w, start, a, b, k);
    }
    if err.Some? {
      FailsBehind(w, start, a, b, |b| - 1, maxRetries, err.value);
    }
  }

  lemma HeardNoMore(w: Script, start: nat, posts: seq<Post>, maxRetries: int)
    requires Heard(w, start, posts, maxRetries, None)
    ensures Heard(w, start, posts + [], maxRetries, None)
  {
    assert posts + [] == posts;
  }

  lemma FailsBehind(w: Script, start: nat, a: seq<Post>, b: seq<Post>, k: nat, maxRetries: int, err: Error)
    requires Fails(w, start + |a|, b, k, maxRetries, err)
    ensures Fails(w, start, a + b, |a| + k, maxRetries, err)
  {
    var ab := a + b;
    assert ab[|a| + k] == b[k];
    if b[k].reply.RateLimited? && Exhausted(b, k, maxRetries) {
      var last := |a| + k;
      forall j: nat | last - maxRetries <= j <= last
        ensures SameAt(ab, j, last)
      {
        assert SameAt(b, j - |a|, k);
      }
    }
  }

  lemma FailsBefore(w: Script, start: nat, a: seq<Post>, b: seq<Post>, k: nat, maxRetries: int, err: Error)
    requires Fails(w, start, a, k, maxRetries, err)
    ensures Fails(w, start, a + b, k, maxRetries, err)
  {
    if Exhausted(a, k, maxRetries) {
      forall j: nat | k - maxRetries <= j <= k
        ensures SameAt(a + b, j, k)
      {
        assert SameAt(a, j, k);
      }
    }
  }

  // ---------- Many chats ----------

  /** The last post to its chat. */
  predicate LastTo(posts: seq<Post>, k: nat) {
    k < |posts| && forall j | k < j < |posts| :: posts[j].chat != posts[k].chat
  }

  /** The last post to its chat, and not accepted. */
  predicate Stops(posts: seq<Post>, k: nat) {
    LastTo(posts, k) && !posts[k].reply.Accepted?
  }

  predicate NoStopBehind(posts: seq<Post>, k: int) {
    forall j: nat | k < j < |posts| :: !Stops(posts, j)
  }

  /** Every sending that stopped short failed, and the error is that of the last of them. */
  ghost predicate AllHeard(w: Script, start: nat, posts: seq<Post>, maxRetries: int, err: Option<Error>) {
    && Answered(w, start, posts) && WaitedOut(w, start, posts)
    && (forall k: nat | Stops(posts, k) :: exists e :: Fails(w, start, posts, k, maxRetries, e))
    && match err
       case None => NoStopBehind(posts, -1)
       case Some(e) =>
         exists k: nat :: Stops(posts, k) && Fails(w, start, posts, k, maxRetries, e) && NoStopBehind(posts, k)
  }

  lemma NothingHeard(w: Script, start: nat, maxRetries: int)
    ensures AllHeard(w, start, [], maxRetries, None)
  {
  }

  lemma StopsBefore(a: seq<Post>, b: seq<Post>, chat: int64, k: nat)
    requires k < |a| && AllTo(b, chat) && NoneTo(a, chat)
    ensures Stops(a + b, k) <==> Stops(a, k)
  {
    var ab := a + b;
    assert a[k] in a && ab[k] == a[k];
    forall j | k < j < |ab|
      ensures j < |a| ==> ab[j] == a[j]
      ensures j >= |a| ==> ab[j].chat != ab[k].chat
    {
      if j >= |a| {
        assert ab[j] == b[j - |a|] && b[j - |a|] in b;
      }
    }
  }

  lemma StopsBehind(a: seq<Post>, b: seq<Post>, chat: int64, k: nat)
    requires k < |b| && AllTo(b, chat)
    ensures Stops(a + b, |a| + k) <==> k == |b| - 1 && !b[k].reply.Accepted?
  {
    var ab := a + b;
    assert ab[|a| + k] == b[k] && b[k] in b;
    if k < |b| - 1 {
      assert ab[|a| + k + 1] == b[k + 1] && b[k + 1] in b;
    }
  }

  lemma SeamWaitedOut(w: Script, start: nat, a: seq<Post>, b: seq<Post>, chat: int64)
    requires Answered(w, start, a) && WaitedOut(w, start, a) && NoneTo(a, chat)
    requires Answered(w, start + |a|, b) && WaitedOut(w, start + |a|, b) && AllTo(b, chat)
    ensures Answered(w, start, a + b) && WaitedOut(w, start, a + b)
  {
    if a != [] && b != [] {
      assert a[|a| - 1] in a && b[0] in b;
    }
    forall k: nat | k < |a + b|
      ensures AnsweredAt(w, start, a + b, k) && WaitedAt(w, start, a + b, k)
    {
      BothAt(w, start, a, b, k);
    }
  }

  lemma StopsFail(w: Script, start: nat, a: seq<Post>, b: seq<Post>, chat: int64, maxRetries: int,
                  earlier: Option<Error>, err: Option<Error>, k: nat)
    requires AllHeard(w, start, a, maxRetries, earlier) && NoneTo(a, chat) && AllTo(b, chat)
    requires Heard(w, start + |a|, b, maxRetries, err) && Stops(a + b, k)
    ensures exists e :: Fails(w, start, a + b, k, maxRetries, e)
    ensures k >= |a| ==> err.Some? && k == |a| + |b| - 1 && Fails(w, start, a + b, k, maxRetries, err.value)
  {
    HeardIs(w, start + |a|, b, maxRetries, err);
    if k < |a| {
      StopsBefore(a, b, chat, k);
      var e :| Fails(w, start, a, k, maxRetries, e);
      FailsBefore(w, start, a, b, k, maxRetries, e);
    } else {
      StopsBehind(a, b, chat, k - |a|);
      if err.Some? {
        FailsBehind(w, start, a, b, k - |a|, maxRetries, err.value);
      }
    }
  }

  lemma LastStop(w: Script, start: nat, a: seq<Post>, b: seq<Post>, chat: int64, maxRetries: int,
                 earlier: Option<Error>, err: Option<Error>)
    requires AllHeard(w, start, a, maxRetries, earlier) && NoneTo(a, chat) && AllTo(b, chat)
    requires Heard(w, start + |a|, b, maxRetries, err)
    ensures match Last(earlier, err)
            case None => NoStopBehind(a + b, -1)
            case Some(e) => exists k: nat :: Stops(a + b, k) && Fails(w, start, a + b, k, maxRetries, e)
                                             && NoStopBehind(a + b, k)
  {
    HeardIs(w, start + |a|, b, maxRetries, err);
    if err.Some? {
      var k := |b| - 1;
      StopsBehind(a, b, chat, k);
      FailsBehind(w, start, a, b, k, maxRetries, err.value);
      assert NoStopBehind(a + b, |a| + k);
    } else {
      forall k: nat | |a| <= k < |a + b|
        ensures !Stops(a + b, k)
      {
        StopsBehind(a, b, chat, k - |a|);
      }
      forall k: nat | k < |a|
        ensures Stops(a + b, k) <==> Stops(a, k)
      {
        StopsBefore(a, b, chat, k);
      }
      if earlier.Some? {
        var k: nat :| Stops(a, k) && Fails(w, start, a, k, maxRetries, earlier.value) && NoStopBehind(a, k);
        FailsBefore(w, start, a, b, k, maxRetries, earlier.value);
        assert NoStopBehind(a + b, k);
      }
    }
  }

  /** One more chat is served. */
  lemma NextHeard(w: Script, start: nat, a: seq<Post>, b: seq<Post>, chat: int64, maxRetries: int,
                  earlier: Option<Error>, err: Option<Error>)
    requires AllHeard(w, start, a, maxRetries, earlier) && NoneTo(a, chat) && AllTo(b, chat)
    requires Heard(w, start + |a|, b, maxRetries, err)
    ensures AllHeard(w, start, a + b, maxRetries, Last(earlier, err))
  {
    HeardIs(w, start + |a|, b, maxRetries, err);
    SeamWaitedOut(w, start, a, b, chat);
    forall k: nat | Stops(a + b, k)
      ensures exists e :: Fails(w, start, a + b, k, maxRetries, e)
    {
      StopsFail(w, start, a, b, chat, maxRetries, earlier, err, k);
    }
    LastStop(w, start, a, b, chat, maxRetries, earlier, err);
  }

  /** One chat after the other, each as its answers have it. */
  ghost predicate HeardEach(w: Script, start: nat, t: Transcript, maxRetries: int) {
    match t
    case Begin => true
    case Then(before, posts, err) =>
      HeardEach(w, start, before, maxRetries) && Heard(w, start + |Posts(before)|, posts, maxRetries, err)
  }

  lemma HeardAfter(w: Script, start: nat, t: Transcript, posts: seq<Post>, err: Option<Error>, maxRetries: int)
    requires HeardEach(w, start, t, maxRetries) && Heard(w, start + |Posts(t)|, posts, maxRetries, err)
    ensures HeardEach(w, start, Then(t, posts, err), maxRetries)
  {
  }

  lemma {:induction false} EachWentWell(w: Script, start: nat, t: Transcript, chat: int64, texts: seq<string>,
                                        maxRetries: int)
    requires HeardEach(w, start, t, maxRetries) && Exchanges(t, chat, texts, maxRetries)
    ensures Heard(w, start, Posts(t), maxRetries, None)
  {
    HeardIs(w, start, [], maxRetries, None);
    if t.Then? {
      EachWentWell(w, start, t.before, chat, texts, maxRetries);
      HeardThen(w, start, Posts(t.before), t.posts, maxRetries, None);
    }
  }

  lemma EachEnds(w: Script, start: nat, t: Transcript, more: seq<Post>, chat: int64, texts: seq<string>,
                 maxRetries: int, err: Option<Error>)
    requires HeardEach(w, start, Then(t, more, err), maxRetries) && Exchanges(t, chat, texts, maxRetries)
    ensures Heard(w, start, Posts(t) + more, maxRetries, err)
  {
    EachWentWell(w, start, t, chat, texts, maxRetries);
    HeardThen(w, start, Posts(t), more, maxRetries, err);
  }

  lemma {:induction false} OutcomesOnlyTo(t: Transcript, chats: seq<int64>, texts: seq<string>, maxRetries: int)
    requires Outcomes(t, chats, texts, maxRetries) && Size(t) <= |chats|
    ensures OnlyTo(Posts(t), First(chats, Size(t)))
  {
    match t
    case Begin =>
    case Then(before, posts, err) =>
      OutcomesOnlyTo(before, chats, texts, maxRetries);
      OutcomeIsTo(posts, chats[Size(before)], texts, maxRetries, err);
      NextOnly(Posts(before), posts, First(chats, Size(before)), chats[Size(before)]);
  }

  lemma NextIsNew(before: Transcript, posts: seq<Post>, err: Option<Error>, chats: seq<int64>, texts: seq<string>,
                  maxRetries: int)
    requires Outcomes(Then(before, posts, err), chats, texts, maxRetries) && Distinct(chats)
    ensures Size(before) < |chats|
    ensures NoneTo(Posts(before), chats[Size(before)]) && AllTo(posts, chats[Size(before)])
  {
    OutcomesOnlyTo(before, chats, texts, maxRetries);
    NotYetSent(Posts(before), chats, Size(before));
    OutcomeIsTo(posts, chats[Size(before)], texts, maxRetries, err);
  }

  lemma {:induction false} EachIsHeard(w: Script, start: nat, t: Transcript, chats: seq<int64>, texts: seq<string>,
                                       maxRetries: int)
    requires HeardEach(w, start, t, maxRetries)
    requires Outcomes(t, chats, texts, maxRetries) && Distinct(chats) && Size(t) <= |chats|
    ensures AllHeard(w, start, Posts(t), maxRetries, LastError(t))
  {
    match t
    case Begin => NothingHeard(w, start, maxRetries);
    case Then(before, posts, err) =>
      var chat := chats[Size(before)];
      EachIsHeard(w, start, before, chats, texts, maxRetries);
      NextIsNew(before, posts, err, chats, texts, maxRetries);
      NextHeard(w, start, Posts(before), posts, chat, maxRetries, LastError(before), err);
  }

  // ---------- A server that lets everything through ----------

  predicate Limited(w: Script, n: nat) {
    w.replies(n).RateLimited?
  }

  /** A post is not refused, the wait before it is not interrupted, and the rate limit ends within the retries. */
  ghost predicate Lets(w: Script, n: nat, maxRetries: nat) {
    && !w.replies(n).Refused? && !w.interrupted(n)
    && exists m: nat :: n <= m <= n + maxRetries && !Limited(w, m)
  }

  /** So it is from some post on. */
  ghost predicate Lenient(w: Script, start: nat, maxRetries: nat) {
    forall n: nat | start <= n :: Lets(w, n, maxRetries)
  }

  lemma NoFailure(w: Script, start: nat, posts: seq<Post>, maxRetries: nat, k: nat, e: Error)
    requires Lenient(w, start, maxRetries) && Answered(w, start, posts) && k < |posts|
    ensures !Fails(w, start, posts, k, maxRetries, e)
  {
    assert Lets(w, start + k, maxRetries) && Lets(w, start + k + 1, maxRetries);
    assert AnsweredAt(w, start, posts, k);
    if maxRetries <= k {
      assert Lets(w, start + k - maxRetries, maxRetries);
      var m: nat :| start + k - maxRetries <= m <= start + k && !Limited(w, m);
      assert AnsweredAt(w, start, posts, m - start);
      assert Exhausted(posts, k, maxRetries) ==> SameAt(posts, m - start, k);
    }
  }

  /** Then nothing fails. */
  lemma LenientServesAll(w: Script, start: nat, posts: seq<Post>, maxRetries: nat, err: Option<Error>)
    requires Lenient(w, start, maxRetries)
    requires AllHeard(w, start, posts, maxRetries, err) || Heard(w, start, posts, maxRetries, err)
    ensures err == None
  {
    HeardIs(w, start, posts, maxRetries, err);
    forall k: nat, e | k < |posts|
      ensures !Fails(w, start, posts, k, maxRetries, e)
    {
      NoFailure(w, start, posts, maxRetries, k, e);
    }
  }
}
