/** What a sequence of posts delivered, chat by chat. */
module Delivery {
  import opened Wrappers
  import opened Decimal
  import opened Sequences
  import opened MarkdownConverter

  /** How the server answers a post; `Refused` is every failure other than the rate limit. */
  datatype Reply = Accepted | RateLimited | Refused

  datatype Error = RateLimitError | RefusedError | Cancelled

  datatype Post = Post(chat: int64, text: string, reply: Reply)

  /** The posts to one chat. */
  function PostsTo(posts: seq<Post>, chat: int64): seq<Post> {
    if posts == [] then []
    else (if posts[0].chat == chat then [posts[0]] else []) + PostsTo(posts[1..], chat)
  }

  /** The texts that were accepted, in order. */
  function Taken(posts: seq<Post>): seq<string> {
    if posts == [] then []
    else (if posts[0].reply.Accepted? then [posts[0].text] else []) + Taken(posts[1..])
  }

  predicate AllTo(posts: seq<Post>, chat: int64) {
    forall p | p in posts :: p.chat == chat
  }

  predicate NoneTo(posts: seq<Post>, chat: int64) {
    forall p | p in posts :: p.chat != chat
  }

  /** The pieces of a text as they are posted. */
  function Rendered(pieces: seq<string>): (texts: seq<string>)
    ensures |texts| == |pieces|
  {
    if pieces == [] then [] else [Converted(pieces[0])] + Rendered(pieces[1..])
  }

  lemma {:induction false} RenderedAt(pieces: seq<string>, k: nat)
    requires k < |pieces|
    ensures Rendered(pieces)[k] == Converted(pieces[k])
    decreases k
  {
    if k > 0 {
      RenderedAt(pieces[1..], k - 1);
    }
  }

  lemma {:induction false} PostsToCat(a: seq<Post>, b: seq<Post>, chat: int64)
    ensures PostsTo(a + b, chat) == PostsTo(a, chat) + PostsTo(b, chat)
    decreases |a|
  {
    if a == [] {
      assert a + b == b;
    } else {
      PostsToCat(a[1..], b, chat);
      assert (a + b)[0] == a[0] && (a + b)[1..] == a[1..] + b;
      Regroup(if a[0].chat == chat then [a[0]] else [], PostsTo(a[1..], chat), PostsTo(b, chat));
    }
  }

  lemma {:induction false} TakenCat(a: seq<Post>, b: seq<Post>)
    ensures Taken(a + b) == Taken(a) + Taken(b)
    decreases |a|
  {
    if a == [] {
      assert a + b == b;
    } else {
      assert (a + b)[1..] == a[1..] + b;
      TakenCat(a[1..], b);
    }
  }

  lemma {:induction false} PostsToAll(posts: seq<Post>, chat: int64)
    requires AllTo(posts, chat)
    ensures PostsTo(posts, chat) == posts
    decreases |posts|
  {
    if posts != [] {
      assert posts[0] in posts && posts == [posts[0]] + posts[1..];
      PostsToAll(posts[1..], chat);
    }
  }

  lemma {:induction false} PostsToNone(posts: seq<Post>, chat: int64)
    requires NoneTo(posts, chat)
    ensures PostsTo(posts, chat) == []
    decreases |posts|
  {
    if posts != [] {
      assert posts[0] in posts;
      PostsToNone(posts[1..], chat);
    }
  }

  lemma {:induction false} NoneTaken(posts: seq<Post>)
    requires forall p | p in posts :: !p.reply.Accepted?
    ensures Taken(posts) == []
    decreases |posts|
  {
    if posts != [] {
      assert posts[0] in posts;
      NoneTaken(posts[1..]);
    }
  }

  lemma TakenLast(posts: seq<Post>, last: Post)
    requires forall p | p in posts :: !p.reply.Accepted?
    ensures Taken(posts + [last]) == if last.reply.Accepted? then [last.text] else []
  {
    NoneTaken(posts);
    TakenCat(posts, [last]);
  }

  /** `n` times `each`, as a sum. */
  function Times(n: nat, each: nat): nat {
    if n == 0 then 0 else Times(n - 1, each) + each
  }

  lemma {:induction false} TimesIs(n: nat, each: nat)
    ensures Times(n, each) == n * each
  {
    if n > 0 {
      TimesIs(n - 1, each);
      assert n * each == (n - 1) * each + each;
    }
  }

  lemma {:induction false} TimesGrows(n: nat, m: nat, each: nat)
    requires n <= m
    ensures Times(n, each) <= Times(m, each)
    decreases m
  {
    if n < m {
      TimesGrows(n, m - 1, each);
    }
  }

  /**
   One text was posted to a chat: again while the rate limit answered, at most `maxRetries` more
   times, and to no other end than the last answer, or a cancellation before the next attempt.
   With a negative number of retries there is no post, and no error either.
   */
  predicate Exchange(posts: seq<Post>, chat: int64, text: string, maxRetries: int, err: Option<Error>) {
    if maxRetries < 0 then posts == [] && err == None else
      && 1 <= |posts| <= maxRetries + 1
      && (forall p | p in posts :: p.chat == chat && p.text == text)
      && (forall k | 0 <= k < |posts| - 1 :: posts[k].reply.RateLimited?)
      && match posts[|posts| - 1].reply
         case Accepted => err == None
         case Refused => err == Some(RefusedError)
         case RateLimited => err == Some(if |posts| == maxRetries + 1 then RateLimitError else Cancelled)
  }

  /** Attempts so far, each of them turned down by the rate limit. */
  predicate Retrying(posts: seq<Post>, chat: int64, text: string) {
    forall p | p in posts :: p.chat == chat && p.text == text && p.reply.RateLimited?
  }

  lemma AttemptEnds(posts: seq<Post>, chat: int64, text: string, maxRetries: int, reply: Reply)
    requires Retrying(posts, chat, text) && |posts| <= maxRetries
    requires reply.RateLimited? ==> |posts| == maxRetries
    ensures var err := match reply
                       case Accepted => None
                       case RateLimited => Some(RateLimitError)
                       case Refused => Some(RefusedError);
            Exchange(posts + [Post(chat, text, reply)], chat, text, maxRetries, err)
  {
    AllButLast(posts, Post(chat, text, reply));
  }

  lemma AllButLast(posts: seq<Post>, last: Post)
    ensures forall k | 0 <= k < |posts| :: (posts + [last])[k] in posts
    ensures (posts + [last])[|posts|] == last
  {
  }

  lemma AttemptWaits(posts: seq<Post>, chat: int64, text: string, maxRetries: int)
    requires Retrying(posts, chat, text) && |posts| < maxRetries
    ensures var more := posts + [Post(chat, text, RateLimited)];
            Retrying(more, chat, text) && Exchange(more, chat, text, maxRetries, Some(Cancelled))
  {
    AllButLast(posts, Post(chat, text, RateLimited));
  }

  lemma ExchangeTakes(posts: seq<Post>, chat: int64, text: string, maxRetries: nat, err: Option<Error>)
    requires Exchange(posts, chat, text, maxRetries, err)
    ensures Taken(posts) == if err.None? then [text] else []
    ensures err.Some? ==> !posts[|posts| - 1].reply.Accepted?
  {
    var n := |posts| - 1;
    assert posts == posts[..n] + [posts[n]];
    assert posts[n] in posts;
    TakenLast(posts[..n], posts[n]);
  }

  /**
   The texts reached a chat in order, up to the first that failed: what it accepted is a prefix
   of them, and falls short only when the last post of all was not accepted.
   */
  predicate Served(posts: seq<Post>, texts: seq<string>) {
    && Taken(posts) <= texts
    && (forall p | p in posts :: p.text in texts)
    && (Taken(posts) != texts ==> posts != [] && !posts[|posts| - 1].reply.Accepted?)
  }

  /** Stretches of posts one after the other, and what each of them came to. */
  datatype Transcript = Begin | Then(before: Transcript, posts: seq<Post>, err: Option<Error>)

  function Size(t: Transcript): nat {
    match t
    case Begin => 0
    case Then(before, _, _) => Size(before) + 1
  }

  function Posts(t: Transcript): seq<Post> {
    match t
    case Begin => []
    case Then(before, posts, _) => Posts(before) + posts
  }

  /** One exchange for each of the first texts, all of them successful. */
  predicate Exchanges(t: Transcript, chat: int64, texts: seq<string>, maxRetries: int) {
    match t
    case Begin => true
    case Then(before, posts, err) =>
      && Exchanges(before, chat, texts, maxRetries)
      && Size(before) < |texts| && err.None?
      && Exchange(posts, chat, texts[Size(before)], maxRetries, None)
  }

  /** A chat has accepted the first `n` of the texts it was sent so far. */
  predicate SoFar(posts: seq<Post>, chat: int64, texts: seq<string>, n: nat, maxRetries: int) {
    && n <= |texts| && AllTo(posts, chat)
    && if maxRetries < 0 then posts == [] else
        && Taken(posts) == texts[..n]
        && |posts| <= Times(n, maxRetries + 1)
        && forall p | p in posts :: p.text in texts
  }

  /**
   What sending a list of texts to one chat comes to. It can only fail when there are retries to
   fail with: with a negative number of them, nothing is posted and nothing goes wrong.
   */
  predicate Outcome(posts: seq<Post>, chat: int64, texts: seq<string>, maxRetries: int, err: Option<Error>) {
    match err
    case None => Cost(posts, |texts|, maxRetries) && AllTo(posts, chat)
                 && (maxRetries >= 0 ==> Served(posts, texts) && Taken(posts) == texts)
    case Some(_) => Cost(posts, |texts|, maxRetries) && AllTo(posts, chat)
                    && maxRetries >= 0 && Served(posts, texts) && Taken(posts) != texts
  }

  /** At most so many posts as attempts at `n` texts, and none at all without attempts. */
  predicate Cost(posts: seq<Post>, n: nat, maxRetries: int) {
    |posts| <= if maxRetries < 0 then 0 else Times(n, maxRetries + 1)
  }

  lemma OneMore(posts: seq<Post>, more: seq<Post>, chat: int64, texts: seq<string>, n: nat, maxRetries: int)
    requires n < |texts| && SoFar(posts, chat, texts, n, maxRetries)
    requires Exchange(more, chat, texts[n], maxRetries, None)
    ensures SoFar(posts + more, chat, texts, n + 1, maxRetries)
  {
    if maxRetries >= 0 {
      ExchangeTakes(more, chat, texts[n], maxRetries, None);
      TakenCat(posts, more);
      assert texts[..n + 1] == texts[..n] + [texts[n]];
    }
  }

  lemma {:induction false} ExchangesAdd(t: Transcript, chat: int64, texts: seq<string>, maxRetries: int)
    requires Exchanges(t, chat, texts, maxRetries)
    ensures SoFar(Posts(t), chat, texts, Size(t), maxRetries)
  {
    if t.Then? {
      ExchangesAdd(t.before, chat, texts, maxRetries);
      OneMore(Posts(t.before), t.posts, chat, texts, Size(t.before), maxRetries);
    }
  }

  /** Every text accepted: the sending succeeds. */
  lemma AllSent(t: Transcript, chat: int64, texts: seq<string>, maxRetries: int)
    requires Size(t) == |texts| && Exchanges(t, chat, texts, maxRetries)
    ensures Outcome(Posts(t), chat, texts, maxRetries, None)
  {
    ExchangesAdd(t, chat, texts, maxRetries);
    assert texts[..|texts|] == texts;
  }

  lemma FailedAfter(posts: seq<Post>, more: seq<Post>, chat: int64, texts: seq<string>, n: nat,
                    maxRetries: nat, err: Error)
    requires n < |texts| && SoFar(posts, chat, texts, n, maxRetries)
    requires Exchange(more, chat, texts[n], maxRetries, Some(err))
    ensures Outcome(posts + more, chat, texts, maxRetries, Some(err))
  {
    ExchangeTakes(more, chat, texts[n], maxRetries, Some(err));
    TakenCat(posts, more);
    assert Taken(posts + more) == texts[..n];
    TimesGrows(n + 1, |texts|, maxRetries + 1);
  }

  /** One text failed: the sending fails, and the texts before it stay accepted. */
  lemma Interrupted(t: Transcript, more: seq<Post>, chat: int64, texts: seq<string>, maxRetries: int, err: Error)
    requires Size(t) < |texts| && Exchanges(t, chat, texts, maxRetries)
    requires Exchange(more, chat, texts[Size(t)], maxRetries, Some(err))
    ensures Outcome(Posts(t) + more, chat, texts, maxRetries, Some(err))
  {
    ExchangesAdd(t, chat, texts, maxRetries);
    FailedAfter(Posts(t), more, chat, texts, Size(t), maxRetries, err);
  }

  /**
   No error means that every text was accepted if and only if there were attempts at all: with a
   negative number of retries a sending succeeds that delivers nothing.
   */
  lemma SuccessDeliversIff(posts: seq<Post>, chat: int64, texts: seq<string>, maxRetries: int)
    requires Outcome(posts, chat, texts, maxRetries, None)
    ensures Taken(posts) == texts <==> maxRetries >= 0 || texts == []
  {
    if maxRetries < 0 {
      assert posts == [];
    }
  }

  lemma OutcomeIsTo(posts: seq<Post>, chat: int64, texts: seq<string>, maxRetries: int, err: Option<Error>)
    requires Outcome(posts, chat, texts, maxRetries, err)
    ensures AllTo(posts, chat)
  {
  }

  // ---------- Many chats ----------

  predicate OnlyTo(posts: seq<Post>, chats: set<int64>) {
    forall p | p in posts :: p.chat in chats
  }

  predicate EachServed(posts: seq<Post>, chats: set<int64>, texts: seq<string>) {
    forall chat | chat in chats :: Served(PostsTo(posts, chat), texts)
  }

  predicate EachTook(posts: seq<Post>, chats: set<int64>, texts: seq<string>) {
    forall chat | chat in chats :: Taken(PostsTo(posts, chat)) == texts
  }

  lemma OtherUntouched(posts: seq<Post>, more: seq<Post>, other: int64, chat: int64)
    requires AllTo(more, chat) && chat != other
    ensures PostsTo(posts + more, other) == PostsTo(posts, other)
  {
    PostsToCat(posts, more, other);
    PostsToNone(more, other);
  }

  lemma NewcomerAlone(posts: seq<Post>, more: seq<Post>, chats: set<int64>, chat: int64)
    requires OnlyTo(posts, chats) && AllTo(more, chat) && chat !in chats
    ensures PostsTo(posts + more, chat) == more
  {
    PostsToCat(posts, more, chat);
    PostsToAll(more, chat);
    PostsToNone(posts, chat);
  }

  lemma NextOnly(posts: seq<Post>, more: seq<Post>, chats: set<int64>, chat: int64)
    requires OnlyTo(posts, chats) && AllTo(more, chat)
    ensures OnlyTo(posts + more, chats + {chat})
  {
  }

  lemma NextServed(posts: seq<Post>, more: seq<Post>, chats: set<int64>, chat: int64, texts: seq<string>)
    requires OnlyTo(posts, chats) && chat !in chats && AllTo(more, chat)
    requires EachServed(posts, chats, texts) && Served(more, texts)
    ensures EachServed(posts + more, chats + {chat}, texts)
  {
    forall other | other in chats + {chat}
      ensures Served(PostsTo(posts + more, other), texts)
    {
      if other == chat {
        NewcomerAlone(posts, more, chats, chat);
      } else {
        OtherUntouched(posts, more, other, chat);
      }
    }
  }

  lemma NextTook(posts: seq<Post>, more: seq<Post>, chats: set<int64>, chat: int64, texts: seq<string>)
    requires OnlyTo(posts, chats) && chat !in chats && AllTo(more, chat)
    ensures EachTook(posts + more, chats + {chat}, texts)
       <==> EachTook(posts, chats, texts) && Taken(more) == texts
  {
    NewcomerAlone(posts, more, chats, chat);
    forall other | other in chats
      ensures PostsTo(posts + more, other) == PostsTo(posts, other)
    {
      OtherUntouched(posts, more, other, chat);
    }
    assert chat in chats + {chat};
  }

  /** What sending a list of texts to `count` chats comes to. */
  predicate Broadcasted(posts: seq<Post>, chats: set<int64>, count: nat, texts: seq<string>, maxRetries: int,
                        err: Option<Error>) {
    match err
    case None =>
      (maxRetries < 0 && posts == [])
      || (maxRetries >= 0 && BroadcastCost(posts, count, texts, maxRetries) && OnlyTo(posts, chats)
          && EachServed(posts, chats, texts) && EachTook(posts, chats, texts))
    case Some(_) =>
      maxRetries >= 0 && BroadcastCost(posts, count, texts, maxRetries) && OnlyTo(posts, chats)
      && EachServed(posts, chats, texts) && !EachTook(posts, chats, texts)
  }

  predicate BroadcastCost(posts: seq<Post>, count: nat, texts: seq<string>, maxRetries: nat) {
    |posts| <= Times(count, Times(|texts|, maxRetries + 1))
  }

  /** The error that is reported: the last one, if there was any. */
  function Last(earlier: Option<Error>, err: Option<Error>): Option<Error> {
    if err.Some? then err else earlier
  }

  function LastError(t: Transcript): Option<Error> {
    match t
    case Begin => None
    case Then(before, _, err) => Last(LastError(before), err)
  }

  /** Chats that were served stay served when one more is, whether that one succeeds or not. */
  lemma NextChat(posts: seq<Post>, more: seq<Post>, chats: set<int64>, count: nat, chat: int64,
                 texts: seq<string>, maxRetries: int, earlier: Option<Error>, err: Option<Error>)
    requires Broadcasted(posts, chats, count, texts, maxRetries, earlier)
    requires chat !in chats && Outcome(more, chat, texts, maxRetries, err)
    ensures Broadcasted(posts + more, chats + {chat}, count + 1, texts, maxRetries, Last(earlier, err))
  {
    if maxRetries >= 0 {
      NextOnly(posts, more, chats, chat);
      NextServed(posts, more, chats, chat, texts);
      NextTook(posts, more, chats, chat, texts);
    }
  }

  lemma NothingSent(chats: set<int64>, count: nat, maxRetries: int)
    ensures Broadcasted([], chats, count, [], maxRetries, None)
  {
  }

  /** One outcome for each of the first chats. */
  predicate Outcomes(t: Transcript, chats: seq<int64>, texts: seq<string>, maxRetries: int) {
    match t
    case Begin => true
    case Then(before, posts, err) =>
      && Outcomes(before, chats, texts, maxRetries)
      && Size(before) < |chats| && Outcome(posts, chats[Size(before)], texts, maxRetries, err)
  }

  function First(chats: seq<int64>, n: nat): set<int64>
    requires n <= |chats|
  {
    if n == 0 then {} else First(chats, n - 1) + {chats[n - 1]}
  }

  lemma {:induction false} FirstAre(chats: seq<int64>, n: nat)
    requires n <= |chats|
    ensures First(chats, n) == set k | 0 <= k < n :: chats[k]
    decreases n
  {
    if n > 0 {
      FirstAre(chats, n - 1);
    }
  }

  lemma NotAmongFirst(chats: seq<int64>, n: nat)
    requires n < |chats| && Distinct(chats)
    ensures chats[n] !in First(chats, n)
  {
    FirstAre(chats, n);
  }

  lemma NotYetSent(posts: seq<Post>, chats: seq<int64>, n: nat)
    requires n < |chats| && Distinct(chats) && OnlyTo(posts, First(chats, n))
    ensures NoneTo(posts, chats[n])
  {
    NotAmongFirst(chats, n);
  }

  predicate Distinct(chats: seq<int64>) {
    forall i, j | 0 <= i < j < |chats| :: chats[i] != chats[j]
  }

  lemma NextFirst(posts: seq<Post>, more: seq<Post>, chats: seq<int64>, n: nat, texts: seq<string>,
                  maxRetries: int, earlier: Option<Error>, err: Option<Error>)
    requires n < |chats| && chats[n] !in First(chats, n)
    requires Broadcasted(posts, First(chats, n), n, texts, maxRetries, earlier)
    requires Outcome(more, chats[n], texts, maxRetries, err)
    ensures Broadcasted(posts + more, First(chats, n + 1), n + 1, texts, maxRetries, Last(earlier, err))
  {
    NextChat(posts, more, First(chats, n), n, chats[n], texts, maxRetries, earlier, err);
  }

  lemma {:induction false} OutcomesAdd(t: Transcript, chats: seq<int64>, texts: seq<string>, maxRetries: int)
    requires Outcomes(t, chats, texts, maxRetries) && Distinct(chats) && Size(t) <= |chats|
    ensures Broadcasted(Posts(t), First(chats, Size(t)), Size(t), texts, maxRetries, LastError(t))
  {
    match t
    case Begin =>
    case Then(before, posts, err) =>
      OutcomesAdd(before, chats, texts, maxRetries);
      assert chats[Size(before)] !in First(chats, Size(before)) by {
        NotAmongFirst(chats, Size(before));
      }
      NextFirst(Posts(before), posts, chats, Size(before), texts, maxRetries, LastError(before), err);
  }

  lemma EveryChat(t: Transcript, chats: seq<int64>, subscribers: set<int64>, texts: seq<string>, maxRetries: int)
    requires Outcomes(t, chats, texts, maxRetries) && Distinct(chats)
    requires Size(t) == |chats| == |subscribers| && forall c :: c in chats <==> c in subscribers
    ensures Broadcasted(Posts(t), subscribers, |subscribers|, texts, maxRetries, LastError(t))
  {
    OutcomesAdd(t, chats, texts, maxRetries);
    FirstAre(chats, |chats|);
    assert First(chats, |chats|) == subscribers;
  }
}
