/** The sender: cuts a text into messages and posts them to every subscriber. */
module Sender {
  import opened Sequences
  import opened Wrappers
  import opened Decimal
  import opened Chunks
  import opened Delivery
  import opened Answers
  import M = MarkdownConverter
  import S = Store

  /** The server as a client sees it: a script of answers, and the posts made so far. */
  class Client {
    const replies: nat -> Reply
    const interrupted: nat -> bool   // whether the context ends in the wait after a post
    var posts: seq<Post>

    constructor (replies: nat -> Reply, interrupted: nat -> bool)
      ensures posts == []
    {
      this.replies, this.interrupted, posts := replies, interrupted, [];
    }

    ghost function Answers(): Script {
      Script(replies, interrupted)
    }

    method Do(chat: int64, text: string) returns (reply: Reply)
      modifies this
      ensures reply == replies(|old(posts)|)
      ensures posts == old(posts) + [Post(chat, text, reply)]
    {
      reply := replies(|posts|);
      posts := posts + [Post(chat, text, reply)];
    }
  }

  /** The text that is left holds the pieces from the `n`th on. */
  predicate Remaining(runes: string, size: int, texts: seq<string>, n: nat)
    requires size > 0
  {
    n <= |texts| && Rendered(Cut(runes, size)) == texts[n..]
  }

  lemma NextPiece(runes: string, size: nat, texts: seq<string>, n: nat)
    requires size > 0 && runes != "" && Remaining(runes, size, texts, n)
    ensures n < |texts| && Round(runes, size).Some?
    ensures var (chunk, rest) := Round(runes, size).value;
            M.Converted(chunk) == texts[n] && Remaining(rest, size, texts, n + 1) && |rest| < |runes|
  {
    var pieces := Cut(runes, size);
    RoundTakesPiece(runes, size);
    assert Rendered(pieces)[1..] == Rendered(pieces[1..]);
    assert texts[n + 1..] == texts[n..][1..];
  }

  /** How a sending stands after some rounds of its loop. */
  datatype Ending = Panicked | Finished(err: Option<Error>) | GoesOn

  class Sender {
    const store: S.Store
    const client: Client
    const chunkSize: int
    const maxRetries: int

    constructor (store: S.Store, client: Client, chunkSize: int, maxRetries: int)
      ensures this.store == store && this.client == client
      ensures this.chunkSize == chunkSize && this.maxRetries == maxRetries
    {
      this.store, this.client, this.chunkSize, this.maxRetries := store, client, chunkSize, maxRetries;
    }

    method DoSendChunk(chat: int64, chunk: string) returns (reply: Reply)
      modifies client
      ensures client.posts == old(client.posts) + [Post(chat, M.Converted(chunk), reply)]
      ensures reply == client.replies(|old(client.posts)|)
    {
      var text := M.ToTelegramMarkdown(chunk);
      reply := client.Do(chat, text);
    }

    /** One more attempt, after attempts that were waited for. */
    method Attempt(chat: int64, chunk: string, ghost start: nat, ghost earlier: seq<Post>)
      returns (reply: Reply, ghost sent: seq<Post>)
      requires |client.posts| == start + |earlier|
      requires Answered(client.Answers(), start, earlier) && WaitedOut(client.Answers(), start, earlier)
      requires earlier != [] ==> !client.interrupted(start + |earlier|)
      modifies client
      ensures sent == earlier + [Post(chat, M.Converted(chunk), reply)]
      ensures client.posts == old(client.posts) + [Post(chat, M.Converted(chunk), reply)]
      ensures Answered(client.Answers(), start, sent) && WaitedOut(client.Answers(), start, sent)
    {
      reply := DoSendChunk(chat, chunk);
      sent := earlier + [Post(chat, M.Converted(chunk), reply)];
      HeardMore(client.Answers(), start, earlier, Post(chat, M.Converted(chunk), reply));
    }

    /** Posts a chunk, again as long as the rate limit answers and retries are left. */
    method SendChunk(chat: int64, chunk: string, ghost start: nat)
      returns (err: Option<Error>, ghost sent: seq<Post>)
      requires start == |client.posts|
      modifies client
      ensures client.posts == old(client.posts) + sent
      ensures Exchange(sent, chat, M.Converted(chunk), maxRetries, err)
      ensures Heard(client.Answers(), start, sent, maxRetries, err)
    {
      ghost var text, w := M.Converted(chunk), client.Answers();
      sent := [];
      var attempt := 0;
      while attempt <= maxRetries
        invariant client.posts == old(client.posts) + sent && |sent| == attempt
        invariant attempt == 0 || attempt <= maxRetries
        invariant Retrying(sent, chat, text)
        invariant Answered(w, start, sent) && WaitedOut(w, start, sent)
        invariant sent != [] ==> !client.interrupted(start + |sent|)
        decreases maxRetries - attempt
      {
        ghost var earlier := sent;
        var reply;
        reply, sent := Attempt(chat, chunk, start, earlier);
        if reply.Accepted? {
          AttemptEnds(earlier, chat, text, maxRetries, reply);
          assert Heard(w, start, sent, maxRetries, None) by {
            ExchangeHeard(w, start, sent, chat, text, maxRetries, None);
          }
          return None, sent;
        }
        if reply.RateLimited? && attempt < maxRetries {
          assert Retrying(sent, chat, text) && Exchange(sent, chat, text, maxRetries, Some(Cancelled)) by {
            AttemptWaits(earlier, chat, text, maxRetries);
          }
          if client.interrupted(|client.posts|) {
            assert Heard(w, start, sent, maxRetries, Some(Cancelled)) by {
              ExchangeHeard(w, start, sent, chat, text, maxRetries, Some(Cancelled));
            }
            return Some(Cancelled), sent;
          }
          attempt := attempt + 1;
          continue;
        }
        AttemptEnds(earlier, chat, text, maxRetries, reply);
        err := Some(if reply.RateLimited? then RateLimitError else RefusedError);
        assert Heard(w, start, sent, maxRetries, err) by {
          ExchangeHeard(w, start, sent, chat, text, maxRetries, err);
        }
        return;
      }
      return None, sent;
    }

    /** The next chunk of a text and what is left; none where the bound of the slice is negative. */
    method TakeChunk(runes: string) returns (taken: Option<(string, string)>)
      ensures taken == Round(runes, chunkSize)
    {
      var end := chunkSize;
      if end > |runes| {
        end := |runes|;
      }
      if end < 0 {
        return None;
      }
      return Some((runes[..end], runes[end..]));
    }

    /** The posts from the `start`th on went well so far. */
    ghost predicate Well(start: nat, posts: seq<Post>)
      reads client
    {
      |client.posts| == start + |posts| && Heard(client.Answers(), start, posts, maxRetries, None)
    }

    /** Sends a chunk behind posts that went well. */
    method SendBehind(chat: int64, chunk: string, ghost start: nat, ghost before: seq<Post>)
      returns (err: Option<Error>, ghost sent: seq<Post>)
      requires Well(start, before)
      modifies client
      ensures client.posts == old(client.posts) + sent
      ensures Exchange(sent, chat, M.Converted(chunk), maxRetries, err)
      ensures Heard(client.Answers(), start + |before|, sent, maxRetries, err)
      ensures Heard(client.Answers(), start, before + sent, maxRetries, err)
    {
      err, sent := SendChunk(chat, chunk, start + |before|);
      HeardThen(client.Answers(), start, before, sent, maxRetries, err);
    }

    /**
     One round of the sending loop, whatever the chunk size, behind posts that went well; no rest
     means that it panics.
     */
    method SendRound(chat: int64, runes: string, ghost start: nat, ghost before: seq<Post>)
      returns (rest: Option<string>, err: Option<Error>, ghost sent: seq<Post>)
      requires Well(start, before)
      modifies client
      ensures client.posts == old(client.posts) + sent
      ensures match Round(runes, chunkSize)
              case None => rest == None && sent == []
              case Some((chunk, left)) =>
                rest == Some(left) && Exchange(sent, chat, M.Converted(chunk), maxRetries, err)
      ensures Heard(client.Answers(), start + |before|, sent, maxRetries, err)
      ensures Heard(client.Answers(), start, before + sent, maxRetries, err)
    {
      var taken := TakeChunk(runes);
      if taken.None? {
        HeardNoMore(client.Answers(), start, before, maxRetries);
        return None, None, [];
      }
      var (chunk, left) := taken.value;
      rest := Some(left);
      err, sent := SendBehind(chat, chunk, start, before);
    }

    /** Sends the first piece of what is left of a text, after the pieces before it were accepted. */
    method SendPiece(chat: int64, runes: string, ghost texts: seq<string>, ghost start: nat, ghost t: Transcript)
      returns (rest: string, err: Option<Error>, ghost sent: seq<Post>)
      requires chunkSize > 0 && runes != "" && Remaining(runes, chunkSize, texts, Size(t))
      requires Exchanges(t, chat, texts, maxRetries)
      requires start == |client.posts|
      modifies client
      ensures client.posts == old(client.posts) + sent
      ensures |rest| < |runes| && Remaining(rest, chunkSize, texts, Size(t) + 1)
      ensures Heard(client.Answers(), start, sent, maxRetries, err)
      ensures match err
              case None => Exchanges(Then(t, sent, None), chat, texts, maxRetries)
              case Some(_) => Outcome(Posts(t) + sent, chat, texts, maxRetries, err)
    {
      NextPiece(runes, chunkSize, texts, Size(t));
      var left;
      left, err, sent := SendRound(chat, runes, start, []);
      rest := left.value;
      if err.Some? {
        Interrupted(t, sent, chat, texts, maxRetries, err.value);
      }
    }

    /** The same, with what the answers to the pieces before it were. */
    method SendNextPiece(chat: int64, runes: string, ghost texts: seq<string>, ghost start: nat, ghost t: Transcript)
      returns (rest: string, err: Option<Error>, ghost sent: seq<Post>)
      requires chunkSize > 0 && runes != "" && Remaining(runes, chunkSize, texts, Size(t))
      requires Exchanges(t, chat, texts, maxRetries)
      requires |client.posts| == start + |Posts(t)| && HeardEach(client.Answers(), start, t, maxRetries)
      modifies client
      ensures client.posts == old(client.posts) + sent
      ensures |rest| < |runes| && Remaining(rest, chunkSize, texts, Size(t) + 1)
      ensures HeardEach(client.Answers(), start, Then(t, sent, err), maxRetries)
      ensures match err
              case None => Exchanges(Then(t, sent, None), chat, texts, maxRetries)
              case Some(_) => Outcome(Posts(t) + sent, chat, texts, maxRetries, err)
    {
      rest, err, sent := SendPiece(chat, runes, texts, start + |Posts(t)|, t);
      HeardAfter(client.Answers(), start, t, sent, err, maxRetries);
    }

    /** Sends a text to one chat, piece by piece, and stops at the first piece that fails. */
    method SendTo(chat: int64, text: string, ghost start: nat) returns (err: Option<Error>, ghost sent: seq<Post>)
      requires chunkSize > 0 && start == |client.posts|
      modifies client
      ensures client.posts == old(client.posts) + sent
      ensures Outcome(sent, chat, Rendered(Cut(text, chunkSize)), maxRetries, err)
      ensures Heard(client.Answers(), start, sent, maxRetries, err)
    {
      ghost var texts := Rendered(Cut(text, chunkSize));
      ghost var t := Begin;
      var runes := text;
      while runes != ""
        invariant Remaining(runes, chunkSize, texts, Size(t))
        invariant client.posts == old(client.posts) + Posts(t)
        invariant Exchanges(t, chat, texts, maxRetries)
        invariant HeardEach(client.Answers(), start, t, maxRetries)
        decreases |runes|
      {
        ghost var more;
        runes, err, more := SendNextPiece(chat, runes, texts, start, t);
        Regroup(old(client.posts), Posts(t), more);
        if err.Some? {
          assert Heard(client.Answers(), start, Posts(t) + more, maxRetries, err) by {
            EachEnds(client.Answers(), start, t, more, chat, texts, maxRetries, err);
          }
          return err, Posts(t) + more;
        }
        t := Then(t, more, None);
      }
      assert Outcome(Posts(t), chat, texts, maxRetries, None) by {
        AllSent(t, chat, texts, maxRetries);
      }
      assert Heard(client.Answers(), start, Posts(t), maxRetries, None) by {
        EachWentWell(client.Answers(), start, t, chat, texts, maxRetries);
      }
      return None, Posts(t);
    }

    /**
     The sending loop for any chunk size, watched for some rounds. It gets where the loop of `Chunks`
     gets, unless a chunk fails first; so it can only succeed with a positive chunk size, or with
     nothing to send. With size 0 it posts nothing but empty messages.
     */
    method SendRounds(chat: int64, text: string, rounds: nat) returns (end: Ending, ghost sent: seq<Post>)
      modifies client
      ensures client.posts == old(client.posts) + sent
      ensures match end
              case Panicked => After(text, chunkSize, rounds) == None
              case Finished(None) => After(text, chunkSize, rounds) == Some("")
              case Finished(Some(_)) => true
              case GoesOn => After(text, chunkSize, rounds).Some? && After(text, chunkSize, rounds) != Some("")
      ensures end == Finished(None) ==> chunkSize > 0 || text == ""
      ensures end == Panicked <==> chunkSize < 0 && text != "" && rounds > 0
      ensures chunkSize == 0 ==> forall p | p in sent :: p.chat == chat && p.text == ""
      ensures chunkSize < 0 ==> sent == []
      ensures Heard(client.Answers(), |old(client.posts)|, sent, maxRetries, if end.Finished? then end.err else None)
    {
      ghost var start := |client.posts|;
      LoopEndsIff(text, chunkSize);
      LoopPanicsIff(text, chunkSize, rounds);
      sent := [];
      var runes, round := text, 0;
      while runes != "" && round < rounds
        invariant round <= rounds && After(text, chunkSize, rounds) == After(runes, chunkSize, rounds - round)
        invariant client.posts == old(client.posts) + sent
        invariant chunkSize == 0 ==> forall p | p in sent :: p.chat == chat && p.text == ""
        invariant chunkSize < 0 ==> sent == [] && runes == text && round == 0
        invariant Well(start, sent)
      {
        var rest, err, more := SendRound(chat, runes, start, sent);
        Regroup(old(client.posts), sent, more);
        assert chunkSize == 0 ==> M.Converted(runes[..0]) == "";
        if rest.None? {
          return Panicked, sent;
        }
        sent := sent + more;
        if err.Some? {
          return Finished(err), sent;
        }
        runes, round := rest.value, round + 1;
      }
      return if runes == "" then Finished(None) else GoesOn, sent;
    }

    /** Sends a text to one more chat. */
    method SendNext(chat: int64, text: string, ghost start: nat, ghost t: Transcript)
      returns (err: Option<Error>, ghost sent: seq<Post>)
      requires chunkSize > 0
      requires |client.posts| == start + |Posts(t)| && HeardEach(client.Answers(), start, t, maxRetries)
      modifies client
      ensures client.posts == old(client.posts) + sent
      ensures Outcome(sent, chat, Rendered(Cut(text, chunkSize)), maxRetries, err)
      ensures HeardEach(client.Answers(), start, Then(t, sent, err), maxRetries)
    {
      err, sent := SendTo(chat, text, start + |Posts(t)|);
      HeardAfter(client.Answers(), start, t, sent, err, maxRetries);
    }

    /** Sends a text to some chats, one after the other; the error is the last one. */
    method SendToEach(chats: seq<int64>, text: string) returns (err: Option<Error>, ghost t: Transcript)
      requires chunkSize > 0
      modifies client
      ensures client.posts == old(client.posts) + Posts(t) && Size(t) == |chats| && err == LastError(t)
      ensures Outcomes(t, chats, Rendered(Cut(text, chunkSize)), maxRetries)
      ensures HeardEach(client.Answers(), |old(client.posts)|, t, maxRetries)
    {
      ghost var start := |client.posts|;
      err, t := None, Begin;
      for k := 0 to |chats|
        invariant Size(t) == k && err == LastError(t)
        invariant client.posts == old(client.posts) + Posts(t)
        invariant Outcomes(t, chats, Rendered(Cut(text, chunkSize)), maxRetries)
        invariant HeardEach(client.Answers(), start, t, maxRetries)
      {
        var failed, more := SendNext(chats[k], text, start, t);
        Regroup(old(client.posts), Posts(t), more);
        t := Then(t, more, failed);
        if failed.Some? {
          err := failed;
        }
      }
    }

    /**
     Sends a text to every subscriber. Each of them gets the pieces in order up to the first that
     fails for it, whatever happens to the others; there is no error exactly when every one of
     them has accepted every piece.
     */
    method Broadcast(text: string) returns (err: Option<Error>, ghost sent: seq<Post>)
      requires chunkSize > 0
      modifies client
      ensures client.posts == old(client.posts) + sent
      ensures Broadcasted(sent, store.subscribers, |store.subscribers|, Rendered(Cut(text, chunkSize)),
                          maxRetries, err)
      ensures AllHeard(client.Answers(), |old(client.posts)|, sent, maxRetries, err)
    {
      ghost var start := |client.posts|;
      NothingHeard(client.Answers(), start, maxRetries);
      if text == "" {
        NothingSent(store.subscribers, |store.subscribers|, maxRetries);
        return None, [];
      }
      var chats := store.All();
      ghost var texts := Rendered(Cut(text, chunkSize));
      if |chats| == 0 {
        EveryChat(Begin, chats, store.subscribers, texts, maxRetries);
        return None, [];
      }
      ghost var t;
      err, t := SendToEach(chats, text);
      sent := Posts(t);
      assert Broadcasted(sent, store.subscribers, |store.subscribers|, texts, maxRetries, err) by {
        EveryChat(t, chats, store.subscribers, texts, maxRetries);
      }
      EachIsHeard(client.Answers(), start, t, chats, texts, maxRetries);
    }
  }

  /**
   What is posted for a text: the pieces make up the text and are as many as its length over the
   chunk size, rounded up; every message is at most twice the chunk size.
   */
  lemma MessagesFit(text: string, size: nat)
    requires size > 0
    ensures Concat(Cut(text, size)) == text
    ensures |Cut(text, size)| == (|text| + size - 1) / size
    ensures forall message | message in Rendered(Cut(text, size)) :: |message| <= 2 * size
  {
    var pieces := Cut(text, size);
    CutIsExact(text, size);
    forall message | message in Rendered(pieces)
      ensures |message| <= 2 * size
    {
      var k :| 0 <= k < |pieces| && Rendered(pieces)[k] == message;
      RenderedAt(pieces, k);
      M.ConversionLength(pieces[k]);
      assert pieces[k] in pieces;
    }
  }

  /** The bound on the posts of a broadcast, as a product. */
  lemma PostsBound(subscribers: nat, pieces: nat, maxRetries: nat)
    ensures Times(subscribers, Times(pieces, maxRetries + 1)) == subscribers * (pieces * (maxRetries + 1))
  {
    TimesIs(pieces, maxRetries + 1);
    TimesIs(subscribers, Times(pieces, maxRetries + 1));
  }
}
