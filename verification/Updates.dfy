/** Updates from the messaging server, and the subscriber set they command. */
module Updates {
  import opened Wrappers
  import opened Space
  import opened Decimal

  const COMMAND_START := "/start"
  const COMMAND_STOP := "/stop"

  datatype Message = Message(chat: int64, text: string)

  datatype Update = Update(id: int64, message: Option<Message>)

  datatype Command = Start(chat: int64) | Stop(chat: int64) | Ignored

  function CommandOf(u: Update): Command {
    if u.message.None? || u.message.value.text == "" then Ignored
    else
      var text := TrimSpace(u.message.value.text);
      if text == COMMAND_START then Start(u.message.value.chat)
      else if text == COMMAND_STOP then Stop(u.message.value.chat)
      else Ignored
  }

  /** A text with nothing but white space around a command. */
  ghost predicate Says(text: string, command: string) {
    exists a, b :: AllBlank(a) && AllBlank(b) && text == a + command + b
  }

  /** A message starts its chat if it says so, stops it if it says so, and nothing else is a command. */
  lemma CommandOfIff(u: Update, chat: int64)
    ensures CommandOf(u) == Start(chat)
       <==> u.message.Some? && u.message.value.chat == chat && Says(u.message.value.text, "/start")
    ensures CommandOf(u) == Stop(chat)
       <==> u.message.Some? && u.message.value.chat == chat && Says(u.message.value.text, "/stop")
  {
    if u.message.Some? {
      TrimIff(u.message.value.text, "/start");
      TrimIff(u.message.value.text, "/stop");
    }
  }

  /** An update commands a chat when it starts or stops it. */
  predicate Commands(u: Update, chat: int64) {
    CommandOf(u) == Start(chat) || CommandOf(u) == Stop(chat)
  }

  function Apply(s: set<int64>, u: Update): set<int64> {
    match CommandOf(u)
    case Start(chat) => s + {chat}
    case Stop(chat) => s - {chat}
    case Ignored => s
  }

  /** The set after a sequence of updates, the last one applied last. */
  function Fold(s: set<int64>, us: seq<Update>): set<int64> {
    if us == [] then s else Apply(Fold(s, us[..|us| - 1]), us[|us| - 1])
  }

  /** The last update that commands a chat. */
  function LastCommand(us: seq<Update>, chat: int64): (last: Option<Command>)
    ensures last.Some? ==> last.value == Start(chat) || last.value == Stop(chat)
  {
    if us == [] then None
    else if Commands(us[|us| - 1], chat) then Some(CommandOf(us[|us| - 1]))
    else LastCommand(us[..|us| - 1], chat)
  }

  lemma {:induction false} LastCommandSkips(us: seq<Update>, chat: int64)
    ensures LastCommand(us, chat).None? <==> forall u | u in us :: !Commands(u, chat)
  {
    if us != [] {
      LastCommandSkips(us[..|us| - 1], chat);
      assert us == us[..|us| - 1] + [us[|us| - 1]];
    }
  }

  /** The last writer wins: a chat is subscribed by its last command, or as it was before. */
  lemma {:induction false} LastWriterWins(s: set<int64>, us: seq<Update>, chat: int64)
    ensures chat in Fold(s, us) <==> match LastCommand(us, chat)
                                       case Some(c) => c.Start?
                                       case None => chat in s
  {
    if us != [] {
      LastWriterWins(s, us[..|us| - 1], chat);
    }
  }

  lemma FoldSnoc(s: set<int64>, us: seq<Update>, u: Update)
    ensures Fold(s, us + [u]) == Apply(Fold(s, us), u)
  {
    assert (us + [u])[..|us|] == us;
  }

  /** A message changes the set for its own chat only, and only by the two commands. */
  lemma ApplyDecides(s: set<int64>, u: Update, chat: int64)
    ensures var saysStart := u.message.Some? && Says(u.message.value.text, "/start");
            var saysStop := u.message.Some? && Says(u.message.value.text, "/stop");
            var own := u.message.Some? && u.message.value.chat == chat;
            chat in Apply(s, u) <==> (own && saysStart) || (chat in s && !(own && saysStop))
  {
    CommandOfIff(u, chat);
    CommandOfIff(u, if u.message.Some? then u.message.value.chat else chat);
  }

  /**
   Whatever came before: a chat that says /start last is subscribed, one that says /stop is not, and
   no message changes anything else.
   */
  lemma LastMessageDecides(s: set<int64>, us: seq<Update>, u: Update, chat: int64)
    ensures var saysStart := u.message.Some? && Says(u.message.value.text, "/start");
            var saysStop := u.message.Some? && Says(u.message.value.text, "/stop");
            var own := u.message.Some? && u.message.value.chat == chat;
            chat in Fold(s, us + [u]) <==> (own && saysStart) || (chat in Fold(s, us) && !(own && saysStop))
  {
    FoldSnoc(s, us, u);
    ApplyDecides(Fold(s, us), u, chat);
  }

  lemma {:induction false} FoldCat(s: set<int64>, a: seq<Update>, b: seq<Update>)
    ensures Fold(s, a + b) == Fold(Fold(s, a), b)
    decreases |b|
  {
    if b == [] {
      assert a + b == a;
    } else {
      FoldCat(s, a, b[..|b| - 1]);
      assert (a + b)[..|a + b| - 1] == a + b[..|b| - 1];
    }
  }

  /**
   Two sets end the same under the same updates exactly when they start the same on every chat
   those updates do not command.
   */
  lemma FoldForgets(f: set<int64>, s: set<int64>, us: seq<Update>)
    ensures Fold(f, us) == Fold(s, us)
       <==> forall chat | LastCommand(us, chat).None? :: chat in f <==> chat in s
  {
    forall chat: int64
      ensures (chat in Fold(f, us) <==> chat in Fold(s, us))
         <==> (LastCommand(us, chat).None? ==> (chat in f <==> chat in s))
    {
      LastWriterWins(f, us, chat);
      LastWriterWins(s, us, chat);
    }
    if forall chat | LastCommand(us, chat).None? :: chat in f <==> chat in s {
      assert forall chat: int64 :: chat in Fold(f, us) <==> chat in Fold(s, us);
    }
  }

  lemma {:induction false} LastCommandCat(a: seq<Update>, b: seq<Update>, chat: int64)
    ensures LastCommand(a + b, chat) == if LastCommand(b, chat).Some? then LastCommand(b, chat)
                                        else LastCommand(a, chat)
    decreases |b|
  {
    if b == [] {
      assert a + b == a;
    } else {
      LastCommandCat(a, b[..|b| - 1], chat);
      assert (a + b)[..|a + b| - 1] == a + b[..|b| - 1];
    }
  }

  /** Applying a stretch of updates a second time, and whatever follows, changes nothing. */
  lemma ReplayIsHarmless(s: set<int64>, a: seq<Update>, b: seq<Update>, c: seq<Update>)
    ensures Fold(Fold(s, a + b), b + c) == Fold(s, a + b + c)
  {
    FoldCat(s, a, b + c);
    assert a + b + c == a + (b + c);
    forall chat | LastCommand(b + c, chat).None?
      ensures chat in Fold(s, a + b) <==> chat in Fold(s, a)
    {
      LastCommandCat(b, c, chat);
      FoldCat(s, a, b);
      LastWriterWins(Fold(s, a), b, chat);
    }
    FoldForgets(Fold(s, a + b), Fold(s, a), b + c);
  }
}
