# Lens daemon: a verified model

The daemon captures the foreground window on a hotkey, has its text answered, and shows the answer
on a teleprompter or sends it to Telegram subscribers. This project models the algorithms and
protocols under the macOS shell and proves what they promise.

- **Pipeline** — `Pipeline.dfy`. The run loop, the capture goroutines, the bounded queue, the
  analyse worker and its goroutines, as a transition system. One invariant holds in every
  interleaving; from it follow the safety of the queue, the conservation of triggers and the drained
  state before the extractor is closed. A measure and a progress lemma show that shutdown ends.
  `PipelineFates.dfy` reads the fate of each trigger off the actions of a run.
- **Log broker** — `LogProtocol.dfy` is the protocol between writers and subscribers,
  `LogLifetimes.dfy` the life of a subscriber over a run, `LogBroker.dfy` the class with its ring and map, every method of which is one or two steps of the protocol.
  `SlogLine.dfy` is the parser of log lines, `SlogPrinter.dfy` a printer that it undoes, and
  `AttrEscape.dfy` the logger's escaper.
- **MarkdownV2** — `Markdown.dfy` scans the input markup into tokens; the scan loses nothing and is
  the only one of its dialect. `MarkdownConverter.dfy` has a strict reader for the emitted subset of
  MarkdownV2 and the converter, and proves that the reader sees exactly the input's spans.
  `Rules.dfy` states the conversion rules on the texts themselves.
  `Fences.dfy` says what becomes of fenced blocks, `Underscores.dfy` when a bare double underscore is
  emitted. The reader stands for the syntax section "MarkdownV2 style" of the Telegram Bot API only as far as
  the converter uses it: `*`, `_`, verbatim code and fences, and backslash escapes.
- **Sender** — `Chunks.dfy` cuts a text, `Delivery.dfy` says what a sequence of posts delivered,
  `Answers.dfy` what was made of the server's answers, and `Sender.dfy` is the retry, chunk and
  broadcast loops over a scripted server.
- **Poller and store** — `Store.dfy` is the subscriber set and its file on a disk that remembers every
  state a crash could freeze; `Updates.dfy` the commands; `Poller.dfy` one request; `PollerRuns.dfy`
  whole runs against a server, with lost answers, failed writes and crashes.
- **Framing** — `Frames.dfy` the stream format, `FrameIO.dfy` writing to and reading from streams that
  take and give as many bytes as they like.
- **Hotkeys** — `Hotkeys.dfy` is the tap's state machine and what it means over a trace, `Mailbox.dfy`
  the channel with one place that is drained and refilled, `ListenerChannels.dfy` what a trace leaves
  in the channels, and `Listener.dfy` the class.
- **Geometry** — `Geometry.dfy`, `CaptureGeometry.dfy`: what is captured and what is kept of it;
  `Cropping.dfy`: when the crop of a browser window shows its content.

`Arithmetic.dfy`, `Sequences.dfy`, `TextSearch.dfy`, `Space.dfy`, `Decimal.dfy` and `Wrappers.dfy` serve
the others.

`dafny verify dfyconfig.toml` checks everything.

Where the code and its own documentation disagree, the model follows the code:

- `src/adapters/im/helpers/format.go:16` says that fenced blocks are preserved. Whatever stands on the
  line of the opening fence is taken for a language hint, a closing fence included: a closed fence is
  shown as one if and only if there is a line break between its two fences (`Fences.FenceShownIff`),
  and one on a single line loses its text and swallows the lines behind it (`Fences.FirstLineIsHint`).
- `src/adapters/im/im.go:58` promises to send a chunk. With a negative number of retries nothing is
  posted and no error is reported; no error means that everything was delivered if and only if there
  are attempts at all, or nothing to send (`Delivery.SuccessDeliversIff`).
- `src/pipeline/process.go:254-258` promises the canvas region of a full-window screenshot. The scale is
  taken from the whole window, while the image shows only what is on the screen. The crop shows
  exactly the visible content under the condition of `Cropping.CropShowsContentIff`, and begins above
  or below it as `Cropping.CropBeginsWhere` says. For a window not as large as the screen the sides
  never matter; with its upper edge on the screen it is right if and only if the lower edge is too
  (`Cropping.UpperEdgeOnScreen`), and crops too little otherwise (`Cropping.OverLowerEdge`); over the
  upper edge, with its lower edge on the screen, it never crops too little and almost always too much
  (`Cropping.OverUpperEdge`); over both edges it may do either (`Cropping.OverBothEdges`).

Three more limits of the code that the proofs made exact:

- A command whose write to disk fails is confirmed to the server by the next request all the same,
  and a crash then loses it (`PollerRuns.UnwrittenCommandIsLost`) unless a later write succeeds first:
  the file is memory as of the last write (`PollerRuns.FileIsLastWrite`), and
  `PollerRuns.CrashLosesIff` says in terms of the writes what a crash loses. `PollerRuns.RestartConverges`
  and `PollerRuns.RestartConvergesIff` say when a restart converges.
- The escaper of log attributes leaves double quotes alone, so the parser recovers a value exactly
  when it has none (`AttrEscape.ParserRecoversIffNoQuote`).
- The loop that sends a text comes to its end if and only if the chunk size is positive or there is
  nothing to send (`Chunks.LoopEndsIff`); it panics in its first round if and only if the size is
  negative and there is something to send (`Chunks.LoopPanicsIff`, `Sender.Sender.SendRounds`).

## Model

| member | source | states |
|---|---|---|
| Pipeline.InitInv | src/pipeline/run.go:58-61 | the invariant holds before the first trigger, for every queue capacity |
| Pipeline.StepKeepsInv | src/pipeline/run.go:63-114 | every step of the run loop, a capture, the worker or an analysis keeps the invariant: one place for each trigger, wait groups that count, order, phases |
| Pipeline.RunKeepsInv | src/pipeline/run.go:63-114 | so does every run of any length and interleaving |
| Pipeline.EveryRunIsSafe | src/pipeline/run.go:63-114 | in every run from the start: no send on a closed queue and no second close; accepted triggers = capturing, with a result in hand, abandoned, dropped, queued, analysing and analysed ones; the queue within its capacity; analyses spawned in queue order; the extractor closed once, after everything is drained |
| Pipeline.ExitedIsDrained | src/pipeline/run.go:99-114 | when the worker has exited, every enqueued result has been analysed exactly once and nothing is in flight |
| Pipeline.DropsOnlyWhenFull | src/pipeline/phases.go:53-60 | a result is dropped only when the queue holds exactly its capacity |
| Pipeline.NothingAfterReturn | src/pipeline/run.go:65-73 | once Run has returned, no step of any goroutine is left |
| Pipeline.ShutdownStepDecreases | src/pipeline/run.go:65-73 | after the ctx.Done branch every step of any goroutine decreases one measure |
| Pipeline.ShutdownIsBounded | src/pipeline/run.go:65-73 | so a shutdown has at most as many steps as its measure |
| Pipeline.ShutdownProgress | src/pipeline/run.go:65-73 | in every state of a shutdown before the return some step is enabled |
| Pipeline.ShutdownCannotDeadlock | src/pipeline/run.go:65-73 | a shutdown that cannot go on has returned, drained, with the extractor closed exactly once |
| PipelineFates.FatesAreActions | src/pipeline/phases.go:28-63 | in every run from the start: as many triggers as were taken; a trigger is abandoned if and only if its capture returned without a result, dropped if and only if its result was dropped, and captured if and only if its result is in hand, enqueued or dropped; what was enqueued and analysed is what the actions enqueued and analysed, in their order |
| PipelineFates.CapturedIsQueued | src/pipeline/phases.go:34-55 | with room in an open queue, a capture with its screenshot can enqueue it, and the queue is then the old one with it at the end |
| PipelineFates.EveryOutcomeIsOpen | src/pipeline/run.go:74-85 | in every state of every run in which the run loop selects, the next trigger can be abandoned, enqueued when there is room, dropped when there is none, and handed to the worker without a buffer, with exactly these changes to the state |
| PipelineFates.EveryRunCanEnd | src/pipeline/run.go:65-73 | every run can be cancelled and brought to the return of Run |
| PipelineFates.EveryTriggerEnds | src/pipeline/run.go:63-114 | in every run that has returned, each trigger taken was abandoned, dropped or analysed, in exactly one of these ways and analysed at most once; the results analysed are exactly those enqueued |
| LogProtocol.StepKeepsInv | src/ipc/log_broker.go:36-101 | subscribe, write, delete, close and receive keep channels within capacity, active and closing ones open, numbers below the next |
| LogProtocol.EveryRunIsSafe | src/ipc/log_broker.go:36-101 | in every run from the start, no interleaving sends on a closed channel or closes one twice, buffers stay within capacity, and no subscriber number is given out again |
| LogProtocol.RunDelivers | src/ipc/log_broker.go:74-101 | over any run, events read plus events buffered grow by exactly the events written while the subscriber was active and had room, in order |
| LogProtocol.MissedOnlyWhenFull | src/ipc/log_broker.go:93-98 | an active subscriber misses an event only with its buffer exactly full |
| LogProtocol.SubscriberSeesReplayThenLive | src/ipc/log_broker.go:36-53 | in every run from the start, a new subscriber has a new number and a buffer for the replay and 64 more; what it reads and can read is the replay followed by the later events that reached it |
| LogProtocol.HistoryGrows | src/ipc/log_broker.go:74-90 | the history grows by exactly the events written |
| LogProtocol.KeepingUpSeesNoGap | src/ipc/log_broker.go:36-101 | a subscriber that never has a full buffer sees one unbroken stretch of the history, without gap or duplicate at the join |
| LogLifetimes.ClosedIffClosed | src/ipc/log_broker.go:36-68 | in every run from the start and from any moment of subscribing: the subscriber has the number of the subscriptions before it, is active until it is deleted, its channel is closed if and only if a close of it happened, and its reader has taken one event with each receive |
| LogLifetimes.UnsubscribeCloses | src/ipc/log_broker.go:56-68 | an active subscriber can be deleted and its channel closed, and nothing else changes |
| LogLifetimes.ReaderDrains | src/ipc/handler.go:105-126 | a reader can take all that its buffer holds, closed or not, and has then read all that was delivered |
| LogBroker.RingFills | src/ipc/log_broker.go:84-90 | storing in a ring with room: read from its head, it holds the whole longer history |
| LogBroker.RingTurns | src/ipc/log_broker.go:84-90 | storing in a full ring: read from its new head, it holds the last 100 events, oldest first |
| LogBroker.LogBroker.constructor | src/ipc/log_broker.go:25-30 | a new broker is in the protocol's first state |
| LogBroker.LogBroker.Replay | src/ipc/log_broker.go:44-47 | the replay is the last events of the history, and no send of it can block |
| LogBroker.LogBroker.Register | src/ipc/log_broker.go:48-50 | a channel that holds the replay gets the next number and a place in the map: one subscribe step |
| LogBroker.LogBroker.Subscribe | src/ipc/log_broker.go:36-53 | a fresh open channel under the next number, that holds the last 100 events and has room for 64 more: one subscribe step |
| LogBroker.LogBroker.Unsubscribe | src/ipc/log_broker.go:56-68 | the subscriber leaves the map and its channel is closed, with what it holds; no other channel is touched, and an unknown number changes nothing: a delete step and a close step |
| LogBroker.LogBroker.Store | src/ipc/log_broker.go:84-90 | the ring goes on holding the last events, the new one included |
| LogBroker.LogBroker.FanOut | src/ipc/log_broker.go:93-98 | every subscriber gets the event if it has room, in whichever order they come, and nobody else does |
| LogBroker.LogBroker.Write | src/ipc/log_broker.go:74-101 | nothing for an empty write, else one write step with the parsed event; all bytes are reported written |
| LogBroker.LogBroker.Take | src/ipc/handler.go:105-126 | a subscriber takes the oldest event of its buffer: one receive step |
| LogBroker.LogBroker.Count | src/ipc/log_broker.go:104-108 | the number of active subscribers |
| SlogLine.ParseQuoted | src/ipc/log_broker.go:147-179 | the quoted-value loop ends within the line, with the value and position of the specification that the printer's lemmas are about |
| SlogLine.ParseField | src/ipc/log_broker.go:124-187 | the field loop ends within the line and yields the first field from there, or nothing |
| SlogLine.ParseSlogLine | src/ipc/log_broker.go:112-210 | for every line, the event is the left-to-right fold of the fields, with the whole line as message when there is none |
| SlogPrinter.QuotedReads | src/ipc/log_broker.go:147-179 | unescaping a quoted value gives back every text that was escaped |
| SlogPrinter.VerbatimReads | src/ipc/log_broker.go:147-179 | a quoted value without quotes and known escapes is read as it stands, an unknown escape with its backslash, up to its quote or the end of the line |
| SlogPrinter.FieldsPrinted | src/ipc/log_broker.go:123-202 | a line is parsed into exactly the fields that stand in it, in order, whatever the blanks between them; text behind them without an equals sign is dropped |
| SlogPrinter.LastFieldWins | src/ipc/log_broker.go:190-201 | level and msg are the last fields of that key, the time the last that parses, any other key its last value |
| SlogPrinter.ParsingReadsLine | src/ipc/log_broker.go:112-210 | parsing such a line yields the last value of each key, the level INFO when there is none, and the line itself for a missing or empty msg |
| SlogPrinter.ParsingUndoesPrinting | src/ipc/log_broker.go:112-210 | for any fields with clean keys, quoted or free of spaces, parsing the printed line yields the last value of each key, the default level, and the line itself for a missing or empty msg |
| AttrEscape.SanitizeIsSubstitution | src/helpers/logger/logger.go:50-61 | the four successive replacements are one substitution, character by character |
| AttrEscape.SanitizeKeepsValues | src/helpers/logger/logger.go:50-61 | different values stay different; a text is left without line feed, tab or carriage return, and any other value as it is |
| AttrEscape.SanitizedPrefixReads | src/helpers/logger/logger.go:50-61 | up to its first double quote, the parser recovers any text |
| AttrEscape.ParserRecoversIffNoQuote | src/helpers/logger/logger.go:50-61 | the parser recovers the whole text of a sanitised value if and only if it has no double quote |
| Markdown.ScanLosesNothing | src/adapters/im/helpers/format.go:31-135 | the tokens of a text print back to the text, for every text |
| Markdown.ScanInDialect | src/adapters/im/helpers/format.go:31-135 | every scan is a token list of the dialect: what a span lacks, what may follow it, where headers begin |
| Markdown.ScanUnique | src/adapters/im/helpers/format.go:31-135 | every token list of the dialect is the scan of what it prints to, so a text has no other reading |
| MarkdownConverter.ConversionKeepsMeaning | src/adapters/im/helpers/format.go:26-146 | read by the strict reader, the conversion of any text has exactly the input's spans and their visible text, an unclosed last span marked as such |
| MarkdownConverter.ReservedAreSpecial | src/adapters/im/helpers/format.go:7-11 | the converter escapes exactly the 19 characters that MarkdownV2 reserves, as the reader lists them |
| Rules.SpanRule | src/adapters/im/helpers/format.go:71-113 | at any position of any text: two asterisks open bold text, one opens italics, an underscore too; the text up to the same delimiter or the end is escaped between the delimiters of MarkdownV2 |
| Rules.CodeRule | src/adapters/im/helpers/format.go:56-68 | a backtick opens code, copied up to the next backtick or the end |
| Rules.FenceRule | src/adapters/im/helpers/format.go:33-53 | three backticks open a fence: the rest of the line is dropped, what follows is copied up to the next three or the end |
| Rules.HeaderRule | src/adapters/im/helpers/format.go:116-130 | at the start of a line, number signs and the blanks behind them make the rest of the line bold |
| Rules.PlainRule | src/adapters/im/helpers/format.go:132-146 | any other character is emitted, behind a backslash if and only if it is reserved |
| Underscores.DoubledIff | src/adapters/im/helpers/format.go:86-113 | the conversion of a text has a bare double underscore outside code if and only if the text has a closed italic span, of either mark, that is empty or directly before another italic span |
| Fences.FenceShownIff | src/adapters/im/helpers/format.go:33-53 | a closed fence is shown as one, with the text behind its first line, if and only if there is a line break between its two fences |
| Fences.BlockClosesIff | src/adapters/im/helpers/format.go:33-53 | at any position of any text, a fenced block ends at the next fence if and only if a line break comes before it, and holds what lies between the two |
| Fences.FirstLineIsHint | src/adapters/im/helpers/format.go:33-53 | for every text that opens with a fence: the rest of its line is dropped, what follows is shown as fenced up to the next fence, and then comes what the scan finds behind it; without a line break nothing of it is shown |
| Fences.SomeFenceSwallowsALine | src/adapters/im/helpers/format.go:33-53 | a fence closed on its line loses its text, and the next line is shown as an unclosed fence |
| MarkdownConverter.ConversionLength | src/adapters/im/helpers/format.go:31-135 | a conversion is at most twice as long as its input, and for some input as long |
| MarkdownConverter.ConvertFence | src/adapters/im/helpers/format.go:33-53 | the fence branch emits the fence token at its position and stops behind it |
| MarkdownConverter.ConvertCode | src/adapters/im/helpers/format.go:56-68 | the same for inline code, whose text is copied |
| MarkdownConverter.ConvertBold | src/adapters/im/helpers/format.go:71-83 | the same for bold, whose text is escaped |
| MarkdownConverter.ConvertStarItalic | src/adapters/im/helpers/format.go:86-98 | the same for italic in asterisks |
| MarkdownConverter.ConvertUnderscoreItalic | src/adapters/im/helpers/format.go:101-113 | the same for italic in underscores |
| MarkdownConverter.ConvertHeader | src/adapters/im/helpers/format.go:116-130 | the same for a header, which becomes bold |
| MarkdownConverter.ToTelegramMarkdown | src/adapters/im/helpers/format.go:26-138 | the loop computes the conversion; the strict reader reads it as the input's meaning; it is at most twice as long |
| Chunks.CutIsExact | src/adapters/im/im.go:41-50 | the pieces make up the text, each has 1 to chunkSize characters, and there are ceil(n/chunkSize) of them |
| Chunks.PieceIs | src/adapters/im/im.go:41-50 | the k-th piece is the text from k * chunkSize to (k + 1) * chunkSize, or to its end |
| Chunks.RoundsArePieces | src/adapters/im/im.go:43-49 | with a positive size, rounds of the source's loop never panic, and have nothing left exactly when there were as many as pieces |
| Chunks.LoopEndsIff | src/adapters/im/im.go:43-49 | for any size, the loop comes to its end if and only if the size is positive or the text is empty |
| Chunks.LoopPanicsIff | src/adapters/im/im.go:43-49 | for any size, it panics if and only if the size is negative and the text is not empty, in its first round |
| Delivery.ExchangeTakes | src/adapters/im/im.go:59-79 | a chunk is accepted by its last post if the exchange succeeded, and by none if it failed |
| Delivery.SuccessDeliversIff | src/adapters/im/im.go:59-79 | a sending without error delivered every text if and only if the number of retries is not negative or there was nothing to send |
| Delivery.NextChat | src/adapters/im/im.go:156-161 | every chat that was served stays served when one more is, whether that one succeeds or not |
| Delivery.OtherUntouched | src/adapters/im/im.go:156-161 | posts to other chats change nothing of what one chat was posted |
| Answers.ExchangeSucceedsIff | src/adapters/im/im.go:59-79 | a chunk is delivered if and only if, within the attempts, the server accepts before it refuses anything and before a wait is interrupted; the posts are then those up to the acceptance |
| Answers.LenientServesAll | src/adapters/im/im.go:144-163 | nothing fails, of one text or of a broadcast, as long as nothing is refused, no wait is interrupted and no rate limit outlasts the retries |
| Sender.Sender.DoSendChunk | src/adapters/im/im.go:82-120 | one post, of the chunk's conversion |
| Sender.Sender.SendChunk | src/adapters/im/im.go:59-79 | at most maxRetries + 1 posts of one text, all but the last turned down by the rate limit; the error is the last answer's, or a cancellation while waiting; a negative maxRetries posts nothing and reports nothing; every other wait was waited out, and it is cancelled only if the wait behind its last post was interrupted |
| Sender.Sender.SendTo | src/adapters/im/im.go:40-56 | what the chat accepted is a prefix of the converted pieces, and all of them if and only if there was no error (maxRetries >= 0); at most pieces * (maxRetries + 1) posts; waits are waited out, and an error is the one that the answer to the last post gives |
| Sender.Sender.SendRound | src/adapters/im/im.go:43-53 | one round for any chunk size: the chunk is the one that `Chunks.Round` takes off and is exchanged with retries; a negative bound of the slice panics with nothing posted |
| Sender.Sender.SendRounds | src/adapters/im/im.go:40-56 | the loop for any chunk size and any number of rounds: it gets where `Chunks.After` gets unless a chunk fails; it succeeds only with a positive size or nothing to send, panics if and only if the size is negative and there is something to send, posts nothing with a negative size and nothing but empty messages with size 0 |
| Sender.Sender.Broadcast | src/adapters/im/im.go:144-163 | every subscriber, each by itself, accepts a prefix of the pieces, short only by a failure of its own; the error is nil if and only if all were served in full (maxRetries >= 0); nobody else is written to; the number of posts is bounded; each sending that stopped short was refused, interrupted in a wait or out of retries, and the error is that of the last of them |
| Sender.MessagesFit | src/adapters/im/im.go:40-56 | the pieces of a text make it up, are ceil(n/chunkSize) many, and no message is longer than 2 * chunkSize |
| Sender.PostsBound | src/adapters/im/im.go:144-163 | the bound on a broadcast's posts is subscribers * pieces * (maxRetries + 1) |
| Decimal.FormatIntReads | src/adapters/im/store/store.go:70-84 | every int64, the minimum included, is read back from its decimal text |
| Decimal.ParseIntIff | src/adapters/im/store/store.go:70-73 | a text is read as a number if and only if it is the number's decimal text, behind any zeros and a sign that suits it, within 64 bits |
| Space.TrimIff | src/adapters/im/store/store.go:66 | trimming gives the text without white space at its ends that stands between white space |
| Space.SpacesAreListed | src/adapters/im/store/store.go:66 | white space is exactly the 25 characters that Unicode counts as such |
| Store.LoadUndoesPersist | src/adapters/im/store/store.go:58-105 | what is written for a set of numbers, in whatever order, loads as that set |
| Store.FileLoadsLines | src/adapters/im/store/store.go:58-76 | whatever a file holds, it is refused if and only if some line is neither blank nor a number, and loads as the set of the numbers on its lines otherwise |
| Store.TextHasLines | src/adapters/im/store/store.go:64 | every text is made of such lines |
| Store.Store.Load | src/adapters/im/store/store.go:64-76 | the line loop yields the numbers of all lines, blank ones skipped, and fails exactly when a line is no number |
| Store.Store.New | src/adapters/im/store/store.go:16-26 | a store starts with what the file holds, with nothing if there is none, and is refused exactly when the file is damaged |
| Store.Disk.WriteTemp | src/adapters/im/store/store.go:95-97 | writing the temporary file byte by byte, even in part, never touches the file itself |
| Store.Store.Persist | src/adapters/im/store/store.go:81-105 | in every state the disk passes through the file is the old one, until a last step makes it hold the whole new set; on failure it stays the old one; on success it lists every subscriber once, each on a line of its own, and the temporary file is gone |
| Store.Store.Add | src/adapters/im/store/store.go:29-34 | the set gains the number; on success file and memory agree, on failure the file is the old one; crash-safe like Persist |
| Store.Store.Remove | src/adapters/im/store/store.go:37-42 | the set loses the number; the same about the file |
| Store.Store.All | src/adapters/im/store/store.go:46-54 | every subscriber once, and nothing else |
| Updates.LastWriterWins | src/adapters/im/poller/poller.go:140-156 | after any updates, a chat is subscribed by its last /start or /stop, or as it was before |
| Updates.CommandOfIff | src/adapters/im/poller/poller.go:140-156 | an update starts a chat if and only if its message is /start with nothing but white space around it, and stops it if and only if it is /stop |
| Updates.LastMessageDecides | src/adapters/im/poller/poller.go:140-156 | after any updates, a chat that says /start last is subscribed, one that says /stop is not, and no other message changes anything, nor any message another chat |
| Updates.ReplayIsHarmless | src/adapters/im/poller/poller.go:128-133 | applying a stretch of updates twice, and then what follows, gives the same set as once |
| Updates.FoldForgets | src/adapters/im/poller/poller.go:128-133 | two sets end equal under the same updates exactly when they agree on every chat these do not command |
| Poller.Poller.HandleUpdate | src/adapters/im/poller/poller.go:140-156 | memory follows the command even when the write fails; anything but a command touches nothing |
| Poller.Poller.Poll | src/adapters/im/poller/poller.go:88-136 | a failed request changes nothing; an answer is folded into memory in order and the offset passes it whatever the disk does; a crash at any moment leaves the old file or the set after some of the updates |
| PollerRuns.PollResumes | src/adapters/im/poller/poller.go:97-103 | a request confirms exactly the updates handled so far |
| PollerRuns.StepKeepsInv | src/adapters/im/poller/poller.go:88-136 | requests, lost answers, handling and crashes keep positions, offset and memory in step with the log |
| PollerRuns.EveryUpdateOnceInOrder | src/adapters/im/poller/poller.go:69-136 | from any state of any run until the next crash, whatever requests and writes fail, each update is applied once in order, the offset never decreases, and memory is the fold of the updates handled; without any crash these are all the updates from the first |
| PollerRuns.PollHandlesItsAnswer | src/adapters/im/poller/poller.go:128-133 | a request and the handling of its answer do to memory and offset what one call of Poll does |
| PollerRuns.EveryRunCanCatchUp | src/adapters/im/poller/poller.go:88-136 | from any state of any run the poller can handle what it has, request the rest and handle it, and has then applied every update from where it stood |
| PollerRuns.CrashInsidePoll | src/adapters/im/poller/poller.go:128-156 | every state of the disk during one call of Poll holds the file of a state that a run reaches by handling some updates of the answer, so a crash inside the call is a crash of a run |
| PollerRuns.StepKeepsDurable | src/adapters/im/poller/poller.go:128-156 | file and memory each come out right once the updates they lack are applied again, as long as nothing is confirmed while the file lags |
| PollerRuns.RestartConverges | src/adapters/im/poller/poller.go:128-156 | in every run from the start with any number of crashes anywhere, under that premise, memory is the set that applying every update once gives as soon as the poller is back where it ever was |
| PollerRuns.WritingConverges | src/adapters/im/store/store.go:29-42 | a run whose writes all succeed meets the premise, so it converges wherever it crashes |
| PollerRuns.RestartConvergesIff | src/adapters/im/poller/poller.go:128-156 | without the premise: in any run, a crash and what follows it up to the next one give the right set if and only if the file was right about every chat that the updates handled again do not command |
| PollerRuns.FileIsLastWrite | src/adapters/im/poller/poller.go:140-156 | without a crash, whatever requests and writes fail, the file is memory as it was after the last command that was written |
| PollerRuns.CrashLosesIff | src/adapters/im/poller/poller.go:128-156 | after any run without a crash, a crash and what follows it give the right set if and only if the updates between the last write and the last confirmation change no chat but those commanded again; always once the poller is back at the last write, when that came after the last confirmation |
| PollerRuns.UnwrittenCommandIsLost | src/adapters/im/poller/poller.go:128-133 | a run in which a failed write, a confirmation and a crash lose a subscriber |
| Frames.LengthOfBytes | src/ipc/frame.go:20-21 | every 32-bit length is read back from its four bytes |
| Frames.HighestFirst | src/ipc/frame.go:20-21 | the highest byte of a length comes first |
| Frames.FramesRead | src/ipc/frame.go:36-55 | frames are read as their payloads, and then comes what the stream holds behind them |
| Frames.ReadsExactlyWhatWasWritten | src/ipc/frame.go:15-55 | a stream is read as some payloads and a clean end if and only if it is what writing those payloads gives, none too large |
| Frames.CutReadsWholeFrames | src/ipc/frame.go:36-55 | a stream cut at any byte is read as exactly the whole frames before the cut, then a clean end on a boundary and a protocol error elsewhere |
| Frames.WholeIsGreatest | src/ipc/frame.go:36-55 | these are as many frames as fit before the cut |
| FrameIO.WriteFrame | src/ipc/frame.go:15-30 | an oversized payload leaves nothing behind; any other is written whole, or as far as the sink goes, with an error exactly if it does not go all the way |
| FrameIO.Source.ReadFull | src/ipc/frame.go:38-52 | the buffer is filled with the next bytes however they arrive; the end of the file is reported as such only before the first byte |
| FrameIO.Source.ReadFrame | src/ipc/frame.go:36-55 | one frame as the stream format has it, EOF between frames, a protocol error otherwise |
| Hotkeys.OpensIsHoldStart | src/modules/listener/listener.go:60-78 | a hold in progress was opened by exactly one press: one with no release since, and no earlier such press |
| Hotkeys.StateTracksHold | src/modules/listener/listener.go:54-120 | after any trace, the flags and the box are those of the hold in progress |
| Hotkeys.ReleaseRecordsBounds | src/modules/listener/listener.go:70-77 | after any trace, an event records bounds if and only if it releases a hold with a move and no key-down, and the box is the exact bounding box of the press point and all moves of the hold |
| Hotkeys.KeysActInHold | src/modules/listener/listener.go:107-120 | after any trace, an event moves the prompter one way, or changes its opacity or font size, if and only if it presses the key for that while a hold is in progress |
| Hotkeys.KeyCallIs | src/modules/listener/listener.go:109-118 | which key asks for which move or change, and no key for two of them |
| Hotkeys.TogglesOnPressEdge | src/modules/listener/listener.go:86-94 | after any trace, an event toggles if and only if it presses the toggle key and the last event of that key was no press |
| ListenerChannels.BoxIsNotFlipped | src/modules/listener/listener.go:177 | truncation keeps the corners of a recorded box in order |
| ListenerChannels.RectanglesGrow | src/modules/listener/listener.go:70-77 | a trace records one rectangle with each event that releases a hold with a move and no key-down, that of the exact bounding box of the hold, and none with any other event |
| ListenerChannels.LastReleaseIsHeld | src/modules/listener/listener.go:170-183 | with nobody receiving, the channel of bounds holds the rectangle of the last recording release of the trace, and nothing if there was none |
| ListenerChannels.TrackerGetsLatest | src/modules/listener/listener.go:170-183 | whoever receives, between any two steps: the tracker gets the rectangles of the trace with some left out, in order, and the last of them has arrived or waits whenever the callback rests |
| ListenerChannels.PressesAreHeld | src/modules/listener/listener.go:159-194 | with nobody receiving, the channels of triggers and toggles hold one for each press of the trace, up to ten |
| ListenerChannels.FirstOrLastIsHeld | src/modules/listener/listener.go:197-230 | with nobody receiving, the channel of grid positions holds the last value it was given, those of opacities and font sizes the first |
| Listener.Listener.EventCallback | src/modules/listener/listener.go:41-123 | each event takes one step of the tracked state and puts its calls into the channels |
| Listener.Listener.HandleAll | src/modules/listener/listener.go:54-120 | any trace, event by event, brings the listener to the state, and its channels to the contents, that the trace lemmas are about |
| Listener.Listener.GoRecordBounds | src/modules/listener/listener.go:170-183 | drain and send leave the latest rectangle waiting, as the producer's three steps in the mailbox do |
| Listener.Listener.PositionChangeXY | src/modules/listener/listener.go:197-210 | the latest direction replaces the one that waits |
| Mailbox.StepKeepsInv | src/modules/listener/listener.go:170-183 | drain and send, with receives in between, keep order, counts and the latest value |
| Mailbox.LatestWins | src/modules/listener/listener.go:170-183 | in every run from the empty mailbox with one producer, no send finds the slot taken; the consumer gets a subsequence of what the producer was given, and the last of it has arrived or waits whenever the producer rests |
| Mailbox.LatestCanArrive | src/modules/listener/listener.go:170-183 | from every state of every run the last value the producer was given can arrive |
| CaptureGeometry.ComputeCaptureRect | src/modules/capturer/capturer.go:68-108 | there is a rectangle to capture if and only if the source rectangle meets the screen, and it is their intersection |
| CaptureGeometry.MeetsIffCommonPoint | src/modules/capturer/capturer.go:88-105 | meeting means having a point in common |
| CaptureGeometry.CapturedPoints | src/modules/capturer/capturer.go:68-108 | the points captured are those on the screen and within the bounds, if there are any; else all of the screen for a window at least as large, and what of the window is on the screen for any other |
| CaptureGeometry.CanvasPoints | src/bridges/browser/browser.go:12-55 | a window has a canvas if and only if it is a known browser's and higher than its toolbar of 74, 88 or 90 points, and it is all of the window below that |
| Geometry.TruncTowardsZero | src/pipeline/process.go:266-269 | conversion to an integer drops what is behind the point, whatever the sign |
| Cropping.CapturedWindowHasSize | src/modules/capturer/capturer.go:68-108 | a window of width or height 0 is never captured, so no crop divides by it |
| Cropping.CropIsPartOfImage | src/pipeline/process.go:271-277 | whatever the canvas, the crop is the part of the image that lies in the scaled canvas, and the whole image when none does |
| Cropping.CropShowsContentIff | src/pipeline/process.go:259-278 | for every browser window with content on the screen, the crop shows exactly the visible content if and only if the window spans its capture to the left, right and below and rows * height <= toolbar * pixels < (rows + 1) * height, with rows the pixel rows of visible toolbar and pixels the height of the image |
| Cropping.SmallWindowSpans | src/modules/capturer/capturer.go:70-98 | a window that is not at least as wide and as high as the screen spans its capture |
| Cropping.UpperEdgeOnScreen | src/pipeline/process.go:259-278 | such a window, with its upper edge on the screen, is cropped right if and only if its lower edge is on the screen, whatever its sides |
| Cropping.OverLowerEdge | src/pipeline/process.go:259-278 | over the lower edge, with its upper edge on the screen, the crop begins above the content: some toolbar is left |
| Cropping.OverUpperEdge | src/pipeline/process.go:259-278 | over the upper edge by at most its toolbar, with its lower edge on the screen, the crop never begins above the content, and is right if and only if k * cut * (height - toolbar) < height |
| Cropping.CropBeginsWhere | src/pipeline/process.go:259-278 | for every browser window with content on the screen, the crop begins above the content if and only if toolbar * pixels < rows * height, and below it if and only if (rows + 1) * height <= toolbar * pixels |
| Cropping.OverBothEdges | src/pipeline/process.go:259-278 | over both edges pixels is k * screen height, so it begins above the content if and only if toolbar * k * screen height < rows * height, and below it if and only if (rows + 1) * height is at most that |
| Cropping.BrowserIsCroppedToContent | src/pipeline/process.go:259-278 | a browser window on the screen, captured at k pixels to the point, is cropped to k * width by k * (height - toolbar) pixels, k * toolbar down |
| Cropping.OnScreenIsCapturedWhole | src/modules/capturer/capturer.go:70-98 | a window on the screen is captured as it is |
| Cropping.SomeWindowIsCroppedTooFar | src/pipeline/process.go:259-278 | a window with half of its toolbar over the upper edge that is cropped too far |
| Cropping.SomeWindowIsCroppedTooLittle | src/pipeline/process.go:259-278 | a window over the lower edge that is cropped too little |
| Cropping.JustOverBothIsCroppedTooLittle | src/pipeline/process.go:259-278 | a window over both edges that is cropped too little |
| Cropping.HalfOverBothIsCroppedTooFar | src/pipeline/process.go:259-278 | a window over both edges that is cropped too far |

## Left out

- Goroutines and channels of the pipeline are steps of a transition system, not imperative code: Dafny has no threads. That each capture and analyse call returns is taken for granted.
- The capture, OCR and AI steps inside a capture or an analysis are outcomes; their timeouts, `lastCaptureTime`, `lastWindowTitle` and the log lines are not modelled.
- LogBroker.LogBroker.Unsubscribe: deletes and closes in one call of the class; the gap between the two, and what may happen in it, is in `LogProtocol`.
- SlogLine.ParseSlogLine: the parsing of RFC 3339 times and the clock are parameters, and lines are sequences of characters, so text that is not valid UTF-8 is not modelled.
- AttrsToArgs (`src/helpers/logger/logger.go`): the attributes as a list in map order; only the values in it are modelled.
- MarkdownConverter.ConversionKeepsMeaning: the reader knows only the syntax listed above, and no escapes inside code. It reads a bare `__` as two delimiters and Telegram as underlining; `Underscores.DoubledIff` says for which texts one is emitted.
- Spans that cross a chunk boundary: each chunk is converted by itself, as in the code, so the meaning is kept chunk by chunk.
- Sender.Sender.SendTo: for positive chunk sizes; `Sender.Sender.SendRounds` says what the loop does with any other.
- Sender.Sender.Broadcast: for positive chunk sizes, as SendTo.
- Sender.Sender.SendChunk: the pause before a retry and the parsing of its length are not modelled, only whether the context ends in it.
- JSON, HTTP and sockets: an answer is one of accepted, rate limited or refused; a poll's answer is a list of updates or one of three failures.
- Store.Store.New: read errors other than a missing file, and the scanner's limit of 64 KiB to a line, are not modelled.
- Store.Store.Persist: rename is taken as one step; fsync and file modes are not modelled.
- PollerRuns.EveryUpdateOnceInOrder: identifiers are below the greatest 64-bit number; `Poller.NextOffset` wraps there as the code does.
- The poller's loop, back-off and activation switch only decide when the next request is made.
- FrameIO.Source.ReadFrame: a source gives at least a byte when it has one; read deadlines are not modelled.
- Listener.Listener.EventCallback: coordinates and scales are real numbers, without rounding, overflow or NaN, and the check that a listener is registered is left out.
- The drain of all channels on shutdown is a consumer like any other in `Mailbox`.
- Cropping.CropIsPartOfImage: for windows of some width and height; by `Cropping.CapturedWindowHasSize` the code crops no other.
- CaptureGeometry.CropToCanvas: the result is the rectangle of the cropped image, not its pixels; the scale is a real number.
- AppKit overlay, trackers of opacity, font size and grid position, Vision, CoreGraphics, AppleScript and the Anthropic client are foreign calls.
- PID file, configuration, command line, factories and the IPC client: single branches or other systems' behaviour.
