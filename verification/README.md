# lichess-bot-builder: decoder, game session and dispatcher in Dafny

This project models the core of the Java library `lichess-bot-builder`. The library connects a
chess engine to a Lichess bot account, and the model covers three parts of it.

- **The streaming JSON decoder** (`LichessRestClient.stream`, and its byte-identical earlier copy
  `LichessBot.processStream`). It reads the server's event stream and hands each object it finds
  to a value processor.
  - The Jackson parser is abstracted as the finite list of tokens `nextToken` would return, ending
    where `nextToken` returns `null`.
  - An object is one token: `readValue` consumes it whole.
  - The processor passes state along, so each caller's effects are threaded through the values in
    the order they are delivered.
  - Module `Decoder` defines the decoder as written (`Stream`), including its non-terminating skip
    loop. It also defines the corrected decoder (`StreamFixed`) that the rest of the model uses, and
    a reference description (`Predicted`: the maximal run of objects) that both are proved equal to.
  - Module `BotStream` writes the earlier copy as the Java loop itself (a `token` variable, a
    `scanMore` flag), as a method. It proves that the method computes `Decoder.Stream`.
- **The per-game session** (`LichessGameRunner`, and the earlier `LichessBot.GameRunner`). Each
  decoded game event either advances the session or throws.
  - The session keeps only its colour.
  - Everything else it does is recorded in a trace: board set-up, state updates, move and chat
    questions to the engine with their answers, and POST requests with the server's replies.
  - The engine and the server are parameters: functions of the trace so far.
  - Modules:
    - `Sessions`: the shared state, the trace, and the turn rule (`isMyMove`).
    - `Moves`: move normalisation and the resign / play / reject decision.
    - `GameRunner`: the later revision.
    - `LegacyRunner`: the earlier revision, with lemmas saying where the two agree and where they
      differ.
- **The account-event dispatcher** (`LichessBot.listen`). A challenge is answered with exactly one
  accept or decline POST, and a game start submits exactly one session (module `Dispatcher`).

The remaining modules define the data:
- `GameEvents`, `Events`: the event tagged unions and their wire tags.
- `Accounts`: the account and its bot-title check.
- `Transport`: the POST requests, with their paths and bodies, and how `post` ends on each reply.
- `JavaText`: the `java.lang.String` operations the code uses:
  - `trim` removes characters up to `' '`;
  - `toLowerCase` and `equalsIgnoreCase` fold ASCII letters only (see "Left out");
  - `split(" ")` drops trailing empty strings and returns the whole string when it holds no space;
  - `%s` renders `null` as `"null"`.

Nullable Java strings are `Option<string>`. A method call on a `null` receiver is the
`NullReference` failure.

Two behaviours of the code are easy to miss, and the model follows the code:
- **Exceptions of the resign and chat POSTs.** Only the move POST swallows an `IOException`
  (LichessGameRunner.java:123-132). `resign` and `sendMessage` catch only the service rejection
  (:139-146, :67-74), so any other exception of those two POSTs leaves the event handler.
  - A JSON syntax error in the reply (a `JsonParseException`) is caught by the decoder's own
    `catch` around the handler call (LichessRestClient.java:126-131) and ends the session as the
    parse error.
  - Any other `IOException` ends the session as itself, through `run`'s rethrow
    (`GameRunner.ResignSubmitted`, `GameRunner.ChatRelay`).
  - The challenge answers of the dispatcher behave the same way (`Dispatcher.ChallengeAnswered`).
- **Moves after a resignation.** The session keeps no record of having resigned: a later state
  event on the bot's turn asks the engine again (`GameRunner.StateEvent` holds for every session).

A processor's answer for one value (`Decoder.Step`) is therefore one of three: go on, throw an
exception the decoder passes on unchanged, or throw a JSON syntax error, which the decoder cannot
tell from its own.

The earlier dispatcher and game runner compare the `type` field against string constants
(LichessBot.java:82, 88, 228, 235, 242). The event classes in this repository declare that field
as an enum instead. So the earlier revision is modelled on the tag as a string:
- `Events.RawEvent` with `Events.Classify`, for account events;
- `None` for an unknown or missing game-event tag, in `LegacyRunner.LegacyHandle`.

## Model

| member | source | states |
|---|---|---|
| Decoder.Stream | src/main/java/lichess/client/LichessRestClient.java:95-134 | The values the decoder delivers are bound-object tokens taken in order from the first token (or from the one after a leading `[`). An empty stream delivers nothing and returns normally. At most one token past the input, the end-of-input `null`, is read. |
| Decoder.StreamIsMaximalRun | src/main/java/lichess/client/LichessRestClient.java:109-133 | When the first token opens an array or an object, the decoder's run is the reference one. It hands the processor exactly the maximal run of bound objects from index 0 (bare) or 1 (after `[`), up to and including the value the processor throws on. It ends as the first token that is not a bound object dictates, and it reads exactly one token past the run. |
| Decoder.DeliverIsMaximalRun | src/main/java/lichess/client/LichessRestClient.java:111-133 | The main loop, started at any position, equals the reference maximal-run description (proved by induction). |
| Decoder.EmptyStream | src/main/java/lichess/client/LichessRestClient.java:97-107 | An empty stream calls the processor zero times, returns normally and leaves the state alone. |
| Decoder.ArrayOfObjects | src/main/java/lichess/client/LichessRestClient.java:111-129 | `[o1,…,oN]` delivers exactly o1…oN in order and returns normally after the closing bracket, whatever follows it. The final state is the processor folded over the values. |
| Decoder.BareObjects | src/main/java/lichess/client/LichessRestClient.java:109-129 | N bare top-level objects are all delivered in order, the first without advancing the parser, when the input ends or goes on with a token that is not an object. |
| Decoder.ProcessorFailureStops | src/main/java/lichess/client/LichessRestClient.java:126-131 | When the processor throws on value k of the run, values 0..k were delivered and no later token is read. The processor's exception is the outcome unchanged, except a JSON syntax error of its own, which the loop's `catch` turns into the parse error. |
| Decoder.ParseErrors | src/main/java/lichess/client/LichessRestClient.java:97-132 | Syntax errors at the start of the stream: on the very first `nextToken` the error escapes unwrapped; right after a leading `[` (at `nextToken` or at `readValue`), and in a first bare object, it becomes the parse error. |
| Decoder.ParseErrorInLoop | src/main/java/lichess/client/LichessRestClient.java:115-131 | Wherever a syntax error, at `nextToken` or at `readValue`, cuts the run of objects, and the processor accepted every value before it, the decoder has delivered the whole run, has read the faulty token and nothing after it, and ends in the parse error. |
| Decoder.DivergesIff | src/main/java/lichess/client/LichessRestClient.java:100-102 | The decoder fails to return exactly when the first token is neither `[`, `{` nor end of input, and no later token makes the tokenizer throw. |
| Decoder.ReadsNoFurther | src/main/java/lichess/client/LichessRestClient.java:116-121 | Nothing past the tokens the decoder reads affects its run: replacing the rest of the input leaves the result unchanged. |
| Decoder.SkipLoopHangs | src/main/java/lichess/client/LichessRestClient.java:100-102 | A stream holding one scalar makes the written decoder spin forever. The corrected decoder returns normally with nothing delivered. |
| Decoder.StreamFixed | src/main/java/lichess/client/LichessRestClient.java:99-102 | The decoder with the skip loop assigning `token` always returns. |
| Decoder.FixedAgrees | src/main/java/lichess/client/LichessRestClient.java:95-134 | The corrected decoder equals the written one on every input whose first token is not a stray one. |
| Decoder.FixedSkipsStray | src/main/java/lichess/client/LichessRestClient.java:99-102 | The corrected decoder skips the stray tokens before the first `[` or `{` and then behaves exactly like the written decoder started there. |
| Decoder.StrayOnly | src/main/java/lichess/client/LichessRestClient.java:99-107 | On an input of stray tokens only, the corrected skip loop reaches the end of input and returns normally without calling the processor. |
| Decoder.DeliverFolds | src/main/java/lichess/client/LichessRestClient.java:115-133 | The main loop's final state is the processor folded over the values it delivered. It ends by a processor exception exactly when that fold stops on one, with that exception (a processor's syntax error as the parse error). |
| Decoder.StreamFolds | src/main/java/lichess/client/LichessRestClient.java:95-134 | The written decoder's final state is the processor folded over what it delivered, and it ends by a processor exception exactly when that fold stops on one. |
| Decoder.StreamFixedFolds | src/main/java/lichess/client/LichessRestClient.java:95-134 | The corrected decoder's final state is the processor folded over what it delivered, and it ends by a processor exception exactly when that fold stops on one. |
| BotStream.ProcessStream | src/main/java/lichess/bot/LichessBot.java:107-146 | The earlier decoder loop, as written with its `token` variable and `scanMore` flag, computes the same run as `Decoder.Stream` on every input on which it returns. |
| BotStream.MainLoop | src/main/java/lichess/bot/LichessBot.java:121-145 | The earlier main loop, entered on `[` or `{`, computes the main loop of `Decoder` from the first value position. |
| Transport.Post | src/main/java/lichess/client/LichessRestClient.java:66-70 | `post` returns normally exactly on a positive acknowledgement. It throws the service error carrying the acknowledgement's `error` text exactly on a negative one, and lets the `IOException` of a failed exchange (an I/O failure, a reply that is not JSON, or one that does not bind) through unchanged exactly when the exchange fails. |
| Transport.PostAsWritten | src/main/java/lichess/client/LichessRestClient.java:143-146 | With the acknowledgement bound to the non-static inner class as written, `post` never returns normally: a failed exchange throws what `Post` throws, and every well-formed acknowledgement throws a mapping exception. |
| Transport.AckNeverBinds | src/main/java/lichess/client/LichessRestClient.java:66-70 | A positive acknowledgement ends the written `post` with a mapping exception, where the intended `post` returns normally. |
| Sessions.TurnParity | src/main/java/lichess/bot/LichessGameRunner.java:86-100 | It is the bot's move exactly when its colour is the side to move. No half-moves are counted for a null or blank history; otherwise the count is one more than the spaces inside the trimmed history. White moves after an even count and Black after an odd one. |
| Sessions.OneSideMoves | src/main/java/lichess/bot/LichessBot.java:275-289 | For every history exactly one of White and Black is to move. The earlier `isMyMove` is the same text and is modelled by the same function. |
| Sessions.UnknownNeverMoves | src/main/java/lichess/bot/LichessGameRunner.java:86-100 | While the colour is unknown, no history is ever the bot's move. |
| Sessions.BlankHistoryIsWhites | src/main/java/lichess/bot/LichessGameRunner.java:87-89 | A null, empty or all-blank history is White's move. |
| Sessions.OneMoveIsBlacks | src/main/java/lichess/bot/LichessGameRunner.java:91-99 | After "e2e4" it is Black's move. |
| Sessions.TwoMovesAreWhites | src/main/java/lichess/bot/LichessGameRunner.java:91-99 | After "e2e4 e7e5" it is White's move. |
| Sessions.DoubledSpaceCountsExtra | src/main/java/lichess/bot/LichessGameRunner.java:91-99 | A doubled space counts an extra half-move: after "e2e4  e7e5" it is Black's move. |
| Sessions.CountedHistory | src/main/java/lichess/bot/LichessGameRunner.java:91-99 | For an unpadded history with k spaces it is Black's move exactly when k is even, and White's exactly when k is odd. |
| JavaText.SplitTrimmedCount | src/main/java/lichess/bot/LichessGameRunner.java:91 | `split(" ")` of a trimmed, non-blank string yields one more element than there are spaces; doubled spaces give empty elements. |
| Moves.DecideMeaning | src/main/java/lichess/bot/LichessGameRunner.java:102-121 | A null move is rejected. Otherwise the move, lower-cased then trimmed, resigns exactly when it is "resign", is played exactly when it is not "resign" and the move pattern accepts it, and is rejected otherwise, showing the normalised text. A played move is in normal form. |
| Moves.NormaliseIdempotent | src/main/java/lichess/bot/LichessGameRunner.java:108 | Normalising a normalised move leaves it unchanged. |
| Moves.UciMoveIsNormal | src/main/java/lichess/bot/Engine.java:28-29 | A move in UCI notation is left unchanged by lower-casing and by normalisation. |
| Moves.LegacyDecide | src/main/java/lichess/bot/LichessBot.java:291-307 | The earlier rule recognises only a case-insensitive "resign", with no trimming. It plays exactly the other non-null moves of exactly four characters, posted as written, and shows a rejected move as written. |
| Moves.RevisionsAgreeOnPlainMoves | src/main/java/lichess/bot/LichessBot.java:297-302 | On a plain four-character UCI move both revisions play the move unchanged. |
| Moves.RevisionsAgreeOnResign | src/main/java/lichess/bot/LichessBot.java:297-299 | "resign" in any mix of cases, without padding, resigns in both revisions. |
| Moves.PromotionRejectedByLegacy | src/main/java/lichess/bot/LichessBot.java:300-302 | The earlier length check rejects the promotion "e7e8q", which the later revision plays. |
| Moves.PaddedUpperCaseMoveIsPlayed | src/main/java/lichess/bot/LichessGameRunner.java:108-115 | The later revision plays " E2E4 " as "e2e4". |
| Moves.PaddedMoveRejectedByLegacy | src/main/java/lichess/bot/LichessBot.java:297-302 | The earlier revision rejects the padded move " E2E4 ". |
| Moves.UpperCaseMovePostedByLegacy | src/main/java/lichess/bot/LichessBot.java:309-311 | The earlier revision posts "E2E4" unnormalised. |
| Moves.UpperCaseResign | src/main/java/lichess/bot/LichessGameRunner.java:108-112 | "RESIGN" resigns. |
| Moves.BadSquareRejected | src/main/java/lichess/bot/LichessGameRunner.java:113-120 | "e2e9" names no square and is rejected. |
| GameRunner.AssignColor | src/main/java/lichess/bot/LichessGameRunner.java:76-84 | The colour is assigned exactly when the account id is non-null and one of the two ids equals it; null ids never match. The assigned side's participant has the account id, and White wins when both match (Black only when the white id differs). Otherwise the mismatch names both ids and the account's. |
| GameRunner.MoveAsked | src/main/java/lichess/bot/LichessGameRunner.java:102-133 | A move request asks the engine exactly once, before anything else. It never changes the colour, and the only exceptions it throws itself are the contract violation and an `IOException` of the resign POST. |
| GameRunner.ResignSubmitted | src/main/java/lichess/bot/LichessGameRunner.java:139-146 | An answer that normalises to "resign" issues the resign POST and no other request. The session goes on exactly when the server acknowledges, a rejection being only logged. A reply that is not JSON ends the stream as the parse error; any other failure throws as itself. |
| GameRunner.Escalate | src/main/java/lichess/bot/LichessGameRunner.java:67-74 | After a POST that catches only the service rejection, the handler goes on exactly when the POST returned or was rejected. A JSON syntax error is handed to the decoder as one of its own, and every other `IOException` escapes as itself. |
| GameRunner.MoveSubmitted | src/main/java/lichess/bot/LichessGameRunner.java:122-132 | An answer that normalises to an accepted move issues exactly one POST to `api/bot/game/{id}/move/{normalised}`. The session goes on whatever the server replies, a rejection and an I/O failure included. |
| GameRunner.MoveRejected | src/main/java/lichess/bot/LichessGameRunner.java:105-120 | A null answer, or one that is neither "resign" nor an accepted move, throws the contract violation with the normalised text and issues no request. |
| GameRunner.ResignScenario | src/main/java/lichess/bot/LichessGameRunner.java:108-112 | An engine answering "RESIGN" has the game resigned and nothing else requested. |
| GameRunner.BadMoveScenario | src/main/java/lichess/bot/LichessGameRunner.java:113-120 | With UCI moves as the pattern, the answer "e2e9" throws and nothing is posted. |
| GameRunner.ChatRelay | src/main/java/lichess/bot/LichessGameRunner.java:40-46 | A chat line reaches the engine exactly when the room is "player" and the sender is not the bot; otherwise nothing changes. The answer is posted, with body `room=player&text=` + answer, exactly when it is non-null and non-blank. After that POST the handler goes on exactly when the server acknowledged; a reply that is not JSON becomes the parse error, any other failure throws as itself. Without that POST, only a null room or a null sender in the player room throws, as a null reference. The colour and move count stay the same. |
| GameRunner.OwnChatIgnored | src/main/java/lichess/bot/LichessGameRunner.java:41 | The bot's own lines in the player room are not shown to the engine. |
| GameRunner.FullEvent | src/main/java/lichess/bot/LichessGameRunner.java:49-56 | A full-game event either throws the identity mismatch before any engine call, or does three things in order: it sets the colour; it initialises the board, telling the engine whether it is White; and it forwards the embedded state. It then asks for a move exactly when the assigned colour is the side to move. |
| GameRunner.StateEvent | src/main/java/lichess/bot/LichessGameRunner.java:58-63 | A state event keeps the colour and forwards the state first. It asks for a move exactly when the session's colour is the side to move, whatever happened before (a resignation included); otherwise it does nothing else. |
| GameRunner.EventKeepsHistory | src/main/java/lichess/bot/LichessGameRunner.java:38-65 | Handling an event only appends to the session's history, and only a full-game event changes the colour. |
| GameRunner.BlackWaitsForWhite | src/main/java/lichess/bot/LichessGameRunner.java:49-56 | The bot playing Black from an empty history initialises the board as Black, forwards the state and does not ask for a move. |
| GameRunner.UncolouredStep | src/main/java/lichess/bot/LichessGameRunner.java:58-63 | While no colour is assigned, an event that is not a full-game event keeps the colour unknown and asks for no move. |
| GameRunner.NoMoveBeforeFull | src/main/java/lichess/bot/LichessGameRunner.java:58-62 | Over any sequence of events before the first full-game event, the engine is never asked for a move and the colour stays unknown. |
| GameRunner.RunGame | src/main/java/lichess/bot/LichessGameRunner.java:28-35 | The session `run` leaves behind is the handler folded over the events the decoder delivered. `run` rethrows a handler's exception exactly when that fold stops on one (a handler's JSON syntax error as the parse error). It returns exactly when the stream ends normally, and otherwise rethrows whatever ended it, a parse error or an unwrapped fault of the stream included. |
| GameRunner.EmptyGame | src/main/java/lichess/bot/LichessGameRunner.java:28-35 | A game with no events returns with nothing done. |
| GameRunner.GameOfArray | src/main/java/lichess/bot/LichessGameRunner.java:28-35 | A game stream that is an array of events, all handled without throwing, returns normally in the state the events lead to. |
| GameRunner.HandlerFailureEndsGame | src/main/java/lichess/bot/LichessGameRunner.java:28-35 | When the handler throws on event k, `run` rethrows that exception in the state it left (a JSON syntax error of the handler's as the parse error), and no later event is handled. |
| GameRunner.ParseErrorEndsGame | src/main/java/lichess/bot/LichessGameRunner.java:28-35 | A syntax error in the first event of the game stream ends the game as a parse error, with nothing done. |
| LegacyRunner.LegacyAssignColor | src/main/java/lichess/bot/LichessBot.java:265-273 | The earlier colour rule assigns White whenever the white id is present and matches, and Black whenever the white id is present and differs and the black id matches. It throws a null reference exactly when the white id is null, or when the white id does not match and the black id is null; otherwise it fails only with the mismatch. |
| LegacyRunner.ColorsAgree | src/main/java/lichess/bot/LichessBot.java:265-273 | With both ids present, the two revisions assign the same colour or throw the same mismatch. |
| LegacyRunner.NullWhiteIdThrows | src/main/java/lichess/bot/LichessBot.java:266 | A game whose White has no id throws in the earlier revision even when the bot is Black; the later revision assigns Black. |
| LegacyRunner.MovesAgree | src/main/java/lichess/bot/LichessBot.java:291-320 | On a plain four-character UCI answer, or "resign" in any case, both revisions make the same request and end the same way. |
| LegacyRunner.StateEventsAgree | src/main/java/lichess/bot/LichessBot.java:242-246 | A state event is handled identically by both revisions unless it is the bot's move and the engine's answer is neither a plain four-character move nor "resign". |
| LegacyRunner.PromotionEndsLegacySession | src/main/java/lichess/bot/LichessBot.java:300-306 | An engine promoting a pawn ends the earlier session with the contract violation; the later one posts the move. |
| LegacyRunner.LegacyFullEvent | src/main/java/lichess/bot/LichessBot.java:235-241 | The earlier revision initialises the board from the FEN alone, forwards the embedded state, and asks for a move exactly when the assigned colour is the side to move. |
| LegacyRunner.LegacyMoveAsked | src/main/java/lichess/bot/LichessBot.java:291-320 | Every earlier move request asks the engine exactly once, first, and keeps the colour. |
| LegacyRunner.UntaggedEvent | src/main/java/lichess/bot/LichessBot.java:227-247 | An event with no `type` field is skipped by the earlier revision; the later `switch` throws on it. |
| LegacyRunner.LegacyRunGame | src/main/java/lichess/bot/LichessBot.java:224-253 | The session the earlier `run` leaves behind is the earlier handler folded over the delivered events. It rethrows a handler's exception exactly when that fold stops on one. It returns exactly when the stream ends normally, and otherwise rethrows whatever ended it, a parse error or an unwrapped fault of the stream included. |
| LegacyRunner.LegacyGameOfArray | src/main/java/lichess/bot/LichessBot.java:224-253 | An earlier game stream that is an array of events, all handled without throwing, returns normally in the state the events lead to. |
| LegacyRunner.LegacyHandlerFailureEndsGame | src/main/java/lichess/bot/LichessBot.java:224-253 | When the earlier handler throws on event k, `run` rethrows that exception in the state it left (a JSON syntax error as the parse error), and no later event is handled. |
| Dispatcher.ChallengeAnswered | src/main/java/lichess/bot/LichessBot.java:82-87 | A challenge is answered by exactly one POST, to `api/challenge/{id}/accept` when the policy accepts it and `…/decline` otherwise. The stream goes on exactly when the server acknowledges, negatively included. A reply that is not JSON ends it as the parse error; any other failure throws as itself. |
| Dispatcher.GameStartSpawns | src/main/java/lichess/bot/LichessBot.java:88-90 | A game start submits exactly one session, bound to that game's id, and does nothing else. |
| Dispatcher.OtherTagsIgnored | src/main/java/lichess/bot/LichessBot.java:81-91 | Any other tag, or none, does nothing. |
| Dispatcher.ListenStep | src/main/java/lichess/bot/LichessBot.java:81-91 | One event adds exactly the answer it calls for and the session it starts. |
| Dispatcher.EveryEventHandled | src/main/java/lichess/bot/LichessBot.java:81-91 | Over events none of which throws, every challenge is answered exactly once and every game start submits exactly one session, both in order; nothing else is requested or submitted. |
| Dispatcher.ListenToArray | src/main/java/lichess/bot/LichessBot.java:79-93 | An account stream that is an array of events whose POSTs all get a reply returns normally, having delivered every event, answered every challenge and started every game. |
| Dispatcher.ListenAll | src/main/java/lichess/bot/LichessBot.java:79-93 | What `listen` leaves behind is the event router folded over the delivered events, and it ends by a router exception exactly when that fold stops on one. On the corrected decoder it always returns. |
| Dispatcher.ListenEffects | src/main/java/lichess/bot/LichessBot.java:79-93 | On any account stream, when no router call throws, the requests made are exactly the answers the delivered challenges call for, and the sessions submitted are exactly the delivered game starts, in order. |
| Accounts.IsBotMeans | src/main/java/lichess/bot/model/Account.java:12 | An account is a bot exactly when its title is present and spells "bot" in any mix of cases: no trimming, no prefix, no suffix. |
| Accounts.IsBotExamples | src/main/java/lichess/bot/model/Account.java:12 | A null title, " bot" and "bots" are not bot titles; "BOT", "Bot" and "bOt" are. |
| Accounts.ValidateIsIsBot | src/main/java/lichess/bot/LichessBot.java:171 | The title check in `validate` accepts exactly the accounts `isBot` accepts. |
| GameEvents.ParseTag | src/main/java/lichess/bot/model/GameEvent.java:33-37 | Binding a game-event tag succeeds only on the name of a tag, and fails exactly on a string that names none. |
| GameEvents.TagRoundTrip | src/main/java/lichess/bot/model/GameEvent.java:33-37 | "gameFull", "gameState" and "chatLine" map one-to-one to the three tags: naming a tag and binding the name gives the tag back. |
| Events.ParseEventTag | src/main/java/lichess/bot/model/Event.java:27-30 | Binding an account-event tag succeeds only on the name of a tag, and fails exactly on a string that names none. |
| Events.EventTagRoundTrip | src/main/java/lichess/bot/model/Event.java:27-30 | "challenge" and "gameStart" map one-to-one to the two tags, and naming then binding round-trips. |
| Events.Classify | src/main/java/lichess/bot/LichessBot.java:82-88 | A string-tagged account event stands for a typed event exactly when its tag names one, and that event's tag is the string. |

## Left out

- HTTP transport is not modelled: connections, the bearer token, and the GET of the streams and the account (LichessRestClient.java:36-65, 90-93, 136-141; LichessBot.java:175-208). A POST is a record in the trace; the server's reply is a function of everything done before it.
- The thread pool (`MAX_NUMBER_GAMES`, `newFixedThreadPool`) is not modelled. Submitting a game is the `Spawned(gameId)` record, sessions share no state, and the fresh `newEngineInstance()` each session gets is not modelled.
- Jackson itself is abstracted. JSON syntax, field binding and `FAIL_ON_UNKNOWN_PROPERTIES` become the token list. An object the mapper cannot bind, such as an unknown game-event tag, is a `BadObj(Mapping)` token and escapes the decoder unwrapped.
- Chess is not modelled: move legality, FEN and clock arithmetic. Clocks are 64-bit values forwarded untouched.
- The engine is an oracle of the trace. Engine exceptions are not modelled.
- `Engine.initializeBoardState` is declared with one argument in Engine.java:14, but the later runner calls it with two (LichessGameRunner.java:51). The model records both calls as written.
- `VALID_MOVE_PATTERN` is not part of this model: it is the `validMove` parameter of a runner. `Moves.UciMove` (UCI notation with an optional promotion piece) is a stand-in used only in the lemmas that name it.
- Null `User`, `GameState` and `challenge`/`game` objects inside an event are not modelled; only null strings are.
- The `Full` fields the code never reads (id, rated, variant, clock, speed, perf, createdAt) are not modelled.
- Case folding covers ASCII letters only. What `toLowerCase` and `equalsIgnoreCase` do to other characters is not modelled.
- Moves.UpperCaseResign: holds only under a default locale without the Turkic dotted/dotless i rule. `toLowerCase()` uses the default locale, and under a Turkish or Azeri one "RESIGN" lowers to "resıgn", which is not a resignation.
- GameRunner.ResignScenario: holds only under a default locale without the Turkic i rule, for the same reason.
- Moves.RevisionsAgreeOnResign: holds only under a default locale without the Turkic i rule, for the same reason.
- Moves.LegacyDecide: `length()` counts UTF-16 code units while the model counts characters. The two differ on characters outside the Basic Multilingual Plane, so such a move is not modelled.
- The token list admits inputs Jackson never produces, such as a stream starting with `]`, on which the first `nextToken` throws.
- Console logging, the constructor, bot registration, `SimpleLichessBot` and `ResigningChessEngine` are not modelled.
- BotStream.ProcessStream: it is a method, so it cannot express non-termination. It requires that the written decoder returns on the input; the inputs on which it hangs are characterised by `Decoder.DivergesIff`.
- GameRunner.RunGame: it streams through the corrected decoder `Decoder.StreamFixed` (see Findings), so a stray first token is skipped rather than hanging the session.
- LegacyRunner.LegacyRunGame: it streams through the corrected decoder, so a stray first token is skipped rather than hanging the session.
- Dispatcher.ListenAll: it streams through the corrected decoder, so a stray first token is skipped rather than hanging the dispatcher.
- Every POST goes through the intended `Transport.Post`. The later runner's POSTs go through `LichessRestClient.post`, whose as-written binding is `Transport.PostAsWritten` (see Findings): as written, each of its resign and chat POSTs would end the session with a mapping exception, and each move POST would be logged as failed. The earlier runner and the dispatcher post through `LichessBot.post` (LichessBot.java:184-201), which binds a different acknowledgement class from the model package; that class is not part of this model, and those POSTs are modelled by `Transport.Post` as well.

## Findings

| source | as written | input that shows it | evidently intended | confidence | as-written member | corrected member |
|---|---|---|---|---|---|---|
| src/main/java/lichess/client/LichessRestClient.java:100-102 (and LichessBot.java:112-114) | the skip loop calls `parser.nextToken()` but never assigns `token`, so it tests the same first token forever | a stream whose first token is a scalar, such as the single token `42` | each token read replaces `token`, so the loop stops at the first `[`, `{` or the end of input, as its comment says | high (not executed) | Decoder.SkipLoopHangs | Decoder.FixedSkipsStray |
| src/main/java/lichess/bot/LichessBot.java:266 | the earlier `setMyColor` calls `white.id.equals(userId)` without a null check | a full-game event whose White has a null id while the bot plays Black | null ids never match and the black id is checked next, as the later revision does | medium (not executed) | LegacyRunner.NullWhiteIdThrows | GameRunner.AssignColor |
| src/main/java/lichess/bot/LichessBot.java:300 | the earlier `makeMove` rejects every move whose length is not 4 | the engine answering the promotion "e7e8q" | every UCI move is accepted, promotions included, as the later revision's move pattern does | medium (not executed) | LegacyRunner.PromotionEndsLegacySession | GameRunner.MoveSubmitted |
| src/main/java/lichess/client/LichessRestClient.java:143-146 (bound at :67) | the acknowledgement type `OkErrorResponse` is a non-static inner class, whose only constructor takes the enclosing client, which Jackson cannot supply | any POST whose reply is well-formed, such as `{"ok":true}` to a resign | the acknowledgement binds (a static nested class), and `post` returns normally on `ok` and throws the service error otherwise | medium (not executed) | Transport.AckNeverBinds | Transport.Post |
