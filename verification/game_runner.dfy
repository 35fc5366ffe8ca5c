/**
 * `LichessGameRunner`: one game session driven by its decoded event stream.
 * Each event either moves the session to a new state, leaving engine calls
 * and requests behind in its trace, or throws.
 */
module GameRunner {
  import opened Wrappers
  import opened JavaText
  import opened GameEvents
  import opened Transport
  import opened Moves
  import opened Accounts
  import opened Decoder
  import opened Sessions

  /**
   * The runner's fixed parts: the bot's account, the game it plays, its
   * engine, the server, and `VALID_MOVE_PATTERN` as a predicate.
   */
  datatype Runner = Runner(
    account: Account, gameId: JString, engine: Engine, net: Network, validMove: string -> bool)

  /** Appends one effect to the session's trace. */
  function Record(s: Session, e: Effect): Session
  {
    s.(trace := s.trace + [e])
  }

  /** One POST: records it with the server's reply and says how `post` ended. */
  function Send(r: Runner, s: Session, req: Request): (Session, PostResult)
  {
    var reply := r.net(s.trace, req);
    (Record(s, Posted(req, reply)), Post(reply))
  }

  // ------------------------------------------------------------ colour

  /** The participant playing `c`. */
  function Player(white: User, black: User, c: Color): User
    requires c != Unknown
  {
    if c == White then white else black
  }

  /**
   * `setMyColor`: the bot plays the side whose participant has its id, White
   * first; null ids never match, and if neither side matches it throws.
   */
  function AssignColor(white: User, black: User, me: JString): (r: Result<Color, Thrown>)
    ensures r.Success? <==> me.Some? && (white.id == me || black.id == me)
    ensures r.Success? ==> r.value != Unknown && Player(white, black, r.value).id == me
    ensures r == Success(Black) ==> white.id != me
    ensures r.Failure? ==> r.error == IdentityMismatch(white.id, black.id, me)
  {
    if white.id.Some? && white.id == me then Success(White)
    else if black.id.Some? && black.id == me then Success(Black)
    else Failure(IdentityMismatch(white.id, black.id, me))
  }

  // ------------------------------------------------------------ requests

  /**
   * How a handler goes on after a POST that catches only the service's
   * rejection: any `IOException` escapes, and one that is a JSON syntax error
   * is taken by the decoder's `catch` for its own.
   */
  function Escalate(s: Session, res: PostResult): (h: Step<Session, Thrown>)
    ensures h.state == s
    ensures h.Continue? <==> !res.Raised?
    ensures h.Malformed? <==> res == Raised(Syntax)
    ensures h.Stop? ==> h.error == IoFailure(res.fault)
  {
    match res
    case Raised(Syntax) => Malformed(s)
    case Raised(f) => Stop(s, IoFailure(f))
    case _ => Continue(s)
  }

  /** `sendMessage`: a rejection is logged, an `IOException` escapes. */
  function SendMessage(r: Runner, s: Session, text: string): Step<Session, Thrown>
  {
    var (s', res) := Send(r, s, ChatRequest(r.gameId, text));
    Escalate(s', res)
  }

  /** `resign`: a rejection is logged, an `IOException` escapes. */
  function Resign(r: Runner, s: Session): Step<Session, Thrown>
  {
    var (s', res) := Send(r, s, ResignRequest(r.gameId));
    Escalate(s', res)
  }

  /** `makeMove(engine.makeMove())`: ask the engine, then resign, post the move, or throw. */
  function MakeMove(r: Runner, s: Session): Step<Session, Thrown>
  {
    var answer := r.engine.move(s.trace);
    var s1 := Record(s, AskMove(answer));
    match Decide(answer, r.validMove)
    case ResignGame => Resign(r, s1)
    case Reject(shown) => Stop(s1, InvalidMove(shown))
    case Play(m) => Continue(Send(r, s1, MoveRequest(r.gameId, m)).0)  // every failure is logged
  }

  // ------------------------------------------------------------ events

  /** The chat branch of `processEvent`. */
  function OnChat(r: Runner, s: Session, user: JString, text: JString, room: JString): Step<Session, Thrown>
  {
    if room.None? then Stop(s, NullReference)
    else if room.value != "player" then Continue(s)
    else if user.None? then Stop(s, NullReference)
    else if user == r.account.username then Continue(s)
    else
      var answer := r.engine.chat(s.trace, user, text);
      var s1 := Record(s, AskChat(user, text, answer));
      if answer.None? || Trim(answer.value) == [] then Continue(s1)
      else SendMessage(r, s1, answer.value)
  }

  /**
   * `processEvent` (LichessGameRunner.java:38-65).  The decoded event is
   * `None` when the object had no `type` field, on which the `switch` throws.
   */
  function Handle(r: Runner, s: Session, ge: Option<GameEvent>): Step<Session, Thrown>
  {
    match ge
    case None => Stop(s, NullReference)
    case Some(Chat(user, text, room)) => OnChat(r, s, user, text, room)
    case Some(Full(white, black, fen, st)) =>
      (match AssignColor(white, black, r.account.id)
       case Failure(e) => Stop(s, e)
       case Success(c) =>
         var s1 := Session(c, s.trace + [InitBoard(fen, c == White), UpdateState(st)]);
         if IsMyMove(c, st.moves) then MakeMove(r, s1) else Continue(s1))
    case Some(State(st)) =>
      var s1 := Record(s, UpdateState(st));
      if IsMyMove(s.color, st.moves) then MakeMove(r, s1) else Continue(s1)
  }

  /** The event handler as the decoder's value processor. */
  function Processor(r: Runner): (Session, Option<GameEvent>) -> Step<Session, Thrown>
  {
    (s: Session, ge: Option<GameEvent>) => Handle(r, s, ge)
  }

  /** How `run` ends: it returns, or rethrows whatever stopped the stream as a `RuntimeException`. */
  datatype GameEnd = Returned | Rethrown(cause: Outcome<Thrown>)

  /**
   * `run`: streams the game's events into the handler, from a session with
   * no colour.  The session it leaves behind is the handler folded over the
   * events the decoder delivered; it rethrows a handler's exception exactly
   * when that fold stops on one, and a handler's JSON syntax error as a
   * parse error.  It returns exactly when the stream ends normally and
   * otherwise rethrows whatever ended it, a fault of the stream included.
   */
  function RunGame(r: Runner, toks: seq<Token<Option<GameEvent>>>): (g: (Session, GameEnd))
    ensures var a := Apply(Processor(r), Initial(), StreamFixed(toks, Processor(r), Initial()).delivered);
      && g.0 == a.state
      && (g.1.Rethrown? && g.1.cause.ProcessorFailed? <==> a.Stop?)
      && (a.Stop? ==> g.1 == Rethrown(ProcessorFailed(a.error)))
      && (a.Malformed? ==> g.1 == Rethrown(ParseError))
    ensures var run := StreamFixed(toks, Processor(r), Initial());
      && (g.1.Returned? <==> run.outcome.Ended?)
      && (g.1.Rethrown? ==> g.1.cause == run.outcome)
    ensures g.1.Rethrown? ==> !g.1.cause.Ended? && !g.1.cause.Diverges?
  {
    var run := StreamFixed(toks, Processor(r), Initial());
    StreamFixedFolds(toks, Processor(r), Initial());
    (run.state, if run.outcome.Ended? then Returned else Rethrown(run.outcome))
  }

  // ------------------------------------------------------------ requests and engine calls

  /** What one POST does to the trace: it appends the request and nothing else. */
  lemma SendShape(r: Runner, s: Session, req: Request)
    ensures var s' := Send(r, s, req).0;
      && s'.color == s.color
      && s'.trace == s.trace + [Posted(req, r.net(s.trace, req))]
      && Requests(s'.trace) == Requests(s.trace) + [req]
      && MoveAsks(s'.trace) == MoveAsks(s.trace)
  {
    RequestsAfter(s.trace, Posted(req, r.net(s.trace, req)));
    MoveAsksAfter(s.trace, Posted(req, r.net(s.trace, req)));
  }

  /**
   * Every move request asks the engine exactly once, first, and never
   * changes the colour.
   */
  lemma MoveAsked(r: Runner, s: Session)
    ensures var h := MakeMove(r, s);
      && h.state.color == s.color
      && s.trace + [AskMove(r.engine.move(s.trace))] <= h.state.trace
      && MoveAsks(h.state.trace) == MoveAsks(s.trace) + 1
      && (h.Stop? ==> h.error.IoFailure? || h.error.InvalidMove?)
  {
    var a := r.engine.move(s.trace);
    var s1 := Record(s, AskMove(a));
    MoveAsksAfter(s.trace, AskMove(a));
    match Decide(a, r.validMove)
    case ResignGame => SendShape(r, s1, ResignRequest(r.gameId));
    case Reject(_) =>
    case Play(m) => SendShape(r, s1, MoveRequest(r.gameId, m));
  }

  /**
   * An answer that normalises to "resign" issues the resignation and no
   * other request; a rejection is logged, and only an exception of the POST
   * ends the session: a syntax error in the reply as a parse error, any
   * other as itself.
   */
  lemma ResignSubmitted(r: Runner, s: Session)
    requires r.engine.move(s.trace).Some? && Normalise(r.engine.move(s.trace).value) == "resign"
    ensures var h := MakeMove(r, s);
      var asked := s.trace + [AskMove(r.engine.move(s.trace))];
      && Requests(h.state.trace) == Requests(s.trace) + [ResignRequest(r.gameId)]
      && var reply := r.net(asked, ResignRequest(r.gameId));
      && (h.Continue? <==> reply.Acked?)
      && (h.Malformed? <==> reply == Failed(Syntax))
      && (h.Stop? ==> h.error == IoFailure(reply.fault))
  {
    var a := r.engine.move(s.trace);
    DecideMeaning(a, r.validMove);
    RequestsAfter(s.trace, AskMove(a));
    SendShape(r, Record(s, AskMove(a)), ResignRequest(r.gameId));
  }

  /**
   * An answer that normalises to a well-formed move is posted, normalised, as
   * the only request; neither a rejection nor an I/O failure of the POST ends
   * the session.
   */
  lemma MoveSubmitted(r: Runner, s: Session)
    requires r.engine.move(s.trace).Some?
    requires var n := Normalise(r.engine.move(s.trace).value); n != "resign" && r.validMove(n)
    ensures var h := MakeMove(r, s);
      && h.Continue?
      && Requests(h.state.trace)
         == Requests(s.trace) + [MoveRequest(r.gameId, Normalise(r.engine.move(s.trace).value))]
  {
    var a := r.engine.move(s.trace);
    DecideMeaning(a, r.validMove);
    RequestsAfter(s.trace, AskMove(a));
    SendShape(r, Record(s, AskMove(a)), MoveRequest(r.gameId, Normalise(a.value)));
  }

  /**
   * A null answer, or one that is neither "resign" nor a well-formed move,
   * throws the contract violation and issues no request.
   */
  lemma MoveRejected(r: Runner, s: Session)
    requires var a := r.engine.move(s.trace);
      a.None? || (Normalise(a.value) != "resign" && !r.validMove(Normalise(a.value)))
    ensures var a := r.engine.move(s.trace);
      MakeMove(r, s)
      == Stop(Record(s, AskMove(a)), InvalidMove(if a.None? then None else Some(Normalise(a.value))))
    ensures Requests(MakeMove(r, s).state.trace) == Requests(s.trace)
  {
    var a := r.engine.move(s.trace);
    DecideMeaning(a, r.validMove);
    RequestsAfter(s.trace, AskMove(a));
  }

  /** An engine answering "RESIGN" has the game resigned and nothing else requested. */
  lemma ResignScenario(r: Runner, s: Session)
    requires r.engine.move(s.trace) == Some("RESIGN")
    ensures Requests(MakeMove(r, s).state.trace) == Requests(s.trace) + [ResignRequest(r.gameId)]
  {
    assert Lower("RESIGN") == "resign";
    TrimOfTrimmed("resign");
    ResignSubmitted(r, s);
  }

  /** With UCI moves as the pattern, an engine answering "e2e9" throws and nothing is posted. */
  lemma BadMoveScenario(r: Runner, s: Session)
    requires r.validMove == UciMove && r.engine.move(s.trace) == Some("e2e9")
    ensures MakeMove(r, s) == Stop(Record(s, AskMove(Some("e2e9"))), InvalidMove(Some("e2e9")))
  {
    BadSquareRejected();
  }

  // ------------------------------------------------------------ chat

  /** The chat lines the engine sees: in the player room and not the bot's own. */
  predicate Relayed(r: Runner, user: JString, room: JString)
  {
    room == Some("player") && user.Some? && user != r.account.username
  }

  /**
   * A chat line reaches the engine exactly when it is relayed; its answer is
   * posted to the player room exactly when it has non-blank content.  Only a
   * null room, a null sender in the player room, or an exception of the
   * reply's POST throws, and the handler goes on after that POST exactly
   * when it was acknowledged; a chat line never asks for a move or changes
   * the colour.
   */
  lemma ChatRelay(r: Runner, s: Session, user: JString, text: JString, room: JString)
    ensures var h := OnChat(r, s, user, text, room);
      var a := r.engine.chat(s.trace, user, text);
      && h.state.color == s.color
      && MoveAsks(h.state.trace) == MoveAsks(s.trace)
      && (!Relayed(r, user, room) ==> h.state == s)
      && (Relayed(r, user, room) ==> s.trace + [AskChat(user, text, a)] <= h.state.trace)
      && Requests(h.state.trace) == Requests(s.trace)
           + (if Relayed(r, user, room) && a.Some? && !AllTrimmable(a.value)
              then [ChatRequest(r.gameId, a.value)] else [])
      && (h == Stop(s, NullReference) <==> room.None? || (room == Some("player") && user.None?))
      && (h.Stop? ==> h.error == NullReference || h.error.IoFailure?)
      && (Relayed(r, user, room) && a.Some? && !AllTrimmable(a.value) ==>
            var reply := r.net(s.trace + [AskChat(user, text, a)], ChatRequest(r.gameId, a.value));
            && (h.Continue? <==> reply.Acked?)
            && (h.Malformed? <==> reply == Failed(Syntax))
            && (h.Stop? ==> h.error == IoFailure(reply.fault)))
      && (!(Relayed(r, user, room) && a.Some? && !AllTrimmable(a.value)) ==>
            h.Continue? || h == Stop(s, NullReference))
  {
    if Relayed(r, user, room) {
      var a := r.engine.chat(s.trace, user, text);
      var s1 := Record(s, AskChat(user, text, a));
      RequestsAfter(s.trace, AskChat(user, text, a));
      MoveAsksAfter(s.trace, AskChat(user, text, a));
      if a.Some? {
        TrimShape(a.value);
      }
      if a.Some? && Trim(a.value) != [] {
        SendShape(r, s1, ChatRequest(r.gameId, a.value));
      }
    }
  }

  /** The bot's own chat lines in the player room are not shown to the engine. */
  lemma OwnChatIgnored(r: Runner, s: Session, text: JString)
    requires r.account.username.Some?
    ensures OnChat(r, s, r.account.username, text, Some("player")) == Continue(s)
  {
  }

  // ------------------------------------------------------------ game events

  /**
   * A full-game event either throws the identity mismatch before any engine
   * call, or sets the colour and then initialises the board (telling the
   * engine whether it is White), forwards the embedded state, and asks for a
   * move exactly when the assigned colour is the side to move.
   */
  lemma FullEvent(r: Runner, s: Session, white: User, black: User, fen: JString, st: GameState)
    ensures var h := Handle(r, s, Some(Full(white, black, fen, st)));
      match AssignColor(white, black, r.account.id)
      case Failure(e) => h == Stop(s, e)
      case Success(c) =>
        && h.state.color == c
        && s.trace + [InitBoard(fen, c == White), UpdateState(st)] <= h.state.trace
        && MoveAsks(h.state.trace) == MoveAsks(s.trace) + (if c == SideToMove(st.moves) then 1 else 0)
  {
    match AssignColor(white, black, r.account.id)
    case Failure(e) =>
    case Success(c) =>
      var s1 := Session(c, s.trace + [InitBoard(fen, c == White), UpdateState(st)]);
      assert s1.trace == s.trace + [InitBoard(fen, c == White)] + [UpdateState(st)];
      MoveAsksAfter(s.trace, InitBoard(fen, c == White));
      MoveAsksAfter(s.trace + [InitBoard(fen, c == White)], UpdateState(st));
      TurnParity(c, st.moves);
      if IsMyMove(c, st.moves) {
        MoveAsked(r, s1);
      }
  }

  /**
   * A state event keeps the colour, forwards the state to the engine first,
   * and asks for a move exactly when the session's colour is the side to move;
   * otherwise it does nothing more.
   */
  lemma StateEvent(r: Runner, s: Session, st: GameState)
    ensures var h := Handle(r, s, Some(State(st)));
      && h.state.color == s.color
      && s.trace + [UpdateState(st)] <= h.state.trace
      && MoveAsks(h.state.trace) == MoveAsks(s.trace) + (if s.color == SideToMove(st.moves) then 1 else 0)
      && (s.color != SideToMove(st.moves) ==> h == Continue(Record(s, UpdateState(st))))
  {
    var s1 := Record(s, UpdateState(st));
    MoveAsksAfter(s.trace, UpdateState(st));
    TurnParity(s.color, st.moves);
    if IsMyMove(s.color, st.moves) {
      MoveAsked(r, s1);
    }
  }

  /** The session's history only grows, and only a full-game event changes its colour. */
  lemma EventKeepsHistory(r: Runner, s: Session, ge: Option<GameEvent>)
    ensures s.trace <= Handle(r, s, ge).state.trace
    ensures Handle(r, s, ge).state.color != s.color ==> ge.Some? && ge.value.Full?
  {
    match ge
    case None =>
    case Some(Chat(user, text, room)) => ChatRelay(r, s, user, text, room);
    case Some(Full(white, black, fen, st)) => FullEvent(r, s, white, black, fen, st);
    case Some(State(st)) => StateEvent(r, s, st);
  }

  /** The account "u1" playing Black from the start position waits for White's first move. */
  lemma BlackWaitsForWhite(r: Runner, s: Session, fen: JString, st: GameState)
    requires r.account.id == Some("u1") && st.moves == Some("")
    ensures Handle(r, s, Some(Full(User(Some("u2")), User(Some("u1")), fen, st)))
      == Continue(Session(Black, s.trace + [InitBoard(fen, false), UpdateState(st)]))
  {
    assert Some("u2") != Some("u1") by { assert "u2"[1] != "u1"[1]; }
    assert AssignColor(User(Some("u2")), User(Some("u1")), r.account.id) == Success(Black);
    assert Trim("") == [];
    assert !IsMyMove(Black, st.moves);
  }

  // ------------------------------------------------------------ whole games

  /** An event with no effect on the move count while no colour is assigned. */
  lemma UncolouredStep(r: Runner, s: Session, ge: Option<GameEvent>)
    requires s.color == Unknown && !(ge.Some? && ge.value.Full?)
    ensures Handle(r, s, ge).state.color == Unknown
    ensures MoveAsks(Handle(r, s, ge).state.trace) == MoveAsks(s.trace)
  {
    match ge
    case None =>
    case Some(Chat(user, text, room)) => ChatRelay(r, s, user, text, room);
    case Some(State(st)) => StateEvent(r, s, st); TurnParity(Unknown, st.moves);
  }

  /** Before any full-game event the engine is never asked for a move. */
  lemma {:induction false} NoMoveBeforeFull(r: Runner, s: Session, evs: seq<Option<GameEvent>>)
    requires s.color == Unknown
    requires forall k :: 0 <= k < |evs| ==> !(evs[k].Some? && evs[k].value.Full?)
    ensures Apply(Processor(r), s, evs).state.color == Unknown
    ensures MoveAsks(Apply(Processor(r), s, evs).state.trace) == MoveAsks(s.trace)
    decreases |evs|
  {
    if evs != [] {
      UncolouredStep(r, s, evs[0]);
      var h := Handle(r, s, evs[0]);
      if h.Continue? {
        NoMoveBeforeFull(r, h.state, evs[1..]);
      }
    }
  }

  /** A game with no events ends normally with nothing done. */
  lemma EmptyGame(r: Runner)
    ensures RunGame(r, []) == (Initial(), Returned)
  {
  }

  /** A game stream that is an array of events every one of which is handled ends normally. */
  lemma GameOfArray(r: Runner, evs: seq<Option<GameEvent>>)
    requires Apply(Processor(r), Initial(), evs).Continue?
    ensures RunGame(r, [StartArray] + Objects(evs) + [EndArray])
      == (Apply(Processor(r), Initial(), evs).state, Returned)
  {
    var toks := [StartArray] + Objects(evs) + [EndArray];
    assert toks == [StartArray] + Objects(evs) + [EndArray] + [];
    ArrayOfObjects(evs, [], Processor(r), Initial());
    FixedAgrees(toks, Processor(r), Initial());
  }

  /**
   * When the handler throws on event k, that exception ends the game through
   * `run`'s rethrow (a JSON syntax error as a parse error), and no later
   * event is handled.
   */
  lemma HandlerFailureEndsGame(r: Runner, evs: seq<Option<GameEvent>>, k: nat)
    requires k < |evs|
    requires Apply(Processor(r), Initial(), evs[..k]).Continue?
    requires !Handle(r, Apply(Processor(r), Initial(), evs[..k]).state, evs[k]).Continue?
    ensures var failed := Handle(r, Apply(Processor(r), Initial(), evs[..k]).state, evs[k]);
      RunGame(r, [StartArray] + Objects(evs) + [EndArray]) == (failed.state, Rethrown(CaughtAs(failed)))
  {
    var toks := [StartArray] + Objects(evs) + [EndArray];
    assert toks == [StartArray] + Objects(evs) + [EndArray] + [];
    ArrayLayout(evs, []);
    RunEndOfObjects(toks, 1, evs);
    assert Values(toks[1..1 + |evs|]) == evs;
    ProcessorFailureStops(toks, k, Processor(r), Initial());
    FixedAgrees(toks, Processor(r), Initial());
  }

  /** A syntax error in the game stream's first event ends the game as a parse error. */
  lemma ParseErrorEndsGame(r: Runner, rest: seq<Token<Option<GameEvent>>>)
    ensures RunGame(r, [StartArray, Broken(Syntax)] + rest) == (Initial(), Rethrown(ParseError))
  {
    var toks := [StartArray, Broken(Syntax)] + rest;
    ParseErrors(toks, Processor(r), Initial());
    FixedAgrees(toks, Processor(r), Initial());
  }
}
