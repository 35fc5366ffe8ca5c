/**
 * The earlier game session, `LichessBot.GameRunner` (LichessBot.java:214-330).
 * It reads the same kinds of events and leaves the same kinds of effects as
 * `GameRunner`, and differs in four places: event tags are compared as
 * strings (an untagged or unknown event is ignored), `setMyColor` has no null
 * guard, the board is initialised from the FEN alone, and a move is checked
 * only for being four characters long.  The `validMove` field of the runner
 * is not consulted here.
 */
module LegacyRunner {
  import opened Wrappers
  import opened JavaText
  import opened GameEvents
  import opened Transport
  import opened Moves
  import opened Decoder
  import opened Sessions
  import opened GameRunner

  /**
   * The earlier `setMyColor` (LichessBot.java:265-273): `white.id.equals(userId)`
   * dereferences the white id, and, when it does not match, the black one.
   */
  function LegacyAssignColor(white: User, black: User, me: JString): (r: Result<Color, Thrown>)
    ensures r.Success? ==> me.Some? && r.value != Unknown && Player(white, black, r.value).id == me
    ensures r == Success(Black) ==> white.id != me
    ensures r == Failure(NullReference) <==> white.id.None? || (white.id != me && black.id.None?)
    ensures r.Failure? && r.error != NullReference ==> r.error == IdentityMismatch(white.id, black.id, me)
    ensures white.id.Some? && white.id == me ==> r == Success(White)
    ensures white.id.Some? && white.id != me && black.id.Some? && black.id == me ==> r == Success(Black)
  {
    if white.id.None? then Failure(NullReference)
    else if white.id == me then Success(White)
    else if black.id.None? then Failure(NullReference)
    else if black.id == me then Success(Black)
    else Failure(IdentityMismatch(white.id, black.id, me))
  }

  /** The earlier `makeMove(engine.makeMove())`: resign, post the move as written, or throw. */
  function LegacyMakeMove(r: Runner, s: Session): Step<Session, Thrown>
  {
    var answer := r.engine.move(s.trace);
    var s1 := Record(s, AskMove(answer));
    match LegacyDecide(answer)
    case ResignGame => Resign(r, s1)
    case Reject(shown) => Stop(s1, InvalidMove(shown))
    case Play(m) => Continue(Send(r, s1, MoveRequest(r.gameId, m)).0)
  }

  /**
   * The earlier event handler (LichessBot.java:227-248).  `None` stands for an
   * event whose tag is null or none of the three names; no branch takes it.
   * The chat branch and the requests are unchanged from the earlier revision
   * to the later one, so they are shared.
   */
  function LegacyHandle(r: Runner, s: Session, ge: Option<GameEvent>): Step<Session, Thrown>
  {
    match ge
    case None => Continue(s)
    case Some(Chat(user, text, room)) => OnChat(r, s, user, text, room)
    case Some(Full(white, black, fen, st)) =>
      (match LegacyAssignColor(white, black, r.account.id)
       case Failure(e) => Stop(s, e)
       case Success(c) =>
         var s1 := Session(c, s.trace + [InitBoardFen(fen), UpdateState(st)]);
         if IsMyMove(c, st.moves) then LegacyMakeMove(r, s1) else Continue(s1))
    case Some(State(st)) =>
      var s1 := Record(s, UpdateState(st));
      if IsMyMove(s.color, st.moves) then LegacyMakeMove(r, s1) else Continue(s1)
  }

  function LegacyProcessor(r: Runner): (Session, Option<GameEvent>) -> Step<Session, Thrown>
  {
    (s: Session, ge: Option<GameEvent>) => LegacyHandle(r, s, ge)
  }

  /**
   * The earlier `run`: the same stream and rethrow as the later one, around
   * the earlier handler.  The session it leaves behind is that handler
   * folded over the delivered events, and it rethrows a handler's exception
   * exactly when the fold stops on one.  It returns exactly when the stream
   * ends normally and otherwise rethrows whatever ended it.
   */
  function LegacyRunGame(r: Runner, toks: seq<Token<Option<GameEvent>>>): (g: (Session, GameEnd))
    ensures var a := Apply(LegacyProcessor(r), Initial(), StreamFixed(toks, LegacyProcessor(r), Initial()).delivered);
      && g.0 == a.state
      && (g.1.Rethrown? && g.1.cause.ProcessorFailed? <==> a.Stop?)
      && (a.Stop? ==> g.1 == Rethrown(ProcessorFailed(a.error)))
      && (a.Malformed? ==> g.1 == Rethrown(ParseError))
    ensures var run := StreamFixed(toks, LegacyProcessor(r), Initial());
      && (g.1.Returned? <==> run.outcome.Ended?)
      && (g.1.Rethrown? ==> g.1.cause == run.outcome)
    ensures g.1.Rethrown? ==> !g.1.cause.Ended? && !g.1.cause.Diverges?
  {
    var run := StreamFixed(toks, LegacyProcessor(r), Initial());
    StreamFixedFolds(toks, LegacyProcessor(r), Initial());
    (run.state, if run.outcome.Ended? then Returned else Rethrown(run.outcome))
  }

  // ------------------------------------------------------------ agreement

  /** With both ids present the two revisions assign the same colour, or throw the same mismatch. */
  lemma ColorsAgree(white: User, black: User, me: JString)
    requires white.id.Some? && black.id.Some?
    ensures LegacyAssignColor(white, black, me) == AssignColor(white, black, me)
  {
  }

  /**
   * The finding: a game whose White has no id throws in the earlier revision
   * even when the bot is Black; the later revision assigns Black.
   */
  lemma NullWhiteIdThrows()
    ensures LegacyAssignColor(User(None), User(Some("u1")), Some("u1")) == Failure(NullReference)
    ensures AssignColor(User(None), User(Some("u1")), Some("u1")) == Success(Black)
  {
  }

  /**
   * On an answer that is a plain four-char UCI move, or "resign" in any mix
   * of cases, both revisions make the same request and end the same way.
   */
  lemma MovesAgree(r: Runner, s: Session)
    requires r.validMove == UciMove
    requires var a := r.engine.move(s.trace);
      a.Some? && ((UciMove(a.value) && |a.value| == 4) || Lower(a.value) == "resign")
    ensures LegacyMakeMove(r, s) == MakeMove(r, s)
  {
    var a := r.engine.move(s.trace).value;
    if Lower(a) == "resign" {
      RevisionsAgreeOnResign(a);
    } else {
      RevisionsAgreeOnPlainMoves(a);
    }
  }

  /**
   * A state event is handled identically by both revisions unless it is the
   * bot's move and the engine answers something other than a plain
   * four-char move or "resign".
   */
  lemma StateEventsAgree(r: Runner, s: Session, st: GameState)
    requires r.validMove == UciMove
    requires var a := r.engine.move(s.trace + [UpdateState(st)]);
      !IsMyMove(s.color, st.moves) || (a.Some? && ((UciMove(a.value) && |a.value| == 4) || Lower(a.value) == "resign"))
    ensures LegacyHandle(r, s, Some(State(st))) == Handle(r, s, Some(State(st)))
  {
    if IsMyMove(s.color, st.moves) {
      MovesAgree(r, Record(s, UpdateState(st)));
    }
  }

  // Chat lines need no agreement lemma: both handlers are `OnChat` on them.

  /**
   * The finding at the session level: an engine promoting a pawn ends the
   * earlier session with the contract violation, while the later one posts
   * the move.
   */
  lemma PromotionEndsLegacySession(r: Runner, s: Session)
    requires r.validMove == UciMove && r.engine.move(s.trace) == Some("e7e8q")
    ensures LegacyMakeMove(r, s) == Stop(Record(s, AskMove(Some("e7e8q"))), InvalidMove(Some("e7e8q")))
    ensures MakeMove(r, s).Continue?
    ensures Requests(MakeMove(r, s).state.trace) == Requests(s.trace) + [MoveRequest(r.gameId, "e7e8q")]
  {
    PromotionRejectedByLegacy();
    UciMoveIsNormal("e7e8q");
    MoveSubmitted(r, s);
  }

  /**
   * The earlier revision initialises the board from the FEN alone and then
   * forwards the embedded state; it asks for a move exactly when the colour
   * it assigned is the side to move.
   */
  lemma LegacyFullEvent(r: Runner, s: Session, white: User, black: User, fen: JString, st: GameState)
    ensures var h := LegacyHandle(r, s, Some(Full(white, black, fen, st)));
      match LegacyAssignColor(white, black, r.account.id)
      case Failure(e) => h == Stop(s, e)
      case Success(c) =>
        && h.state.color == c
        && s.trace + [InitBoardFen(fen), UpdateState(st)] <= h.state.trace
        && MoveAsks(h.state.trace) == MoveAsks(s.trace) + (if c == SideToMove(st.moves) then 1 else 0)
  {
    match LegacyAssignColor(white, black, r.account.id)
    case Failure(e) =>
    case Success(c) =>
      var s1 := Session(c, s.trace + [InitBoardFen(fen), UpdateState(st)]);
      assert s1.trace == s.trace + [InitBoardFen(fen)] + [UpdateState(st)];
      MoveAsksAfter(s.trace, InitBoardFen(fen));
      MoveAsksAfter(s.trace + [InitBoardFen(fen)], UpdateState(st));
      TurnParity(c, st.moves);
      if IsMyMove(c, st.moves) {
        LegacyMoveAsked(r, s1);
      }
  }

  /** Every earlier move request asks the engine exactly once and keeps the colour. */
  lemma LegacyMoveAsked(r: Runner, s: Session)
    ensures var h := LegacyMakeMove(r, s);
      && h.state.color == s.color
      && s.trace + [AskMove(r.engine.move(s.trace))] <= h.state.trace
      && MoveAsks(h.state.trace) == MoveAsks(s.trace) + 1
  {
    var a := r.engine.move(s.trace);
    var s1 := Record(s, AskMove(a));
    MoveAsksAfter(s.trace, AskMove(a));
    match LegacyDecide(a)
    case ResignGame => SendShape(r, s1, ResignRequest(r.gameId));
    case Reject(_) =>
    case Play(m) => SendShape(r, s1, MoveRequest(r.gameId, m));
  }

  // ------------------------------------------------------------ whole games

  /** An earlier game stream that is an array of events every one of which is handled ends normally. */
  lemma LegacyGameOfArray(r: Runner, evs: seq<Option<GameEvent>>)
    requires Apply(LegacyProcessor(r), Initial(), evs).Continue?
    ensures LegacyRunGame(r, [StartArray] + Objects(evs) + [EndArray])
      == (Apply(LegacyProcessor(r), Initial(), evs).state, Returned)
  {
    var toks := [StartArray] + Objects(evs) + [EndArray];
    assert toks == [StartArray] + Objects(evs) + [EndArray] + [];
    ArrayOfObjects(evs, [], LegacyProcessor(r), Initial());
    FixedAgrees(toks, LegacyProcessor(r), Initial());
  }

  /**
   * When the earlier handler throws on event k, that exception ends the game
   * through `run`'s rethrow, and no later event is handled.
   */
  lemma LegacyHandlerFailureEndsGame(r: Runner, evs: seq<Option<GameEvent>>, k: nat)
    requires k < |evs|
    requires Apply(LegacyProcessor(r), Initial(), evs[..k]).Continue?
    requires !LegacyHandle(r, Apply(LegacyProcessor(r), Initial(), evs[..k]).state, evs[k]).Continue?
    ensures var failed := LegacyHandle(r, Apply(LegacyProcessor(r), Initial(), evs[..k]).state, evs[k]);
      LegacyRunGame(r, [StartArray] + Objects(evs) + [EndArray]) == (failed.state, Rethrown(CaughtAs(failed)))
  {
    var toks := [StartArray] + Objects(evs) + [EndArray];
    assert toks == [StartArray] + Objects(evs) + [EndArray] + [];
    ArrayLayout(evs, []);
    RunEndOfObjects(toks, 1, evs);
    assert Values(toks[1..1 + |evs|]) == evs;
    ProcessorFailureStops(toks, k, LegacyProcessor(r), Initial());
    FixedAgrees(toks, LegacyProcessor(r), Initial());
  }

  /** An event with no `type` field is skipped by the earlier revision and throws in the later one. */
  lemma UntaggedEvent(r: Runner, s: Session)
    ensures LegacyHandle(r, s, None) == Continue(s)
    ensures Handle(r, s, None) == Stop(s, NullReference)
  {
  }
}
