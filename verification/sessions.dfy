/**
 * What the two revisions of a game session share: the session state, the
 * record of engine calls and requests it leaves behind, its failures, and
 * the turn rule (`isMyMove`, identical in LichessGameRunner.java:86-100 and
 * LichessBot.java:275-289).
 */
module Sessions {
  import opened Wrappers
  import opened JavaText
  import opened GameEvents
  import opened Transport
  import opened Decoder

  /**
   * One observable thing a session does, in order.  Calls that return a
   * value record the value the engine or the server gave back.
   */
  datatype Effect =
    | InitBoard(fen: JString, asWhite: bool)            // the engine's board set up, and told its side
    | InitBoardFen(fen: JString)                        // the earlier set-up, from the position alone
    | UpdateState(state: GameState)                     // the engine given the moves and the clocks
    | AskMove(answer: JString)                          // the engine asked for a move
    | AskChat(user: JString, text: JString, answer: JString) // the engine shown a chat line
    | Posted(request: Request, reply: Reply)            // one POST and what came back

  /** The exceptions that leave an event handler. */
  datatype Thrown =
    | IdentityMismatch(white: JString, black: JString, me: JString) // IllegalStateException of setMyColor
    | InvalidMove(shown: JString)                                    // IllegalArgumentException of makeMove
    | IoFailure(fault: Fault)                                        // an IOException of a POST
    | NullReference                                                  // a NullPointerException

  /** `myColor` is the only state a session keeps; `trace` is everything it has done so far. */
  datatype Session = Session(color: Color, trace: seq<Effect>)

  /** The session before its first event. */
  function Initial(): Session
  {
    Session(Unknown, [])
  }

  /**
   * The engine, as answers that may depend on everything the session has
   * done before the call (which includes every board update it was given).
   */
  datatype Engine = Engine(
    move: seq<Effect> -> JString,
    chat: (seq<Effect>, JString, JString) -> JString)

  /** The server's reply to a POST, given everything done before it. */
  type Network = (seq<Effect>, Request) -> Reply

  /** The requests in a trace, in order. */
  function Requests(t: seq<Effect>): (rs: seq<Request>)
    ensures |rs| <= |t|
  {
    if t == [] then []
    else (if t[0].Posted? then [t[0].request] else []) + Requests(t[1..])
  }

  /** How many times a trace asked the engine for a move. */
  function MoveAsks(t: seq<Effect>): (n: nat)
    ensures n <= |t|
  {
    if t == [] then 0 else (if t[0].AskMove? then 1 else 0) + MoveAsks(t[1..])
  }

  lemma {:induction false} RequestsAppend(a: seq<Effect>, b: seq<Effect>)
    ensures Requests(a + b) == Requests(a) + Requests(b)
    decreases |a|
  {
    if a != [] {
      assert (a + b)[0] == a[0];
      assert (a + b)[1..] == a[1..] + b;
      RequestsAppend(a[1..], b);
      var h: seq<Request> := if a[0].Posted? then [a[0].request] else [];
      assert Requests(a + b) == h + Requests(a[1..] + b);
      assert Requests(a) == h + Requests(a[1..]);
    } else {
      assert a + b == b;
    }
  }

  lemma {:induction false} MoveAsksAppend(a: seq<Effect>, b: seq<Effect>)
    ensures MoveAsks(a + b) == MoveAsks(a) + MoveAsks(b)
    decreases |a|
  {
    if a != [] {
      assert (a + b)[0] == a[0];
      assert (a + b)[1..] == a[1..] + b;
      MoveAsksAppend(a[1..], b);
      assert MoveAsks(a + b) == (if a[0].AskMove? then 1 else 0) + MoveAsks(a[1..] + b);
    } else {
      assert a + b == b;
    }
  }

  /** Appending one effect adds its request, if it is a POST. */
  lemma RequestsAfter(t: seq<Effect>, e: Effect)
    ensures Requests(t + [e]) == Requests(t) + (if e.Posted? then [e.request] else [])
  {
    RequestsAppend(t, [e]);
    assert Requests([e]) == (if e.Posted? then [e.request] else []) + Requests([]);
  }

  /** Appending one effect adds one move request exactly when it is one. */
  lemma MoveAsksAfter(t: seq<Effect>, e: Effect)
    ensures MoveAsks(t + [e]) == MoveAsks(t) + (if e.AskMove? then 1 else 0)
  {
    MoveAsksAppend(t, [e]);
    assert MoveAsks([e]) == (if e.AskMove? then 1 else 0) + MoveAsks([]);
  }

  // ------------------------------------------------------------ turn rule

  /** `isMyMove`: whose turn the move history says it is, compared with `myColor`. */
  function IsMyMove(color: Color, moves: JString): bool
  {
    if moves.None? || Trim(moves.value) == [] then color == White
    else if |SplitOnSpace(Trim(moves.value))| % 2 == 0 then color == White
    else color == Black
  }

  /**
   * The number of half-moves the history counts: none for a null or blank
   * history, else one more than the spaces between its first and last
   * non-blank characters (so a doubled space counts an extra move).
   */
  function HalfMoves(moves: JString): nat
  {
    if moves.None? || AllTrimmable(moves.value) then 0 else 1 + CountSpaces(Trim(moves.value))
  }

  /** White moves after an even number of half-moves, Black after an odd one. */
  function SideToMove(moves: JString): Color
  {
    if HalfMoves(moves) % 2 == 0 then White else Black
  }

  /** It is the session's move exactly when its colour is the side to move. */
  lemma TurnParity(color: Color, moves: JString)
    ensures IsMyMove(color, moves) <==> color == SideToMove(moves)
  {
    if moves.Some? {
      TrimShape(moves.value);
    }
    if moves.Some? && Trim(moves.value) != [] {
      var t := Trim(moves.value);
      SplitTrimmedCount(t);
      assert HalfMoves(moves) == |SplitOnSpace(t)|;
    }
  }

  /** Until a colour is assigned no history is ever the session's move. */
  lemma UnknownNeverMoves(moves: JString)
    ensures !IsMyMove(Unknown, moves)
  {
    TurnParity(Unknown, moves);
  }

  /** One of the two players is always to move. */
  lemma OneSideMoves(moves: JString)
    ensures IsMyMove(White, moves) != IsMyMove(Black, moves)
  {
    TurnParity(White, moves);
    TurnParity(Black, moves);
  }

  /** A missing or blank history is White's move. */
  lemma BlankHistoryIsWhites()
    ensures IsMyMove(White, None) && IsMyMove(White, Some("")) && IsMyMove(White, Some("  "))
  {
    assert Trim("  ") == [];
  }

  /** After one move it is Black's move. */
  lemma OneMoveIsBlacks()
    ensures IsMyMove(Black, Some("e2e4"))
  {
    CountedHistory("e2e4", 0);
  }

  /** After two moves it is White's move again. */
  lemma TwoMovesAreWhites()
    ensures IsMyMove(White, Some("e2e4 e7e5"))
  {
    TwoWordHistory("e2e4", "e7e5");
    assert "e2e4" + " " + "e7e5" == "e2e4 e7e5";
  }

  /** Two space-free moves joined by one space: White is to move. */
  lemma TwoWordHistory(a: string, b: string)
    requires a != [] && b != [] && ' ' !in a && ' ' !in b
    requires !IsTrimmable(a[0]) && !IsTrimmable(b[|b| - 1])
    ensures IsMyMove(White, Some(a + " " + b))
  {
    var m := a + " " + b;
    NoSpaceNoCount(a);
    NoSpaceNoCount(b);
    CountSpacesAppend(a, " ");
    CountSpacesAppend(a + " ", b);
    assert CountSpaces(" ") == 1 + CountSpaces([]);
    assert m[0] == a[0] && m[|m| - 1] == b[|b| - 1];
    CountedHistory(m, 1);
  }

  /** A doubled space counts as an extra move: "e2e4  e7e5" is Black's move. */
  lemma DoubledSpaceCountsExtra()
    ensures IsMyMove(Black, Some("e2e4  e7e5"))
  {
    var a, b := "e2e4", "e7e5";
    var m := a + "  " + b;
    assert m == "e2e4  e7e5";
    NoSpaceNoCount(a);
    NoSpaceNoCount(b);
    CountSpacesAppend(a, "  ");
    CountSpacesAppend(a + "  ", b);
    assert CountSpaces("  ") == 2 by {
      assert "  "[1..] == " ";
      assert CountSpaces(" ") == 1 + CountSpaces([]);
    }
    assert m[0] == a[0] && m[|m| - 1] == b[|b| - 1];
    CountedHistory(m, 2);
  }

  /** The side to move after a history with no padding and `spaces` spaces. */
  lemma CountedHistory(m: string, spaces: nat)
    requires m != [] && !IsTrimmable(m[0]) && !IsTrimmable(m[|m| - 1])
    requires CountSpaces(m) == spaces
    ensures IsMyMove(Black, Some(m)) <==> spaces % 2 == 0
    ensures IsMyMove(White, Some(m)) <==> spaces % 2 == 1
  {
    TrimOfTrimmed(m);
    SplitTrimmedCount(m);
    var n := |SplitOnSpace(Trim(m))|;
    assert n == 1 + spaces;
    NextParity(spaces);
  }

  lemma NextParity(k: nat)
    ensures (k + 1) % 2 == 0 <==> k % 2 == 1
  {
  }
}
