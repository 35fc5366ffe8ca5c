/**
 * What a game session does with the move string its engine returns: resign,
 * play it, or reject it as a contract violation.
 */
module Moves {
  import opened Wrappers
  import opened JavaText

  /** The later revision's normal form of an engine move: lower-cased, then trimmed. */
  function Normalise(m: string): string
  {
    Trim(Lower(m))
  }

  /** A normalised move is left alone by normalising again. */
  lemma NormaliseIdempotent(m: string)
    ensures Normalise(Normalise(m)) == Normalise(m)
  {
    var x := Normalise(m);
    TrimChars(Lower(m));
    LowerOfLowered(x, m);
    TrimIdempotent(Lower(m));
  }

  /** The three ways a move request can go. */
  datatype Decision =
    | ResignGame             // post a resignation
    | Play(move: string)     // post this move
    | Reject(shown: JString) // throw the contract violation, naming the answer

  /** `LichessGameRunner.makeMove` up to the request (LichessGameRunner.java:102-121). */
  function Decide(candidate: JString, validMove: string -> bool): Decision
  {
    match candidate
    case None => Reject(None)
    case Some(m) =>
      var n := Normalise(m);
      if n == "resign" then ResignGame
      else if !validMove(n) then Reject(Some(n))
      else Play(n)
  }

  /**
   * A null move is rejected; otherwise the normalised move resigns if it is
   * "resign", is played if `validMove` (the move pattern) accepts it, and is
   * rejected if not.  A played move is in normal form.
   */
  lemma DecideMeaning(candidate: JString, validMove: string -> bool)
    ensures var d := Decide(candidate, validMove);
      && (d.ResignGame? <==> candidate.Some? && Normalise(candidate.value) == "resign")
      && (d.Play? <==> candidate.Some? && Normalise(candidate.value) != "resign"
                       && validMove(Normalise(candidate.value)))
      && (d.Play? ==> validMove(d.move) && Normalise(d.move) == d.move)
      && (d.Reject? ==> d.shown == if candidate.None? then None else Some(Normalise(candidate.value)))
  {
    if candidate.Some? {
      NormaliseIdempotent(candidate.value);
    }
  }

  /**
   * The earlier `GameRunner.makeMove`: only a case-insensitive "resign" is
   * recognised (no trimming), any other move must have exactly 4 chars, and
   * an accepted move is posted as the engine wrote it.
   */
  function LegacyDecide(candidate: JString): (d: Decision)
    ensures d.ResignGame? <==> candidate.Some? && Lower(candidate.value) == "resign"
    ensures d.Play? <==> candidate.Some? && Lower(candidate.value) != "resign" && |candidate.value| == 4
    ensures d.Play? ==> candidate == Some(d.move)
    ensures d.Reject? ==> d.shown == candidate
  {
    match candidate
    case None => Reject(None)
    case Some(m) =>
      if Lower(m) == "resign" then ResignGame
      else if |m| != 4 then Reject(Some(m))
      else Play(m)
  }

  // ------------------------------------------------------------------
  // A concrete move pattern

  predicate IsFile(c: char) { 'a' <= c <= 'h' }
  predicate IsRank(c: char) { '1' <= c <= '8' }
  predicate IsPromotion(c: char) { c in "knbrq" }

  /**
   * Long algebraic (UCI) move notation: origin and destination squares,
   * optionally followed by a promotion piece.  The pattern the later
   * revision uses is not part of this model; this is a stand-in for it.
   */
  predicate UciMove(s: string)
  {
    (|s| == 4 || |s| == 5)
    && IsFile(s[0]) && IsRank(s[1]) && IsFile(s[2]) && IsRank(s[3])
    && (|s| == 5 ==> IsPromotion(s[4]))
  }

  /** A UCI move is already in normal form. */
  lemma UciMoveIsNormal(m: string)
    requires UciMove(m)
    ensures Lower(m) == m && Normalise(m) == m
  {
    LowerOfNoUpper(m);
    TrimOfTrimmed(m);
  }

  /** On a plain four-char UCI move both revisions post the move unchanged. */
  lemma RevisionsAgreeOnPlainMoves(m: string)
    requires UciMove(m) && |m| == 4
    ensures Decide(Some(m), UciMove) == LegacyDecide(Some(m)) == Play(m)
  {
    UciMoveIsNormal(m);
  }

  /** "resign" in any mix of cases, without surrounding blanks, resigns in both revisions. */
  lemma RevisionsAgreeOnResign(m: string)
    requires Lower(m) == "resign"
    ensures Decide(Some(m), UciMove) == LegacyDecide(Some(m)) == ResignGame
  {
    TrimOfTrimmed("resign");
  }

  /** The finding: the earlier length check rejects every promotion. */
  lemma PromotionRejectedByLegacy()
    ensures LegacyDecide(Some("e7e8q")) == Reject(Some("e7e8q"))
    ensures Decide(Some("e7e8q"), UciMove) == Play("e7e8q")
  {
    UciMoveIsNormal("e7e8q");
  }

  /** Upper case and surrounding blanks are normalised away by the later revision ... */
  lemma PaddedUpperCaseMoveIsPlayed()
    ensures Decide(Some(" E2E4 "), UciMove) == Play("e2e4")
  {
    PaddedUpperCaseNormalises();
    assert UciMove("e2e4");
  }

  lemma PaddedUpperCaseNormalises()
    ensures Normalise(" E2E4 ") == "e2e4"
  {
    var l := Lower(" E2E4 ");
    assert l == " e2e4 ";
    assert TrimStart(l) == "e2e4 ";
    assert TrimEnd("e2e4 ") == "e2e4";
  }

  /** ... while the earlier one rejects a padded move ... */
  lemma PaddedMoveRejectedByLegacy()
    ensures LegacyDecide(Some(" E2E4 ")) == Reject(Some(" E2E4 "))
  {
    assert Lower(" E2E4 ")[0] == ' ';
  }

  /** ... and posts an upper-case one unchanged. */
  lemma UpperCaseMovePostedByLegacy()
    ensures LegacyDecide(Some("E2E4")) == Play("E2E4")
  {
    assert Lower("E2E4") == "e2e4";
  }

  /** An engine answering "RESIGN" resigns the game. */
  lemma UpperCaseResign()
    ensures Decide(Some("RESIGN"), UciMove) == ResignGame
  {
    assert Lower("RESIGN") == "resign";
    TrimOfTrimmed("resign");
  }

  /** "e2e9" names no square and is rejected as a contract violation. */
  lemma BadSquareRejected()
    ensures Decide(Some("e2e9"), UciMove) == Reject(Some("e2e9"))
  {
    LowerOfNoUpper("e2e9");
    TrimOfTrimmed("e2e9");
    assert !UciMove("e2e9");
  }
}
