/** The account stream's events (`lichess.bot.model.Event`). */
module Events {
  import opened Wrappers
  import opened JavaText
  import opened GameEvents

  /** A challenge; only `id` is used by the bot, the rest is for the accept policy. */
  datatype Challenge = Challenge(
    id: JString, status: JString, challenger: User, destUser: User, rated: bool, color: JString)

  datatype GameStart = GameStart(id: JString)

  /** The wire tag of an account event. */
  datatype EventType = CHALLENGE | GAME_START

  datatype Event = ChallengeEvent(challenge: Challenge) | GameStartEvent(game: GameStart)
  {
    function Type(): EventType
    {
      match this
      case ChallengeEvent(_) => CHALLENGE
      case GameStartEvent(_) => GAME_START
    }
  }

  function EventTagName(t: EventType): string
  {
    match t
    case CHALLENGE => "challenge"
    case GAME_START => "gameStart"
  }

  function ParseEventTag(s: string): (r: Option<EventType>)
    ensures r.Some? ==> EventTagName(r.value) == s
    ensures r.None? ==> forall t: EventType :: EventTagName(t) != s
  {
    if s == "challenge" then Some(CHALLENGE)
    else if s == "gameStart" then Some(GAME_START)
    else None
  }

  lemma EventTagRoundTrip(t: EventType, u: EventType)
    ensures ParseEventTag(EventTagName(t)) == Some(t)
    ensures EventTagName(t) == EventTagName(u) ==> t == u
  {
  }

  /**
   * An account event as the earlier dispatcher reads it: the `type` field
   * as a plain string next to both payload objects.
   */
  datatype RawEvent = RawEvent(tag: JString, challenge: Challenge, game: GameStart)

  /** The typed event a raw one stands for; `None` for any other (or a null) tag. */
  function Classify(e: RawEvent): (r: Option<Event>)
    ensures r.Some? <==> e.tag.Some? && ParseEventTag(e.tag.value).Some?
    ensures r.Some? ==> e.tag == Some(EventTagName(r.value.Type()))
    ensures r == Some(ChallengeEvent(e.challenge)) || r == Some(GameStartEvent(e.game)) || r.None?
  {
    if e.tag == Some(EventTagName(CHALLENGE)) then Some(ChallengeEvent(e.challenge))
    else if e.tag == Some(EventTagName(GAME_START)) then Some(GameStartEvent(e.game))
    else None
  }
}
