/** The per-game stream's events (`lichess.bot.model.GameEvent`). */
module GameEvents {
  import opened Wrappers
  import opened JavaText

  /** A Java `long`. */
  newtype Long = x: int | -0x8000_0000_0000_0000 <= x < 0x8000_0000_0000_0000

  /** The bot's side; `Unknown` until a full-game event assigns it. */
  datatype Color = White | Black | Unknown

  /** A participant; only its id is read. */
  datatype User = User(id: JString)

  /** Move history (space-separated half-moves) and the clocks in milliseconds. */
  datatype GameState = GameState(moves: JString, wtime: Long, btime: Long, winc: Long, binc: Long)

  /** The wire tag of a game event. */
  datatype GameEventType = FULL | STATE | CHAT

  datatype GameEvent =
    | Full(white: User, black: User, initialFen: JString, state: GameState)
    | State(state: GameState)
    | Chat(username: JString, text: JString, room: JString)
  {
    function Type(): GameEventType
    {
      match this
      case Full(_, _, _, _) => FULL
      case State(_) => STATE
      case Chat(_, _, _) => CHAT
    }
  }

  /** The JSON name of each tag. */
  function TagName(t: GameEventType): string
  {
    match t
    case FULL => "gameFull"
    case STATE => "gameState"
    case CHAT => "chatLine"
  }

  /** Binding a JSON tag; `None` is the mapping failure of an unknown name. */
  function ParseTag(s: string): (r: Option<GameEventType>)
    ensures r.Some? ==> TagName(r.value) == s
    ensures r.None? ==> forall t: GameEventType :: TagName(t) != s
  {
    if s == "gameFull" then Some(FULL)
    else if s == "gameState" then Some(STATE)
    else if s == "chatLine" then Some(CHAT)
    else None
  }

  /** Naming a tag and binding the name gives the tag back, and distinct tags have distinct names. */
  lemma TagRoundTrip(t: GameEventType, u: GameEventType)
    ensures ParseTag(TagName(t)) == Some(t)
    ensures TagName(t) == TagName(u) ==> t == u
  {
  }
}
