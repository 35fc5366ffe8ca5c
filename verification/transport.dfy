/**
 * Outbound requests and their acknowledgements.  The HTTP exchange itself is
 * not modelled: a request's reply is given by the caller.
 */
module Transport {
  import opened Wrappers
  import opened JavaText
  import opened Decoder

  /** A POST: the path under the endpoint and the form body ("" for none). */
  datatype Request = Request(path: string, body: string)

  /**
   * What a POST brings back: the server's acknowledgement, or the exception
   * raised on the way to it: an I/O failure (`Io`), a body that is not JSON
   * (`Syntax`, a `JsonParseException`) or JSON that does not bind to an
   * acknowledgement (`Mapping`).  All three are `IOException`s.
   */
  datatype Reply = Acked(ok: bool, error: JString) | Failed(fault: Fault)

  /** How `LichessRestClient.post` ends: normally, by a service error, or by an `IOException`. */
  datatype PostResult = Done | ServiceError(message: JString) | Raised(fault: Fault)

  /**
   * `LichessRestClient.post` with the acknowledgement bound as intended:
   * returns normally exactly on a positive acknowledgement, throws a service
   * error carrying the error text of a negative one, and lets the exception
   * of a failed exchange through.
   */
  function Post(reply: Reply): (r: PostResult)
    ensures r.Done? <==> reply.Acked? && reply.ok
    ensures r.ServiceError? <==> reply.Acked? && !reply.ok
    ensures r.ServiceError? ==> r.message == reply.error
    ensures r.Raised? <==> reply.Failed?
    ensures r.Raised? ==> r.fault == reply.fault
  {
    match reply
    case Failed(f) => Raised(f)
    case Acked(ok, error) => if ok then Done else ServiceError(error)
  }

  /**
   * `LichessRestClient.post` as written.  The acknowledgement type
   * `OkErrorResponse` (LichessRestClient.java:143-146) is a non-static inner
   * class: its only constructor takes the enclosing client, which Jackson
   * cannot supply, so binding a well-formed acknowledgement throws a mapping
   * exception; a failure met earlier, while reading, is thrown as it is.
   */
  function PostAsWritten(reply: Reply): (r: PostResult)
    ensures r.Raised?
    ensures reply.Failed? ==> r == Post(reply)
  {
    match reply
    case Failed(f) => Raised(f)
    case Acked(_, _) => Raised(Mapping)
  }

  /**
   * The finding: as written, even a positive acknowledgement ends the POST
   * with an exception, where it was meant to return normally.
   */
  lemma AckNeverBinds(error: JString)
    ensures PostAsWritten(Acked(true, error)) == Raised(Mapping)
    ensures Post(Acked(true, error)) == Done
  {
  }

  function GamePath(gameId: JString): string
  {
    "api/bot/game/" + Show(gameId)
  }

  function MoveRequest(gameId: JString, move: string): Request
  {
    Request(GamePath(gameId) + "/move/" + move, "")
  }

  function ResignRequest(gameId: JString): Request
  {
    Request(GamePath(gameId) + "/resign", "")
  }

  function ChatRequest(gameId: JString, text: string): Request
  {
    Request(GamePath(gameId) + "/chat", "room=player&text=" + text)
  }

  function ChallengeRequest(challengeId: JString, accept: bool): Request
  {
    Request("api/challenge/" + Show(challengeId) + (if accept then "/accept" else "/decline"), "")
  }
}
