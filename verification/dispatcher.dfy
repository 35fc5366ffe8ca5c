/**
 * `LichessBot.listen` (LichessBot.java:79-93): the account stream's events are
 * routed one by one; a challenge is answered with one accept or decline
 * request, a game start hands one new session to the pool, and anything else
 * is ignored.
 */
module Dispatcher {
  import opened Wrappers
  import opened JavaText
  import opened Transport
  import opened Events
  import opened Decoder

  /** What the dispatcher does, in order. */
  datatype AccountEffect =
    | Answered(request: Request, reply: Reply) // a POST and what came back
    | Spawned(gameId: JString)                 // a session submitted to the pool for this game

  /**
   * The bot's parts: its challenge policy (`acceptChallenge`) and the
   * server's reply to a POST given everything done before it.
   */
  datatype Bot = Bot(accept: Challenge -> bool, net: (seq<AccountEffect>, Request) -> Reply)

  /** The one way handling an account event can throw: an `IOException` of a POST. */
  datatype Halt = IoFailure(request: Request, fault: Fault)

  /**
   * `sendChallengeAccept` / `sendChallengeDecline`: a negative
   * acknowledgement is only logged; an `IOException` escapes, and one that
   * is a JSON syntax error is taken by the decoder's `catch` for its own.
   */
  function Answer(b: Bot, t: seq<AccountEffect>, c: Challenge): Step<seq<AccountEffect>, Halt>
  {
    var req := ChallengeRequest(c.id, b.accept(c));
    var reply := b.net(t, req);
    var t' := t + [Answered(req, reply)];
    match reply
    case Failed(Syntax) => Malformed(t')
    case Failed(f) => Stop(t', IoFailure(req, f))
    case Acked(_, _) => Continue(t')
  }

  /** The lambda passed to `processStream` in `listen`. */
  function Listen(b: Bot, t: seq<AccountEffect>, e: RawEvent): Step<seq<AccountEffect>, Halt>
  {
    match Classify(e)
    case None => Continue(t)
    case Some(ChallengeEvent(c)) => Answer(b, t, c)
    case Some(GameStartEvent(g)) => Continue(t + [Spawned(g.id)])
  }

  function AccountProcessor(b: Bot): (seq<AccountEffect>, RawEvent) -> Step<seq<AccountEffect>, Halt>
  {
    (t: seq<AccountEffect>, e: RawEvent) => Listen(b, t, e)
  }

  /**
   * `listen`: the account stream's events handed to `Listen`, nothing done
   * before.  What it leaves behind is `Listen` folded over the delivered
   * events, and it ends by a handler's exception exactly when that fold
   * stops on one.
   */
  function ListenAll(b: Bot, toks: seq<Token<RawEvent>>): (r: Run<RawEvent, seq<AccountEffect>, Halt>)
    ensures var a := Apply(AccountProcessor(b), [], r.delivered);
      && r.state == a.state
      && (r.outcome.ProcessorFailed? <==> a.Stop?)
      && (a.Stop? ==> r.outcome == ProcessorFailed(a.error))
      && (a.Malformed? ==> r.outcome == ParseError)
    ensures r.outcome != Diverges
  {
    StreamFixedFolds(toks, AccountProcessor(b), []);
    StreamFixed(toks, AccountProcessor(b), [])
  }

  // ------------------------------------------------------------ one event

  /**
   * A challenge is answered by exactly one POST, to the accept path when the
   * policy accepts it and to the decline path otherwise; only an
   * acknowledgement, positive or negative, lets the stream go on.
   */
  lemma ChallengeAnswered(b: Bot, t: seq<AccountEffect>, e: RawEvent)
    requires e.tag == Some("challenge")
    ensures var req := Request("api/challenge/" + Show(e.challenge.id)
                               + (if b.accept(e.challenge) then "/accept" else "/decline"), "");
      var h := Listen(b, t, e);
      && h.state == t + [Answered(req, b.net(t, req))]
      && (h.Continue? <==> b.net(t, req).Acked?)
      && (h.Malformed? <==> b.net(t, req) == Failed(Syntax))
      && (h.Stop? ==> h.error == IoFailure(req, b.net(t, req).fault))
  {
    assert Classify(e) == Some(ChallengeEvent(e.challenge));
  }

  /** A game start submits exactly one session, bound to the game's id. */
  lemma GameStartSpawns(b: Bot, t: seq<AccountEffect>, e: RawEvent)
    requires e.tag == Some("gameStart")
    ensures Listen(b, t, e) == Continue(t + [Spawned(e.game.id)])
  {
    assert Classify(e) == Some(GameStartEvent(e.game));
  }

  /** Any other tag, or none, does nothing. */
  lemma OtherTagsIgnored(b: Bot, t: seq<AccountEffect>, e: RawEvent)
    requires e.tag != Some("challenge") && e.tag != Some("gameStart")
    ensures Listen(b, t, e) == Continue(t)
  {
    if Classify(e).Some? {
      EventTagRoundTrip(Classify(e).value.Type(), CHALLENGE);
    }
  }

  // ------------------------------------------------------------ a stream of events

  /** The requests in a trace, in order. */
  function Posts(t: seq<AccountEffect>): seq<Request>
  {
    if t == [] then [] else (if t[0].Answered? then [t[0].request] else []) + Posts(t[1..])
  }

  /** The games sessions were submitted for, in order. */
  function Spawns(t: seq<AccountEffect>): seq<JString>
  {
    if t == [] then [] else (if t[0].Spawned? then [t[0].gameId] else []) + Spawns(t[1..])
  }

  /** The answer each challenge among `evs` calls for, in order. */
  function ExpectedPosts(b: Bot, evs: seq<RawEvent>): seq<Request>
  {
    if evs == [] then []
    else
      (if evs[0].tag == Some("challenge")
       then [ChallengeRequest(evs[0].challenge.id, b.accept(evs[0].challenge))] else [])
      + ExpectedPosts(b, evs[1..])
  }

  /** The game ids of the game starts among `evs`, in order. */
  function StartedGames(evs: seq<RawEvent>): seq<JString>
  {
    if evs == [] then []
    else (if evs[0].tag == Some("gameStart") then [evs[0].game.id] else []) + StartedGames(evs[1..])
  }

  lemma {:induction false} PostsAppend(a: seq<AccountEffect>, b: seq<AccountEffect>)
    ensures Posts(a + b) == Posts(a) + Posts(b)
    decreases |a|
  {
    if a == [] {
      assert a + b == b;
    } else {
      assert (a + b)[0] == a[0];
      assert (a + b)[1..] == a[1..] + b;
      PostsAppend(a[1..], b);
      var h: seq<Request> := if a[0].Answered? then [a[0].request] else [];
      assert Posts(a + b) == h + Posts(a[1..] + b);
      assert Posts(a) == h + Posts(a[1..]);
    }
  }

  lemma {:induction false} SpawnsAppend(a: seq<AccountEffect>, b: seq<AccountEffect>)
    ensures Spawns(a + b) == Spawns(a) + Spawns(b)
    decreases |a|
  {
    if a == [] {
      assert a + b == b;
    } else {
      assert (a + b)[0] == a[0];
      assert (a + b)[1..] == a[1..] + b;
      SpawnsAppend(a[1..], b);
      var h: seq<JString> := if a[0].Spawned? then [a[0].gameId] else [];
      assert Spawns(a + b) == h + Spawns(a[1..] + b);
      assert Spawns(a) == h + Spawns(a[1..]);
    }
  }

  /** One event adds exactly the answer it calls for and the game it starts. */
  lemma ListenStep(b: Bot, t: seq<AccountEffect>, e: RawEvent)
    ensures var h := Listen(b, t, e);
      && Posts(h.state) == Posts(t) + ExpectedPosts(b, [e])
      && Spawns(h.state) == Spawns(t) + StartedGames([e])
  {
    var h := Listen(b, t, e);
    if e.tag == Some("challenge") {
      ChallengeAnswered(b, t, e);
      var req := ChallengeRequest(e.challenge.id, b.accept(e.challenge));
      PostsAppend(t, [Answered(req, b.net(t, req))]);
      SpawnsAppend(t, [Answered(req, b.net(t, req))]);
    } else if e.tag == Some("gameStart") {
      GameStartSpawns(b, t, e);
      PostsAppend(t, [Spawned(e.game.id)]);
      SpawnsAppend(t, [Spawned(e.game.id)]);
    } else {
      OtherTagsIgnored(b, t, e);
    }
    assert ExpectedPosts(b, [e]) == ExpectedPosts(b, [e]) + ExpectedPosts(b, []);
    assert StartedGames([e]) == StartedGames([e]) + StartedGames([]);
  }

  /**
   * Over a stream of events none of which throws, every challenge is
   * answered exactly once, in order, and every game start submits exactly
   * one session, in order; nothing else is requested or submitted.
   */
  lemma {:induction false} EveryEventHandled(b: Bot, t: seq<AccountEffect>, evs: seq<RawEvent>)
    requires Apply(AccountProcessor(b), t, evs).Continue?
    ensures var t' := Apply(AccountProcessor(b), t, evs).state;
      && Posts(t') == Posts(t) + ExpectedPosts(b, evs)
      && Spawns(t') == Spawns(t) + StartedGames(evs)
    decreases |evs|
  {
    if evs != [] {
      var h := Listen(b, t, evs[0]);
      ApplyFirst(b, t, evs);
      ListenStep(b, t, evs[0]);
      EveryEventHandled(b, h.state, evs[1..]);
      ExpectedFirst(b, evs);
    }
  }

  /** The fold over a non-empty stream of account events is `Listen` on the first, then the rest. */
  lemma ApplyFirst(b: Bot, t: seq<AccountEffect>, evs: seq<RawEvent>)
    requires evs != []
    ensures var h := Listen(b, t, evs[0]);
      Apply(AccountProcessor(b), t, evs) == if h.Continue? then Apply(AccountProcessor(b), h.state, evs[1..]) else h
  {
    assert AccountProcessor(b)(t, evs[0]) == Listen(b, t, evs[0]);
  }

  /** The expected answers and games split at the first event. */
  lemma ExpectedFirst(b: Bot, evs: seq<RawEvent>)
    requires evs != []
    ensures ExpectedPosts(b, evs) == ExpectedPosts(b, [evs[0]]) + ExpectedPosts(b, evs[1..])
    ensures StartedGames(evs) == StartedGames([evs[0]]) + StartedGames(evs[1..])
  {
    assert [evs[0]][1..] == [];
  }

  /**
   * Whatever the account stream, when no handler call throws, the requests
   * made are the answers the delivered challenges call for and the sessions
   * submitted are the delivered game starts, in order.
   */
  lemma ListenEffects(b: Bot, toks: seq<Token<RawEvent>>)
    requires Apply(AccountProcessor(b), [], ListenAll(b, toks).delivered).Continue?
    ensures var r := ListenAll(b, toks);
      && Posts(r.state) == ExpectedPosts(b, r.delivered)
      && Spawns(r.state) == StartedGames(r.delivered)
  {
    EveryEventHandled(b, [], ListenAll(b, toks).delivered);
  }

  /**
   * An account stream that is an array of events whose POSTs all get a reply
   * ends normally, having answered every challenge and started every game.
   */
  lemma ListenToArray(b: Bot, evs: seq<RawEvent>)
    requires Apply(AccountProcessor(b), [], evs).Continue?
    ensures var r := ListenAll(b, [StartArray] + Objects(evs) + [EndArray]);
      && r.outcome == Ended
      && r.delivered == evs
      && Posts(r.state) == ExpectedPosts(b, evs)
      && Spawns(r.state) == StartedGames(evs)
  {
    var toks := [StartArray] + Objects(evs) + [EndArray];
    assert toks == [StartArray] + Objects(evs) + [EndArray] + [];
    ArrayOfObjects(evs, [], AccountProcessor(b), []);
    FixedAgrees(toks, AccountProcessor(b), []);
    EveryEventHandled(b, [], evs);
  }
}
