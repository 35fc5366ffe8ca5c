/**
 * `LichessBot.processStream`: the earlier copy of the decoder, written as
 * the Java loop is written (a `token` variable, a skip loop that does not
 * assign it, and a `scanMore` flag), and proved to compute the same run as
 * `Decoder.Stream`.
 */
module BotStream {
  import opened Wrappers
  import opened Decoder

  /** A value of `nextToken`: `None` is the `null` of end of input. */
  function Peek<T>(toks: seq<Token<T>>, pos: nat): Option<Token<T>>
  {
    if pos < |toks| then Some(toks[pos]) else None
  }

  /**
   * The decoder loop of LichessBot.java:107-146.  Inputs on which it never
   * returns (a stray first token with no tokenizer fault after it, see
   * `Decoder.DivergesIff`) are excluded.
   */
  method ProcessStream<T, S, E>(toks: seq<Token<T>>, process: (S, T) -> Step<S, E>, s0: S)
    returns (delivered: seq<T>, state: S, outcome: Outcome<E>, observed: nat)
    requires Stream(toks, process, s0).outcome != Diverges
    ensures Run(delivered, state, outcome, observed) == Stream(toks, process, s0)
  {
    ghost var target := Stream(toks, process, s0);
    delivered, state := [], s0;

    // the first token is read before the `try`, so its fault escapes unwrapped
    if toks != [] && toks[0].Broken? {
      return [], s0, Escaped(toks[0].fault), 1;
    }
    var token := Peek(toks, 0);
    var pos: nat := if toks == [] then 0 else 1;

    // the skip loop: nextToken's result is dropped, only its exceptions matter
    while token.Some? && token.value.Stray()
      invariant pos <= |toks|
      invariant token.Some? ==> toks != [] && token == Some(toks[0])
      invariant token.Some? && !token.value.Stray() ==> pos == 1
      invariant token.Some? && token.value.Stray() ==> 1 <= pos && Skip<T, S, E>(toks, pos, s0) == target
      decreases |toks| - pos
    {
      assert pos < |toks|;
      match toks[pos].TokenizerFault() {
        case Some(f) =>
          return [], s0, Escaped(f), pos + 1;
        case None =>
      }
      pos := pos + 1;
    }

    if token.None? {
      return [], s0, Ended, 1;
    }
    delivered, state, outcome, observed := MainLoop(toks, process, s0);
  }

  /** `d` delivered before the run `r`. */
  function Prepend<T, S, E>(d: seq<T>, r: Run<T, S, E>): Run<T, S, E>
  {
    Run(d + r.delivered, r.state, r.outcome, r.observed)
  }

  lemma PrependNothing<T, S, E>(r: Run<T, S, E>)
    ensures Prepend([], r) == r
  {
    assert [] + r.delivered == r.delivered;
  }

  /** One object handed over and accepted, then the rest of the run. */
  lemma DeliverContinues<T, S, E>(toks: seq<Token<T>>, i: nat, process: (S, T) -> Step<S, E>, s: S,
                                  d: seq<T>, v: T, s': S)
    requires i < |toks| && toks[i] == Obj(v) && process(s, v) == Continue(s')
    ensures Prepend(d, Deliver(toks, i, process, s)) == Prepend(d + [v], Deliver(toks, i + 1, process, s'))
  {
    var r := Deliver(toks, i + 1, process, s');
    assert Deliver(toks, i, process, s) == Prepend([v], r);
    assert d + ([v] + r.delivered) == (d + [v]) + r.delivered;
  }

  /** A run that ends at `i` after reading one more token. */
  lemma DeliverEnds<T, S, E>(toks: seq<Token<T>>, i: nat, process: (S, T) -> Step<S, E>, s: S, d: seq<T>)
    requires i <= |toks|
    requires i == |toks| || !toks[i].Obj?
    ensures Prepend(d, Deliver(toks, i, process, s)) == Run(d, s, Deliver(toks, i, process, s).outcome,
                                                               if i == |toks| then |toks| + 1 else i + 1)
  {
    assert d + [] == d;
  }

  /**
   * The main loop (LichessBot.java:121-145), entered with `token` holding
   * the first token, which opens an array or an object.
   */
  method MainLoop<T, S, E>(toks: seq<Token<T>>, process: (S, T) -> Step<S, E>, s0: S)
    returns (delivered: seq<T>, state: S, outcome: Outcome<E>, observed: nat)
    requires toks != [] && (toks[0].StartArray? || toks[0].StartsObject())
    ensures Run(delivered, state, outcome, observed) == Deliver(toks, Start(toks), process, s0)
  {
    ghost var target := Deliver(toks, Start(toks), process, s0);
    delivered, state := [], s0;
    var token := Some(toks[0]);
    var pos: nat := 1;
    var scanMore := false;
    ghost var at: nat := Start(toks);
    PrependNothing(target);
    while true
      invariant pos <= |toks|
      invariant token.Some? && (token.value.StartsObject() || (!scanMore && token.value.StartArray?))
      invariant !scanMore ==> pos == 1 && token == Some(toks[0]) && delivered == [] && state == s0
      invariant at == if !scanMore && token.value.StartsObject() then pos - 1 else pos
      invariant target == Prepend(delivered, Deliver(toks, at, process, state))
      decreases |toks| - pos, if scanMore then 0 else 1
    {
      if !token.value.StartsObject() || scanMore {
        // the next token, read inside the `try`: a syntax fault becomes a parse error
        assert at == pos;
        if pos < |toks| && toks[pos].Broken? {
          DeliverEnds(toks, pos, process, state, delivered);
          return delivered, state, Wrap(toks[pos].fault), pos + 1;
        }
        token := Peek(toks, pos);
        if pos < |toks| {
          pos := pos + 1;
        }
      }
      assert token.Some? ==> at < |toks| && toks[at] == token.value && pos == at + 1;
      if token.None? || !token.value.StartsObject() {
        DeliverEnds(toks, at, process, state, delivered);
        break;
      }
      // bind the object at hand to a value, inside the same `try`
      var value;
      match token.value {
        case BadObj(f) =>
          DeliverEnds(toks, at, process, state, delivered);
          return delivered, state, Wrap(f), pos;
        case Obj(v) =>
          value := v;
      }
      // hand the value to the processor; its syntax errors are caught with the decoder's
      match process(state, value) {
        case Stop(s', e) =>
          return delivered + [value], s', ProcessorFailed(e), pos;
        case Malformed(s') =>
          return delivered + [value], s', ParseError, pos;
        case Continue(s') =>
          DeliverContinues(toks, at, process, state, delivered, value, s');
          delivered, state := delivered + [value], s';
      }
      scanMore := true;
      at := pos;
    }
    observed := if token.None? then |toks| + 1 else pos;
    return delivered, state, Ended, observed;
  }
}
