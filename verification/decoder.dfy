/**
 * The streaming JSON value decoder of `LichessRestClient.stream`.
 *
 * The Jackson parser is abstracted as the finite list of tokens it would
 * return from `nextToken`, end of input being the end of the list (where
 * `nextToken` answers `null`).  An object is one token: `readValue` consumes
 * it whole.  The value processor is a state-passing function, so that a
 * caller's effects (a game session's calls and requests) are threaded through
 * the values in the order they are delivered.
 */
module Decoder {
  import opened Wrappers

  /**
   * What the parser can throw: a JSON syntax error (`JsonParseException`),
   * an object that cannot be bound to the value type (`JsonMappingException`),
   * or an I/O failure of the underlying stream.
   */
  datatype Fault = Syntax | Mapping | Io

  datatype Token<T> =
    | StartArray
    | EndArray
    | Scalar                 // any other token: a field name, a string, a number, ...
    | Obj(value: T)          // an object that `readValue` binds to `value`
    | BadObj(fault: Fault)   // `nextToken` reports an object start, but `readValue` throws
    | Broken(fault: Fault)   // `nextToken` throws at this point
  {
    /** `nextToken` answers START_OBJECT. */
    predicate StartsObject()
    {
      Obj? || BadObj?
    }

    /** A readable first token that is neither an array nor an object start. */
    predicate Stray()
    {
      EndArray? || Scalar?
    }

    /** What stepping the tokenizer across this token throws, if anything. */
    function TokenizerFault(): Option<Fault>
    {
      match this
      case Broken(f) => Some(f)
      case BadObj(f) => if f == Mapping then None else Some(f)
      case _ => None
    }
  }

  /**
   * The processor's answer for one value: go on, throw `error`, or throw a
   * JSON syntax error of its own (a `JsonParseException` raised while it
   * reads a reply), which the decoder's `catch` cannot tell from its own.
   */
  datatype Step<S, E> = Continue(state: S) | Stop(state: S, error: E) | Malformed(state: S)

  /** How the main loop's `catch` passes on a failed processor call. */
  function CaughtAs<S, E>(st: Step<S, E>): Outcome<E>
  {
    match st
    case Stop(_, e) => ProcessorFailed(e)
    case Malformed(_) => ParseError
    case Continue(_) => Ended
  }

  /** How a call of the decoder ends. */
  datatype Outcome<E> =
    | Ended                     // returns normally
    | ProcessorFailed(error: E) // the processor's exception, propagated unchanged
    | ParseError                // a syntax error, rethrown as an unchecked exception
    | Escaped(fault: Fault)     // a parser exception that is not wrapped
    | Diverges                  // never returns

  /**
   * The values handed to the processor (in order, including one it threw on),
   * the processor's final state, the outcome, and how many tokens were read,
   * the end-of-input `null` counting as one more.
   */
  datatype Run<T, S, E> = Run(delivered: seq<T>, state: S, outcome: Outcome<E>, observed: nat)

  /** Only a `JsonParseException` raised inside the main loop is wrapped. */
  function Wrap<E>(f: Fault): Outcome<E>
  {
    if f == Syntax then ParseError else Escaped(f)
  }

  /** The index at which the main loop reads its first token. */
  function Start<T>(toks: seq<Token<T>>): nat
  {
    if toks != [] && toks[0].StartArray? then 1 else 0
  }

  /**
   * The main loop (LichessRestClient.java:109-133), positioned so that
   * `toks[i]` is the next token to examine.
   */
  function Deliver<T, S, E>(toks: seq<Token<T>>, i: nat, process: (S, T) -> Step<S, E>, s: S)
    : (r: Run<T, S, E>)
    requires i <= |toks|
    ensures i + |r.delivered| <= |toks|
    ensures forall k :: 0 <= k < |r.delivered| ==> toks[i + k] == Obj(r.delivered[k])
    ensures r.outcome != Diverges
    ensures i < r.observed <= |toks| + 1
    decreases |toks| - i
  {
    if i == |toks| then Run([], s, Ended, |toks| + 1)
    else match toks[i]
      case Obj(v) =>
        var st := process(s, v);
        if !st.Continue? then Run([v], st.state, CaughtAs(st), i + 1)
        else
          var r := Deliver(toks, i + 1, process, st.state);
          Run([v] + r.delivered, r.state, r.outcome, r.observed)
      case BadObj(f) => Run([], s, Wrap(f), i + 1)
      case Broken(f) => Run([], s, Wrap(f), i + 1)
      case _ => Run([], s, Ended, i + 1)
  }

  /**
   * The skip loop as written (LichessRestClient.java:100-102): `token` is
   * never reassigned, so the loop only ends by an exception of the tokenizer.
   */
  function Skip<T, S, E>(toks: seq<Token<T>>, i: nat, s: S): (r: Run<T, S, E>)
    requires i <= |toks|
    ensures r.delivered == [] && r.state == s
    ensures r.outcome.Diverges? || r.outcome.Escaped?
    ensures i < r.observed <= |toks| + 1
    decreases |toks| - i
  {
    if i == |toks| then Run([], s, Diverges, |toks| + 1)
    else match toks[i].TokenizerFault()
      case Some(f) => Run([], s, Escaped(f), i + 1)
      case None => Skip(toks, i + 1, s)
  }

  /** `LichessRestClient.stream(InputStream, ...)`, as written. */
  function Stream<T, S, E>(toks: seq<Token<T>>, process: (S, T) -> Step<S, E>, s0: S)
    : (r: Run<T, S, E>)
    ensures Start(toks) + |r.delivered| <= |toks|
    ensures forall k :: 0 <= k < |r.delivered| ==> toks[Start(toks) + k] == Obj(r.delivered[k])
    ensures toks == [] ==> r.delivered == [] && r.state == s0 && r.outcome == Ended
    ensures 1 <= r.observed <= |toks| + 1
  {
    if toks == [] then Run([], s0, Ended, 1)
    else match toks[0]
      case Broken(f) => Run([], s0, Escaped(f), 1)
      case StartArray => Deliver(toks, 1, process, s0)
      case Obj(_) => Deliver(toks, 0, process, s0)
      case BadObj(_) => Deliver(toks, 0, process, s0)
      case _ => Skip(toks, 1, s0)
  }

  // ------------------------------------------------------------------
  // Reference description: the maximal run of objects

  /** The first index at or after `i` that does not hold a bound object. */
  function RunEnd<T>(toks: seq<Token<T>>, i: nat): (j: nat)
    requires i <= |toks|
    ensures i <= j <= |toks|
    ensures forall k :: i <= k < j ==> toks[k].Obj?
    ensures j == |toks| || !toks[j].Obj?
    decreases |toks| - i
  {
    if i == |toks| || !toks[i].Obj? then i else RunEnd(toks, i + 1)
  }

  /** The values of a list of bound objects. */
  function Values<T>(ts: seq<Token<T>>): (vs: seq<T>)
    requires forall k :: 0 <= k < |ts| ==> ts[k].Obj?
    ensures |vs| == |ts|
    ensures forall k :: 0 <= k < |ts| ==> ts[k] == Obj(vs[k])
  {
    seq(|ts|, k requires 0 <= k < |ts| => ts[k].value)
  }

  /** A list of bound objects. */
  function Objects<T>(vs: seq<T>): (ts: seq<Token<T>>)
    ensures |ts| == |vs|
    ensures forall k :: 0 <= k < |vs| ==> ts[k] == Obj(vs[k])
  {
    seq(|vs|, k requires 0 <= k < |vs| => Obj(vs[k]))
  }

  /** How the main loop ends on the token at `j` that is not a bound object. */
  function Finish<T, E>(toks: seq<Token<T>>, j: nat): Outcome<E>
    requires j <= |toks|
  {
    if j == |toks| then Ended
    else match toks[j]
      case BadObj(f) => Wrap(f)
      case Broken(f) => Wrap(f)
      case _ => Ended
  }

  /** Feeds values to the processor until it throws. */
  function Apply<T, S, E>(process: (S, T) -> Step<S, E>, s: S, vs: seq<T>): Step<S, E>
    decreases |vs|
  {
    if vs == [] then Continue(s)
    else
      var st := process(s, vs[0]);
      if st.Continue? then Apply(process, st.state, vs[1..]) else st
  }

  /** How many values `Apply` hands over, the one the processor throws on included. */
  function Taken<T, S, E>(process: (S, T) -> Step<S, E>, s: S, vs: seq<T>): (n: nat)
    ensures n <= |vs|
    ensures Apply(process, s, vs).Continue? ==> n == |vs|
    ensures !Apply(process, s, vs).Continue? ==> 1 <= n
    decreases |vs|
  {
    if vs == [] then 0
    else
      var st := process(s, vs[0]);
      if st.Continue? then 1 + Taken(process, st.state, vs[1..]) else 1
  }

  /** The run the reference description predicts for the main loop started at `i`. */
  function Predicted<T, S, E>(toks: seq<Token<T>>, i: nat, process: (S, T) -> Step<S, E>, s: S)
    : Run<T, S, E>
    requires i <= |toks|
  {
    var j := RunEnd(toks, i);
    var vs := Values(toks[i..j]);
    var a := Apply(process, s, vs);
    var n := Taken(process, s, vs);
    if a.Continue? then Run(vs, a.state, Finish(toks, j), j + 1)
    else Run(vs[..n], a.state, CaughtAs(a), i + n)
  }

  /**
   * The main loop hands the processor exactly the maximal run of bound
   * objects starting at `i`, stops at the first token that is not one (or at
   * the value the processor throws on), and reads one token past the run.
   */
  lemma {:induction false} DeliverIsMaximalRun<T, S, E>(
    toks: seq<Token<T>>, i: nat, process: (S, T) -> Step<S, E>, s: S)
    requires i <= |toks|
    ensures Deliver(toks, i, process, s) == Predicted(toks, i, process, s)
    decreases |toks| - i
  {
    if i < |toks| && toks[i].Obj? {
      var st := process(s, toks[i].value);
      if st.Continue? {
        DeliverIsMaximalRun(toks, i + 1, process, st.state);
      }
      PredictedStep(toks, i, process, s);
    }
  }

  /** The prediction at a bound object, in terms of the prediction one token further. */
  lemma PredictedStep<T, S, E>(toks: seq<Token<T>>, i: nat, process: (S, T) -> Step<S, E>, s: S)
    requires i < |toks| && toks[i].Obj?
    ensures var v := toks[i].value;
      var st := process(s, v);
      Predicted(toks, i, process, s) ==
        if !st.Continue? then Run([v], st.state, CaughtAs(st), i + 1)
        else
          var r := Predicted(toks, i + 1, process, st.state);
          Run([v] + r.delivered, r.state, r.outcome, r.observed)
  {
    var v := toks[i].value;
    var j := RunEnd(toks, i);
    var vs := Values(toks[i..j]);
    assert vs[0] == v;
    assert Values(toks[i + 1..j]) == vs[1..];
    var st := process(s, v);
    if st.Continue? {
      var a := Apply(process, st.state, vs[1..]);
      if !a.Continue? {
        var n := Taken(process, st.state, vs[1..]);
        assert vs[..1 + n] == [v] + vs[1..][..n];
      }
    }
  }

  /** The decoder's run whenever the first token opens an array or an object. */
  lemma StreamIsMaximalRun<T, S, E>(toks: seq<Token<T>>, process: (S, T) -> Step<S, E>, s0: S)
    requires toks != [] && (toks[0].StartArray? || toks[0].StartsObject())
    ensures Stream(toks, process, s0) == Predicted(toks, Start(toks), process, s0)
  {
    DeliverIsMaximalRun(toks, Start(toks), process, s0);
  }

  // ------------------------------------------------------------------
  // The listed consequences

  /** An empty stream calls the processor zero times and returns normally. */
  lemma EmptyStream<T, S, E>(process: (S, T) -> Step<S, E>, s0: S)
    ensures Stream([], process, s0) == Run([], s0, Ended, 1)
  {
  }

  /**
   * `[o1, ..., oN]` delivers exactly o1 ... oN in order and stops at the
   * closing bracket, whatever follows it.
   */
  lemma ArrayOfObjects<T, S, E>(vs: seq<T>, rest: seq<Token<T>>, process: (S, T) -> Step<S, E>, s0: S)
    requires Apply(process, s0, vs).Continue?
    ensures var toks := [StartArray] + Objects(vs) + [EndArray] + rest;
      Stream(toks, process, s0) == Run(vs, Apply(process, s0, vs).state, Ended, |vs| + 2)
  {
    ArrayLayout(vs, rest);
    ArrayShape([StartArray] + Objects(vs) + [EndArray] + rest, vs, process, s0);
  }

  lemma ArrayLayout<T>(vs: seq<T>, rest: seq<Token<T>>)
    ensures var toks := [StartArray] + Objects(vs) + [EndArray] + rest;
      1 + |vs| < |toks| && toks[0].StartArray? && toks[1 + |vs|].EndArray? && toks[1..1 + |vs|] == Objects(vs)
  {
    var toks := [StartArray] + Objects(vs) + [EndArray] + rest;
    forall k | 0 <= k < |vs| ensures toks[1 + k] == Objects(vs)[k] {
      assert toks[1 + k] == ([StartArray] + Objects(vs))[1 + k];
    }
    assert toks[1..1 + |vs|] == Objects(vs);
    assert toks[1 + |vs|] == ([StartArray] + Objects(vs) + [EndArray])[1 + |vs|];
  }

  lemma ArrayShape<T, S, E>(toks: seq<Token<T>>, vs: seq<T>, process: (S, T) -> Step<S, E>, s0: S)
    requires 1 + |vs| < |toks| && toks[0].StartArray? && toks[1 + |vs|].EndArray?
    requires toks[1..1 + |vs|] == Objects(vs)
    requires Apply(process, s0, vs).Continue?
    ensures Stream(toks, process, s0) == Run(vs, Apply(process, s0, vs).state, Ended, |vs| + 2)
  {
    RunEndOfObjects(toks, 1, vs);
    AllAccepted<T, S, E>(toks, 1, vs, process, s0);
    StreamIsMaximalRun(toks, process, s0);
  }

  /** When the processor accepts the whole run, the prediction is that run. */
  lemma AllAccepted<T, S, E>(toks: seq<Token<T>>, i: nat, vs: seq<T>, process: (S, T) -> Step<S, E>, s: S)
    requires i + |vs| < |toks| && RunEnd(toks, i) == i + |vs| && toks[i..i + |vs|] == Objects(vs)
    requires toks[i + |vs|].StartArray? || toks[i + |vs|].EndArray? || toks[i + |vs|].Scalar?
    requires Apply(process, s, vs).Continue?
    ensures Predicted(toks, i, process, s) == Run(vs, Apply(process, s, vs).state, Ended, i + |vs| + 1)
  {
    assert Values(Objects(vs)) == vs;
  }

  /**
   * N bare top-level objects are all delivered in order, the first without
   * advancing the parser, when the input ends or continues with a token that
   * is not an object.
   */
  lemma BareObjects<T, S, E>(vs: seq<T>, rest: seq<Token<T>>, process: (S, T) -> Step<S, E>, s0: S)
    requires vs != []
    requires rest == [] || rest[0].StartArray? || rest[0].EndArray? || rest[0].Scalar?
    requires Apply(process, s0, vs).Continue?
    ensures Stream(Objects(vs) + rest, process, s0).delivered == vs
    ensures Stream(Objects(vs) + rest, process, s0).outcome == Ended
    ensures Stream(Objects(vs) + rest, process, s0).state == Apply(process, s0, vs).state
  {
    var toks := Objects(vs) + rest;
    var j := |vs|;
    assert toks[0..j] == Objects(vs);
    assert j < |toks| ==> toks[j] == rest[0];
    RunEndOfObjects(toks, 0, vs);
    assert Values(toks[0..j]) == vs;
    assert Finish<T, E>(toks, j) == Ended;
    StreamIsMaximalRun(toks, process, s0);
  }

  lemma RunEndOfObjects<T>(toks: seq<Token<T>>, i: nat, vs: seq<T>)
    requires i + |vs| <= |toks| && toks[i..i + |vs|] == Objects(vs)
    requires i + |vs| == |toks| || !toks[i + |vs|].Obj?
    ensures RunEnd(toks, i) == i + |vs|
  {
    forall k | i <= k < i + |vs| ensures toks[k].Obj? {
      assert toks[k] == toks[i..i + |vs|][k - i];
    }
  }

  /**
   * When the processor throws on the value at position k of the run, the
   * values up to it were delivered and nothing later is read or delivered.
   * Its exception is the outcome unchanged, unless it is a JSON syntax error,
   * which the main loop's `catch` turns into `ParseError`.
   */
  lemma ProcessorFailureStops<T, S, E>(toks: seq<Token<T>>, k: nat, process: (S, T) -> Step<S, E>, s0: S)
    requires toks != [] && (toks[0].StartArray? || toks[0].StartsObject())
    requires Start(toks) + k < RunEnd(toks, Start(toks))
    requires var vs := Values(toks[Start(toks)..RunEnd(toks, Start(toks))]);
      var before := Apply(process, s0, vs[..k]);
      before.Continue? && !process(before.state, vs[k]).Continue?
    ensures var vs := Values(toks[Start(toks)..RunEnd(toks, Start(toks))]);
      var failed := process(Apply(process, s0, vs[..k]).state, vs[k]);
      var r := Stream(toks, process, s0);
      && r.delivered == vs[..k + 1] && r.state == failed.state && r.observed == Start(toks) + k + 1
      && (failed.Stop? ==> r.outcome == ProcessorFailed(failed.error))
      && (failed.Malformed? ==> r.outcome == ParseError)
  {
    StreamIsMaximalRun(toks, process, s0);
    var vs := Values(toks[Start(toks)..RunEnd(toks, Start(toks))]);
    ApplyStopsAt(process, s0, vs, k);
  }

  /** `Apply` stops exactly at the first value the processor throws on. */
  lemma {:induction false} ApplyStopsAt<T, S, E>(process: (S, T) -> Step<S, E>, s: S, vs: seq<T>, k: nat)
    requires k < |vs|
    requires Apply(process, s, vs[..k]).Continue?
    requires !process(Apply(process, s, vs[..k]).state, vs[k]).Continue?
    ensures Apply(process, s, vs) == process(Apply(process, s, vs[..k]).state, vs[k])
    ensures Taken(process, s, vs) == k + 1
    decreases k
  {
    if k > 0 {
      assert vs[..k][0] == vs[0];
      var st := process(s, vs[0]);
      if st.Continue? {
        assert vs[..k][1..] == vs[1..][..k - 1];
        ApplyStopsAt(process, st.state, vs[1..], k - 1);
      }
    }
  }

  /**
   * A syntax error met inside the main loop becomes `ParseError`; the same
   * error on the very first token escapes unwrapped.
   */
  lemma ParseErrors<T, S, E>(toks: seq<Token<T>>, process: (S, T) -> Step<S, E>, s0: S)
    ensures toks != [] && toks[0] == Broken(Syntax) ==> Stream(toks, process, s0).outcome == Escaped(Syntax)
    ensures |toks| >= 2 && toks[0].StartArray? && (toks[1] == Broken(Syntax) || toks[1] == BadObj(Syntax))
      ==> Stream(toks, process, s0) == Run([], s0, ParseError, 2)
    ensures toks != [] && toks[0] == BadObj(Syntax) ==> Stream(toks, process, s0) == Run([], s0, ParseError, 1)
  {
  }

  /**
   * Wherever the run of objects is cut by a syntax error, the stream ends in
   * `ParseError` after delivering the whole run, provided the processor
   * accepted every value of it.
   */
  lemma ParseErrorInLoop<T, S, E>(toks: seq<Token<T>>, process: (S, T) -> Step<S, E>, s0: S)
    requires toks != [] && (toks[0].StartArray? || toks[0].StartsObject())
    requires var j := RunEnd(toks, Start(toks));
      j < |toks| && (toks[j] == Broken(Syntax) || toks[j] == BadObj(Syntax))
    requires Apply(process, s0, Values(toks[Start(toks)..RunEnd(toks, Start(toks))])).Continue?
    ensures var j := RunEnd(toks, Start(toks));
      var r := Stream(toks, process, s0);
      r.outcome == ParseError && r.delivered == Values(toks[Start(toks)..j]) && r.observed == j + 1
  {
    StreamIsMaximalRun(toks, process, s0);
  }

  /** What the skip loop scans before it meets a tokenizer fault. */
  predicate NoFaultFrom<T>(toks: seq<Token<T>>, i: nat)
  {
    forall k :: i <= k < |toks| ==> toks[k].TokenizerFault().None?
  }

  lemma {:induction false} SkipDiverges<T, S, E>(toks: seq<Token<T>>, i: nat, s: S)
    requires i <= |toks|
    ensures Skip<T, S, E>(toks, i, s).outcome == Diverges <==> NoFaultFrom(toks, i)
    decreases |toks| - i
  {
    if i < |toks| {
      SkipDiverges<T, S, E>(toks, i + 1, s);
    }
  }

  /**
   * The decoder fails to return exactly when the first token is stray and no
   * later token makes the tokenizer throw.
   */
  lemma DivergesIff<T, S, E>(toks: seq<Token<T>>, process: (S, T) -> Step<S, E>, s0: S)
    ensures Stream(toks, process, s0).outcome == Diverges <==> toks != [] && toks[0].Stray() && NoFaultFrom(toks, 1)
  {
    if toks != [] && toks[0].Stray() {
      SkipDiverges<T, S, E>(toks, 1, s0);
    }
  }

  /**
   * Nothing past the tokens the decoder reads can change its run: a result
   * that did not read the end of input is the same for every continuation.
   */
  lemma ReadsNoFurther<T, S, E>(toks: seq<Token<T>>, tail: seq<Token<T>>, process: (S, T) -> Step<S, E>, s0: S)
    requires Stream(toks, process, s0).observed <= |toks|
    ensures var n := Stream(toks, process, s0).observed;
      Stream(toks[..n] + tail, process, s0) == Stream(toks, process, s0)
  {
    var n := Stream(toks, process, s0).observed;
    var toks' := toks[..n] + tail;
    assert toks'[0] == toks[0];
    match toks[0]
    case StartArray => DeliverPrefix(toks, toks', 1, n, process, s0);
    case Obj(_) => DeliverPrefix(toks, toks', 0, n, process, s0);
    case BadObj(_) => DeliverPrefix(toks, toks', 0, n, process, s0);
    case Broken(_) =>
    case _ => SkipPrefix<T, S, E>(toks, toks', 1, n, s0);
  }

  lemma {:induction false} DeliverPrefix<T, S, E>(
    toks: seq<Token<T>>, toks': seq<Token<T>>, i: nat, n: nat, process: (S, T) -> Step<S, E>, s: S)
    requires i <= |toks| && n <= |toks| && n <= |toks'| && toks[..n] == toks'[..n]
    requires Deliver(toks, i, process, s).observed <= n
    ensures i <= |toks'| && Deliver(toks', i, process, s) == Deliver(toks, i, process, s)
    decreases |toks| - i
  {
    assert toks[i] == toks[..n][i] == toks'[i];
    if toks[i].Obj? {
      var st := process(s, toks[i].value);
      if st.Continue? {
        DeliverPrefix(toks, toks', i + 1, n, process, st.state);
      }
    }
  }

  lemma {:induction false} SkipPrefix<T, S, E>(toks: seq<Token<T>>, toks': seq<Token<T>>, i: nat, n: nat, s: S)
    requires i <= |toks| && n <= |toks| && n <= |toks'| && toks[..n] == toks'[..n]
    requires Skip<T, S, E>(toks, i, s).observed <= n
    ensures i <= |toks'| && Skip<T, S, E>(toks', i, s) == Skip<T, S, E>(toks, i, s)
    decreases |toks| - i
  {
    if i < |toks| {
      assert toks[i] == toks[..n][i] == toks'[i];
      if toks[i].TokenizerFault().None? {
        SkipPrefix<T, S, E>(toks, toks', i + 1, n, s);
      }
    }
  }

  // ------------------------------------------------------------------
  // The skip loop as intended

  /**
   * The decoder with the skip loop assigning each `nextToken` result to
   * `token`, as its comment ("try find at least one object or array") means.
   */
  function StreamFixed<T, S, E>(toks: seq<Token<T>>, process: (S, T) -> Step<S, E>, s0: S)
    : (r: Run<T, S, E>)
    ensures r.outcome != Diverges
  {
    if toks == [] then Run([], s0, Ended, 1)
    else if toks[0].Broken? then Run([], s0, Escaped(toks[0].fault), 1)
    else Seek(toks, 0, process, s0)
  }

  /** The corrected skip loop, holding the readable token `toks[i]`. */
  function Seek<T, S, E>(toks: seq<Token<T>>, i: nat, process: (S, T) -> Step<S, E>, s: S)
    : (r: Run<T, S, E>)
    requires i < |toks| && !toks[i].Broken?
    ensures r.outcome != Diverges
    decreases |toks| - i
  {
    if toks[i].StartArray? then Deliver(toks, i + 1, process, s)
    else if toks[i].StartsObject() then Deliver(toks, i, process, s)
    else if i + 1 == |toks| then Run([], s, Ended, |toks| + 1)
    else if toks[i + 1].Broken? then Run([], s, Escaped(toks[i + 1].fault), i + 2)
    else Seek(toks, i + 1, process, s)
  }

  /** The corrected decoder agrees with the written one unless the first token is stray. */
  lemma FixedAgrees<T, S, E>(toks: seq<Token<T>>, process: (S, T) -> Step<S, E>, s0: S)
    requires toks == [] || !toks[0].Stray()
    ensures StreamFixed(toks, process, s0) == Stream(toks, process, s0)
  {
  }

  /** Stray tokens only: the written decoder hangs, the corrected one returns nothing. */
  lemma {:induction false} StrayOnly<T, S, E>(toks: seq<Token<T>>, i: nat, process: (S, T) -> Step<S, E>, s: S)
    requires i < |toks| && toks[i].Stray()
    requires forall k :: i <= k < |toks| ==> toks[k].Stray()
    ensures Seek(toks, i, process, s) == Run([], s, Ended, |toks| + 1)
    decreases |toks| - i
  {
    if i + 1 < |toks| {
      StrayOnly(toks, i + 1, process, s);
    }
  }

  /** The finding: a stream holding one scalar makes the written decoder spin forever. */
  lemma SkipLoopHangs<T, S, E>(process: (S, T) -> Step<S, E>, s0: S)
    ensures Stream<T, S, E>([Scalar], process, s0).outcome == Diverges
    ensures StreamFixed<T, S, E>([Scalar], process, s0) == Run([], s0, Ended, 2)
  {
  }

  /**
   * The corrected decoder skips stray tokens and then behaves like the
   * written one started at the first array or object.
   */
  lemma {:induction false} FixedSkipsStray<T, S, E>(
    toks: seq<Token<T>>, i: nat, process: (S, T) -> Step<S, E>, s0: S)
    requires i < |toks| && (toks[i].StartArray? || toks[i].StartsObject())
    requires forall k :: 0 <= k < i ==> toks[k].Stray()
    ensures StreamFixed(toks, process, s0) == Stream(toks[i..], process, s0).(observed := Stream(toks[i..], process, s0).observed + i)
  {
    SeekReaches(toks, 0, i, process, s0);
    var sub := toks[i..];
    assert sub[0] == toks[i];
    if toks[i].StartArray? {
      DeliverShift(toks, i, 1, process, s0);
    } else {
      DeliverShift(toks, i, 0, process, s0);
    }
  }

  /** The corrected skip loop passes over stray tokens up to the first array or object. */
  lemma {:induction false} SeekReaches<T, S, E>(
    toks: seq<Token<T>>, k: nat, i: nat, process: (S, T) -> Step<S, E>, s: S)
    requires k <= i < |toks| && (toks[i].StartArray? || toks[i].StartsObject())
    requires forall m :: 0 <= m < i ==> toks[m].Stray()
    ensures !toks[k].Broken?
    ensures Seek(toks, k, process, s) ==
      (if toks[i].StartArray? then Deliver(toks, i + 1, process, s) else Deliver(toks, i, process, s))
    decreases i - k
  {
    if k < i {
      assert toks[k].Stray();
      assert k + 1 < i ==> toks[k + 1].Stray();
      SeekReaches(toks, k + 1, i, process, s);
    }
  }

  /** The main loop on a suffix is the main loop on the whole list, counting reads from the cut. */
  lemma {:induction false} DeliverShift<T, S, E>(
    toks: seq<Token<T>>, i: nat, j: nat, process: (S, T) -> Step<S, E>, s: S)
    requires i + j <= |toks|
    ensures Deliver(toks, i + j, process, s) ==
      Deliver(toks[i..], j, process, s).(observed := Deliver(toks[i..], j, process, s).observed + i)
    decreases |toks| - (i + j)
  {
    if i + j < |toks| {
      assert toks[i..][j] == toks[i + j];
      if toks[i + j].Obj? {
        var st := process(s, toks[i + j].value);
        if st.Continue? {
          DeliverShift(toks, i, j + 1, process, st.state);
        }
      }
    }
  }

  // ------------------------------------------------------------------
  // Runs as folds of the processor

  /**
   * `r` is what folding the processor over the values `r` delivered, from
   * `s`, leaves behind: the same final state, and a processor exception as
   * the outcome exactly when the fold stops.
   */
  ghost predicate FoldsFrom<T, S, E>(process: (S, T) -> Step<S, E>, s: S, r: Run<T, S, E>)
  {
    var a := Apply(process, s, r.delivered);
    && a.state == r.state
    && (a.Continue? ==> !r.outcome.ProcessorFailed?)
    && (!a.Continue? ==> r.outcome == CaughtAs(a))
  }

  lemma {:induction false} DeliverFolds<T, S, E>(toks: seq<Token<T>>, i: nat, process: (S, T) -> Step<S, E>, s: S)
    requires i <= |toks|
    ensures FoldsFrom(process, s, Deliver(toks, i, process, s))
    decreases |toks| - i
  {
    if i < |toks| && toks[i].Obj? {
      var v := toks[i].value;
      var st := process(s, v);
      if st.Continue? {
        DeliverFolds(toks, i + 1, process, st.state);
        var r := Deliver(toks, i + 1, process, st.state);
        assert ([v] + r.delivered)[0] == v;
        assert ([v] + r.delivered)[1..] == r.delivered;
      } else {
        assert [v][1..] == [];
      }
    }
  }

  /** The written decoder's run is the processor folded over what it delivered. */
  lemma StreamFolds<T, S, E>(toks: seq<Token<T>>, process: (S, T) -> Step<S, E>, s0: S)
    ensures FoldsFrom(process, s0, Stream(toks, process, s0))
  {
    if toks != [] {
      match toks[0]
      case StartArray => DeliverFolds(toks, 1, process, s0);
      case Obj(_) => DeliverFolds(toks, 0, process, s0);
      case BadObj(_) => DeliverFolds(toks, 0, process, s0);
      case _ =>
    }
  }

  lemma {:induction false} SeekFolds<T, S, E>(toks: seq<Token<T>>, i: nat, process: (S, T) -> Step<S, E>, s: S)
    requires i < |toks| && !toks[i].Broken?
    ensures FoldsFrom(process, s, Seek(toks, i, process, s))
    decreases |toks| - i
  {
    if toks[i].StartArray? {
      DeliverFolds(toks, i + 1, process, s);
    } else if toks[i].StartsObject() {
      DeliverFolds(toks, i, process, s);
    } else if i + 1 < |toks| && !toks[i + 1].Broken? {
      SeekFolds(toks, i + 1, process, s);
    }
  }

  /** The corrected decoder's run is the processor folded over what it delivered. */
  lemma StreamFixedFolds<T, S, E>(toks: seq<Token<T>>, process: (S, T) -> Step<S, E>, s0: S)
    ensures FoldsFrom(process, s0, StreamFixed(toks, process, s0))
  {
    if toks != [] && !toks[0].Broken? {
      SeekFolds(toks, 0, process, s0);
    }
  }
}
