/**
  One iteration of the polling loop in `main`, as a pure step: renew the
  bearer token when its assumed lifetime has passed, read presence with
  the token, classify the activity, and command the light only when the
  classification differs from the last one commanded.
*/
module PollLoop {
  import opened Optional
  import opened Presence

  /** Seconds a token is assumed to stay valid, short of its real lifetime. */
  const TokenLifetime: int := 3300

  /**
    The loop's variables. `lastStatus` is `None` before the first
    successful poll; it records the last state commanded, whether or not
    the light accepted the command.
  */
  datatype PollState = PollState(accessToken: string, tokenExpiry: int, lastStatus: Option<bool>)

  /**
    What the outside world supplies to one iteration: the clock read for the
    expiry test, the clock read after a renewal, the token a renewal would
    obtain, and the presence read (`None` when the request failed).
  */
  datatype Tick = Tick(clock: int, renewalClock: int, freshToken: string, presence: Option<PresenceDoc>)

  /**
    The result of one iteration: the new state, the token the presence
    request carried, and the state `keylight_set_on` was called with, if any.
  */
  datatype StepOutcome = StepOutcome(state: PollState, requestToken: string, command: Option<bool>)

  /** The state after startup: the first token, its assumed expiry, nothing commanded yet. */
  function Init(startClock: int, token: string): (s: PollState)
    ensures s.accessToken == token
    ensures s.tokenExpiry - startClock == TokenLifetime
    ensures s.lastStatus.None?
  {
    PollState(token, startClock + TokenLifetime, None)
  }

  /** Whether the iteration renews the token: only once the clock is strictly past the expiry. */
  predicate NeedsRenewal(s: PollState, t: Tick) {
    t.clock > s.tokenExpiry
  }

  function Renew(s: PollState, t: Tick): PollState {
    if NeedsRenewal(s, t)
    then s.(accessToken := t.freshToken, tokenExpiry := t.renewalClock + TokenLifetime)
    else s
  }

  /** The light state a presence document asks for. */
  predicate LightOn(doc: PresenceDoc) {
    InCall(Activity(doc))
  }

  function Step(s: PollState, t: Tick): (o: StepOutcome)
    // token renewal
    ensures NeedsRenewal(s, t) ==>
      o.state.accessToken == t.freshToken && o.state.tokenExpiry == t.renewalClock + TokenLifetime
    ensures !NeedsRenewal(s, t) ==>
      o.state.accessToken == s.accessToken && o.state.tokenExpiry == s.tokenExpiry
    ensures o.requestToken == o.state.accessToken
    // an unavailable presence leaves the light state alone
    ensures t.presence.None? ==> o.command.None? && o.state.lastStatus == s.lastStatus
    // debounce: command exactly when the classification differs from the last one
    ensures t.presence.Some? ==>
      var on := LightOn(t.presence.value);
      && o.state.lastStatus == Some(on)
      && (o.command.Some? <==> s.lastStatus != Some(on))
      && (o.command.Some? ==> o.command.value == on)
  {
    var r := Renew(s, t);
    match t.presence
    case None => StepOutcome(r, r.accessToken, None)
    case Some(doc) =>
      var on := LightOn(doc);
      if Some(on) != r.lastStatus
      then StepOutcome(r.(lastStatus := Some(on)), r.accessToken, Some(on))
      else StepOutcome(r, r.accessToken, None)
  }

  datatype RunResult = RunResult(final: PollState, commands: seq<bool>)

  /** Iterate the loop over a finite sequence of ticks, collecting the light commands in order. */
  function Run(s: PollState, ticks: seq<Tick>): RunResult
    decreases |ticks|
  {
    if ticks == [] then RunResult(s, [])
    else
      var o := Step(s, ticks[0]);
      var rest := Run(o.state, ticks[1..]);
      RunResult(rest.final, o.command.ToSeq() + rest.commands)
  }

  /** The classifications of the successful polls among `ticks`, in order. */
  function Classified(ticks: seq<Tick>): seq<bool>
    decreases |ticks|
  {
    if ticks == [] then []
    else
      (match ticks[0].presence
       case None => []
       case Some(doc) => [LightOn(doc)])
      + Classified(ticks[1..])
  }

  /**
    The reference debounce: the elements of `xs` that differ from the
    element before them, the first compared with `prev`.
  */
  function Transitions(prev: Option<bool>, xs: seq<bool>): seq<bool>
    decreases |xs|
  {
    if xs == [] then []
    else (if Some(xs[0]) != prev then [xs[0]] else []) + Transitions(Some(xs[0]), xs[1..])
  }

  /** The number of adjacent positions of `xs` holding different values. */
  function AdjacentChanges(xs: seq<bool>): nat
    decreases |xs|
  {
    if |xs| < 2 then 0
    else (if xs[0] != xs[1] then 1 else 0) + AdjacentChanges(xs[1..])
  }

  function Last<T>(xs: seq<T>): T
    requires xs != []
  {
    xs[|xs| - 1]
  }

  /**
    The loop commands exactly the transitions of the classified successful
    polls, ignoring the failed ones, and ends remembering the last
    classification.
  */
  lemma {:induction false} RunIsTransitions(s: PollState, ticks: seq<Tick>)
    ensures Run(s, ticks).commands == Transitions(s.lastStatus, Classified(ticks))
    ensures Run(s, ticks).final.lastStatus ==
      if Classified(ticks) == [] then s.lastStatus else Some(Last(Classified(ticks)))
    decreases |ticks|
  {
    if ticks != [] {
      var o := Step(s, ticks[0]);
      RunIsTransitions(o.state, ticks[1..]);
      var tail := Classified(ticks[1..]);
      match ticks[0].presence
      case None =>
        assert Classified(ticks) == tail;
      case Some(doc) =>
        var on := LightOn(doc);
        assert Classified(ticks) == [on] + tail;
        assert ([on] + tail)[1..] == tail;
        if tail != [] {
          assert Last([on] + tail) == Last(tail);
        }
    }
  }

  /** From a known previous state, the number of commands is the number of changes along `[prev] + xs`. */
  lemma {:induction false} TransitionsCountFrom(prev: bool, xs: seq<bool>)
    ensures |Transitions(Some(prev), xs)| == AdjacentChanges([prev] + xs)
    decreases |xs|
  {
    if xs != [] {
      TransitionsCountFrom(xs[0], xs[1..]);
      assert ([prev] + xs)[1..] == [xs[0]] + xs[1..];
    }
  }

  /**
    From the unset start, the first classification always actuates and
    every later change actuates once: one command plus one per change.
  */
  lemma TransitionsCountFromStart(xs: seq<bool>)
    requires xs != []
    ensures |Transitions(None, xs)| == 1 + AdjacentChanges(xs)
  {
  }

  /**
    The commands never repeat: each differs from the one before it, the
    first differs from the previous state, and the last is the final
    classification.
  */
  lemma {:induction false} TransitionsAlternate(prev: Option<bool>, xs: seq<bool>)
    ensures var c := Transitions(prev, xs);
      && (forall i :: 0 < i < |c| ==> c[i] != c[i - 1])
      && (c != [] ==> Some(c[0]) != prev)
      && (c != [] ==> Last(c) == Last(xs))
      && (xs != [] && c == [] ==> prev == Some(Last(xs)))
    decreases |xs|
  {
    if xs != [] {
      var head := if Some(xs[0]) != prev then [xs[0]] else [];
      var rest := Transitions(Some(xs[0]), xs[1..]);
      TransitionsAlternate(Some(xs[0]), xs[1..]);
      var c := head + rest;
      assert c == Transitions(prev, xs);
      forall i | 0 < i < |c|
        ensures c[i] != c[i - 1]
      {
        if head != [] && i == 1 {
          assert c[1] == rest[0] && c[0] == xs[0];
        } else if head != [] {
          assert c[i] == rest[i - 1] && c[i - 1] == rest[i - 2];
        } else {
          assert c[i] == rest[i] && c[i - 1] == rest[i - 1];
        }
      }
      if xs[1..] != [] {
        assert Last(xs[1..]) == Last(xs);
      }
      if rest != [] {
        assert Last(c) == Last(rest);
      }
    }
  }

  /** The first successful poll after startup always commands the light, whatever it classifies as. */
  lemma FirstPollActuates(startClock: int, token: string, t: Tick)
    requires t.presence.Some?
    ensures Step(Init(startClock, token), t).command == Some(LightOn(t.presence.value))
  {
  }

  /**
    The token a presence request carries is never past its assumed expiry,
    provided the clock does not run backwards within an iteration.
  */
  lemma RequestTokenUnexpired(s: PollState, t: Tick)
    requires t.renewalClock >= t.clock
    ensures t.clock <= Step(s, t).state.tokenExpiry
  {
  }

  /** After a renewal at clock `c`, no iteration at clock `c + 3300` or earlier renews again. */
  lemma NoRenewalWithinLifetime(s: PollState, t: Tick, t': Tick)
    requires NeedsRenewal(s, t)
    requires t'.clock <= t.renewalClock + TokenLifetime
    ensures !NeedsRenewal(Step(s, t).state, t')
  {
  }

  /** The availability field only feeds a diagnostic line: changing or removing it never alters a step. */
  lemma AvailabilityIrrelevant(s: PollState, t: Tick, v: string)
    requires t.presence.Some?
    ensures var doc := t.presence.value;
      && Step(s, t.(presence := Some(doc["availability" := v]))) == Step(s, t)
      && Step(s, t.(presence := Some(doc - {"availability"}))) == Step(s, t)
  {
  }

  /**
    Over any run from startup with at least one successful poll, the light
    is commanded once for the first classification and once per change.
  */
  lemma RunCommandCount(startClock: int, token: string, ticks: seq<Tick>)
    requires Classified(ticks) != []
    ensures |Run(Init(startClock, token), ticks).commands| == 1 + AdjacentChanges(Classified(ticks))
  {
    RunIsTransitions(Init(startClock, token), ticks);
    TransitionsCountFromStart(Classified(ticks));
  }
}
