/** One HTTP exchange with the television and how its transport events are
    turned into answers for the host. Each request carries its own
    `timedOut` flag: the timeout handler aborts the request and sets it, the
    error handler reads it to tell "the set is off" from a real failure, and
    the response-end handler answers without looking at it. The events the
    HTTP client may deliver are an input sequence; what the handlers do is
    a function of that sequence. */
module Transport {
  import opened Protocol

  /** What a request is for: the power-status probe, or pressing a button. */
  datatype Kind = Probe | Press(command: Command)

  /** The transport events the handlers listen for. */
  datatype Event = End | Timeout | Error(cause: string)

  /** The arguments a host callback is invoked with: `(null, on)`, `(ex)`,
      or nothing at all. */
  datatype Reply = Answer(on: bool) | Failure(cause: string) | Ack

  /** What the handlers do that the host can observe: invoke the callback,
      or schedule the reset of the momentary switches. */
  datatype Effect = Callback(reply: Reply) | ResetButtons

  // ---------------------------------------------------------------------
  // The handlers as functions of the event history

  /** The error handler's answer: after a timeout the set is reported off
      without an error; otherwise the error is passed through. */
  function ErrorReply(timedOut: bool, cause: string): (r: Reply)
    ensures r.Failure? <==> !timedOut
    ensures r.Failure? ==> r.cause == cause
    ensures r.Answer? ==> !r.on
  {
    if timedOut then Answer(false) else Failure(cause)
  }

  /** The response-end handler: the probe reports the set on, every command
      reports `false`; pressing mute also schedules the switch reset. */
  function EndEffects(kind: Kind): (effects: seq<Effect>)
    ensures |effects| > 0 && effects[0] == Callback(Answer(kind == Probe))
    ensures ResetButtons in effects <==> kind == Press(Mute)
  {
    [Callback(Answer(kind == Probe))] + (if kind == Press(Mute) then [ResetButtons] else [])
  }

  /** What one event does, given whether the timeout had fired before it. */
  function Step(kind: Kind, timedOut: bool, e: Event): (r: seq<Effect>)
    ensures r == [] <==> e == Timeout
    ensures |r| <= 2
    ensures e != Timeout ==> r[0].Callback?
    ensures ResetButtons in r <==> e == End && kind == Press(Mute)
    ensures Callback(Answer(true)) in r <==> e == End && kind == Probe
  {
    match e
    case Timeout => []
    case Error(cause) => [Callback(ErrorReply(timedOut, cause))]
    case End => EndEffects(kind)
  }

  function Last<T>(s: seq<T>): T
    requires |s| > 0
  {
    s[|s| - 1]
  }

  function AllButLast<T>(s: seq<T>): seq<T>
    requires |s| > 0
  {
    s[..|s| - 1]
  }

  /** Everything the handlers of one request have done after the events. */
  function Effects(kind: Kind, events: seq<Event>): (r: seq<Effect>)
    ensures |r| <= 2 * |events|
    decreases |events|
  {
    if events == [] then []
    else Effects(kind, AllButLast(events)) + Step(kind, Timeout in AllButLast(events), Last(events))
  }

  lemma EffectsSnoc(kind: Kind, events: seq<Event>, e: Event)
    ensures Effects(kind, events + [e]) == Effects(kind, events) + Step(kind, Timeout in events, e)
  {
    assert AllButLast(events + [e]) == events;
  }

  // ---------------------------------------------------------------------
  // The request object

  /** The handlers of one HTTP request and the flag they share. */
  class Dispatch {
    const kind: Kind
    /** Set by the timeout handler; never cleared. */
    var timedOut: bool
    /** Whether the timeout handler has aborted the request. */
    var aborted: bool
    /** What the handlers have done so far, oldest first. */
    var effects: seq<Effect>
    /** The events delivered so far. */
    ghost var history: seq<Event>

    ghost predicate Valid()
      reads this
    {
      timedOut == (Timeout in history) &&
      aborted == timedOut &&
      effects == Effects(kind, history)
    }

    constructor (kind: Kind)
      ensures Valid() && this.kind == kind
      ensures history == [] && !timedOut && !aborted && effects == []
    {
      this.kind := kind;
      timedOut, aborted := false, false;
      effects := [];
      history := [];
    }

    /** The deadline passed: abort the request and remember it. */
    method OnTimeout()
      requires Valid()
      modifies this
      ensures Valid() && history == old(history) + [Timeout]
      ensures timedOut && aborted && effects == old(effects)
    {
      EffectsSnoc(kind, history, Timeout);
      aborted := true;
      timedOut := true;
      history := history + [Timeout];
    }

    /** The connection failed. */
    method OnError(cause: string)
      requires Valid()
      modifies this
      ensures Valid() && history == old(history) + [Error(cause)]
      ensures timedOut == old(timedOut) && aborted == old(aborted)
      ensures effects == old(effects) + [Callback(ErrorReply(old(timedOut), cause))]
    {
      EffectsSnoc(kind, history, Error(cause));
      if timedOut {
        effects := effects + [Callback(Answer(false))];
      } else {
        effects := effects + [Callback(Failure(cause))];
      }
      history := history + [Error(cause)];
    }

    /** The response stream ended. */
    method OnEnd()
      requires Valid()
      modifies this
      ensures Valid() && history == old(history) + [End]
      ensures timedOut == old(timedOut) && aborted == old(aborted)
      ensures effects == old(effects) + EndEffects(kind)
    {
      EffectsSnoc(kind, history, End);
      effects := effects + [Callback(Answer(kind == Probe))];
      if kind == Press(Mute) {
        effects := effects + [ResetButtons];
      }
      history := history + [End];
    }

    /** The HTTP client delivering one event to the handler registered for it. */
    method Handle(e: Event)
      requires Valid()
      modifies this
      ensures Valid() && history == old(history) + [e]
      ensures timedOut == (old(timedOut) || e == Timeout)
    {
      match e {
        case Timeout => OnTimeout();
        case Error(cause) => OnError(cause);
        case End => OnEnd();
      }
    }

    /** The HTTP client delivering a run of events to the request's handlers,
        in order. */
    method Deliver(events: seq<Event>)
      requires Valid()
      modifies this
      ensures Valid() && history == old(history) + events
      ensures effects == Effects(kind, old(history) + events)
      ensures timedOut == (old(timedOut) || Timeout in events)
    {
      var i := 0;
      while i < |events|
        invariant 0 <= i <= |events|
        invariant Valid() && history == old(history) + events[..i]
        invariant timedOut == (old(timedOut) || Timeout in events[..i])
      {
        assert events[..i + 1] == events[..i] + [events[i]];
        assert old(history) + events[..i + 1] == history + [events[i]];
        Handle(events[i]);
        i := i + 1;
      }
      assert events[..i] == events;
      assert history == old(history) + events;
    }
  }

  // ---------------------------------------------------------------------
  // What the handlers promise, over every event history

  /** The number of callback invocations among some effects. */
  function Callbacks(effects: seq<Effect>): nat
  {
    if effects == [] then 0
    else (if effects[0].Callback? then 1 else 0) + Callbacks(effects[1..])
  }

  /** The number of events that end in a callback: responses and errors. */
  function Terminals(events: seq<Event>): nat
  {
    if events == [] then 0
    else (if events[0] == Timeout then 0 else 1) + Terminals(events[1..])
  }

  lemma {:induction false} CallbacksAppend(a: seq<Effect>, b: seq<Effect>)
    ensures Callbacks(a + b) == Callbacks(a) + Callbacks(b)
  {
    if a == [] {
      assert a + b == b;
    } else {
      assert (a + b)[0] == a[0] && (a + b)[1..] == a[1..] + b;
      CallbacksAppend(a[1..], b);
    }
  }

  /** One event's step invokes the callback once, unless it is a timeout. */
  lemma StepCallbacks(kind: Kind, timedOut: bool, e: Event)
    ensures Callbacks(Step(kind, timedOut, e)) == if e == Timeout then 0 else 1
  {
    var step := Step(kind, timedOut, e);
    if e != Timeout {
      assert step[0].Callback?;
      if |step| > 1 {
        assert step[1..] == [ResetButtons];
        assert Callbacks(step[1..]) == 0;
      }
    }
  }

  lemma {:induction false} TerminalsSnoc(events: seq<Event>, e: Event)
    ensures Terminals(events + [e]) == Terminals(events) + (if e == Timeout then 0 else 1)
  {
    if events != [] {
      assert (events + [e])[1..] == events[1..] + [e];
      TerminalsSnoc(events[1..], e);
    }
  }

  /** Without any ordering assumption, the callback is invoked once per
      response end and once per error, and never for a timeout: nothing in
      the handlers stops a second invocation. */
  lemma {:induction false} CallbackPerTerminalEvent(kind: Kind, events: seq<Event>)
    ensures Callbacks(Effects(kind, events)) == Terminals(events)
    decreases |events|
  {
    if events != [] {
      var init, e := AllButLast(events), Last(events);
      assert events == init + [e];
      CallbackPerTerminalEvent(kind, init);
      CallbacksAppend(Effects(kind, init), Step(kind, Timeout in init, e));
      StepCallbacks(kind, Timeout in init, e);
      TerminalsSnoc(init, e);
    }
  }

  /** An error is passed through to the host exactly when it arrives
      before any timeout. */
  lemma {:induction false} FailurePassedThrough(kind: Kind, events: seq<Event>, cause: string)
    ensures Callback(Failure(cause)) in Effects(kind, events) <==>
      exists i :: 0 <= i < |events| && events[i] == Error(cause) && Timeout !in events[..i]
    decreases |events|
  {
    if events != [] {
      var init, e := AllButLast(events), Last(events);
      assert events == init + [e];
      FailurePassedThrough(kind, init, cause);
      var step := Step(kind, Timeout in init, e);
      assert Effects(kind, events) == Effects(kind, init) + step;
      assert Callback(Failure(cause)) in step <==> e == Error(cause) && Timeout !in init;
      if exists i :: 0 <= i < |init| && init[i] == Error(cause) && Timeout !in init[..i] {
        var i :| 0 <= i < |init| && init[i] == Error(cause) && Timeout !in init[..i];
        assert events[i] == Error(cause) && events[..i] == init[..i];
      }
      if exists i :: 0 <= i < |events| && events[i] == Error(cause) && Timeout !in events[..i] {
        var i :| 0 <= i < |events| && events[i] == Error(cause) && Timeout !in events[..i];
        if i < |init| {
          assert init[i] == Error(cause) && events[..i] == init[..i];
        } else {
          assert events[..i] == init;
        }
      }
    }
  }

  /** The set is reported on only by a probe whose response ended: a
      command never reports it on. */
  lemma {:induction false} OnOnlyFromProbeEnd(kind: Kind, events: seq<Event>)
    ensures Callback(Answer(true)) in Effects(kind, events) <==> kind == Probe && End in events
    decreases |events|
  {
    if events != [] {
      var init, e := AllButLast(events), Last(events);
      assert events == init + [e];
      OnOnlyFromProbeEnd(kind, init);
    }
  }

  /** The switch reset is scheduled only when a mute press gets a response. */
  lemma {:induction false} ResetOnlyOnMuteEnd(kind: Kind, events: seq<Event>)
    ensures ResetButtons in Effects(kind, events) <==> kind == Press(Mute) && End in events
    decreases |events|
  {
    if events != [] {
      var init, e := AllButLast(events), Last(events);
      assert events == init + [e];
      ResetOnlyOnMuteEnd(kind, init);
    }
  }

  // ---------------------------------------------------------------------
  // Histories in the order the HTTP client is assumed to keep

  /** Any number of timeouts followed by one response end or error. */
  predicate Orderly(events: seq<Event>)
  {
    |events| > 0 && Last(events) != Timeout &&
    forall i | 0 <= i < |events| - 1 :: events[i] == Timeout
  }

  /** The answer the host gets for an orderly history: on for a probe that
      got a response; off for a command that got one, and for any request
      whose error came after a timeout; the error itself otherwise. */
  function Outcome(kind: Kind, events: seq<Event>): Reply
    requires Orderly(events)
  {
    match Last(events)
    case End => Answer(kind == Probe)
    case Error(cause) => if |events| > 1 then Answer(false) else Failure(cause)
  }

  lemma {:induction false} TimeoutsAlone(kind: Kind, events: seq<Event>)
    requires forall i | 0 <= i < |events| :: events[i] == Timeout
    ensures Effects(kind, events) == []
    decreases |events|
  {
    if events != [] {
      TimeoutsAlone(kind, AllButLast(events));
    }
  }

  /** Under that ordering, one request produces exactly one callback, with
      the answer Outcome describes, followed by the switch reset when a mute
      press got a response. */
  lemma SingleOutcome(kind: Kind, events: seq<Event>)
    requires Orderly(events)
    ensures Effects(kind, events) ==
      [Callback(Outcome(kind, events))] + (if kind == Press(Mute) && Last(events) == End then [ResetButtons] else [])
    ensures Callbacks(Effects(kind, events)) == 1
  {
    var init := AllButLast(events);
    TimeoutsAlone(kind, init);
    assert Timeout in init <==> |events| > 1 by {
      if |events| > 1 { assert init[0] == Timeout; }
    }
    assert events == init + [Last(events)];
    StepCallbacks(kind, Timeout in init, Last(events));
  }

  /** The power state the probe reports under that ordering: on when the
      response ended, off when the deadline passed first, an error when the
      connection failed before the deadline. */
  lemma ProbeOutcome(events: seq<Event>)
    requires Orderly(events)
    ensures Outcome(Probe, events) == Answer(true) <==> Last(events) == End
    ensures Outcome(Probe, events) == Answer(false) <==> Last(events).Error? && Timeout in events
    ensures Outcome(Probe, events).Failure? <==> Last(events).Error? && Timeout !in events
  {
    if |events| > 1 {
      assert events[0] == Timeout;
    }
  }

  /** Nothing guards against a second callback: an error followed by a
      response end answers twice. */
  lemma ErrorThenEndAnswersTwice(kind: Kind, cause: string)
    ensures Effects(kind, [Error(cause), End]) ==
      [Callback(Failure(cause))] + EndEffects(kind)
  {
    EffectsSnoc(kind, [], Error(cause));
    EffectsSnoc(kind, [Error(cause)], End);
    assert [Error(cause)] + [End] == [Error(cause), End];
  }
}
