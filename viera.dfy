/** The accessory's handlers as the host invokes them: reading and setting
    the television's power, the volume selector, mute, and the three
    momentary switches (volume up, volume down, mute). Each handler either
    answers at once or sends one request whose transport events then decide
    the answer. */
module Viera {
  import opened Protocol
  import opened Transport

  /** What a handler does when invoked. */
  datatype Action = Respond(reply: Reply) | Send(request: Request, kind: Kind)

  /** Everything the host observes after invoking a handler, given the
      transport events of the request it sent (if any). */
  function Run(a: Action, events: seq<Event>): seq<Effect>
  {
    match a
    case Respond(reply) => [Callback(reply)]
    case Send(_, kind) => Effects(kind, events)
  }

  /** Reading the power state: probe the control port. */
  function GetOn(host: string): (a: Action)
    ensures a.Send? && a.kind == Probe && a.request == ProbeRequest(host)
    ensures a.request.verb == Get && Decode(a.request) == None
  {
    Send(ProbeRequest(host), Probe)
  }

  /** Setting the power state. Turning the set on is not supported and is
      answered `false` at once; turning it off sends the power toggle. */
  function SetOn(host: string, on: bool): (a: Action)
    ensures a.Respond? <==> on
    ensures on ==> a.reply == Answer(false)
    ensures !on ==> a.kind == Press(PowerToggle) && Decode(a.request) == Some(PowerToggle)
    ensures !on ==> a.request == CommandRequest(host, PowerToggle)
  {
    if on then Respond(Answer(false))
    else Send(CommandRequest(host, PowerToggle), Press(PowerToggle))
  }

  /** The volume selector: one step up for the increment value, one step
      down for anything else. */
  function SetVolume(host: string, state: int): (a: Action)
    ensures a.Send? && a.kind.Press? && Decode(a.request) == Some(a.kind.command)
    ensures a.request == CommandRequest(host, a.kind.command)
    ensures a.kind == Press(VolumeUp) <==> state == VolumeIncrement
    ensures a.kind == Press(VolumeDown) <==> state != VolumeIncrement
  {
    var c := VolumeCommand(state);
    Send(CommandRequest(host, c), Press(c))
  }

  /** Mute is a toggle on the set, so the requested value is not consulted. */
  function SetMute(host: string, muted: bool): (a: Action)
    ensures a.Send? && a.kind == Press(Mute) && Decode(a.request) == Some(Mute)
    ensures a.request == CommandRequest(host, Mute)
  {
    Send(CommandRequest(host, Mute), Press(Mute))
  }

  /** The momentary switches always read as off. */
  function GetStatelessSwitchState(): (r: Reply)
    ensures r.Answer? && !r.on
  {
    Answer(false)
  }

  /** The callback the volume switches hand to SetVolume: whatever it is
      called with, schedule the switch reset, then call the host back with
      no error and no value. */
  function SwitchEffects(inner: seq<Effect>): (r: seq<Effect>)
    ensures forall x | x in r :: x == ResetButtons || x == Callback(Ack)
    ensures ResetButtons in inner ==> ResetButtons in r
  {
    if inner == [] then []
    else
      (match inner[0]
       case Callback(_) => [ResetButtons, Callback(Ack)]
       case ResetButtons => [ResetButtons])
      + SwitchEffects(inner[1..])
  }

  /** The request the volume-up switch sends: the selector's increment
      value, whatever the switch was set to. */
  function VolumeUpPress(host: string, state: bool): (a: Action)
    ensures a.Send? && a.kind == Press(VolumeUp) && Decode(a.request) == Some(VolumeUp)
    ensures a.request == CommandRequest(host, VolumeUp)
  {
    SetVolume(host, VolumeIncrement)
  }

  /** The request the volume-down switch sends: the selector's decrement
      value, whatever the switch was set to. */
  function VolumeDownPress(host: string, state: bool): (a: Action)
    ensures a.Send? && a.kind == Press(VolumeDown) && Decode(a.request) == Some(VolumeDown)
    ensures a.request == CommandRequest(host, VolumeDown)
  {
    SetVolume(host, VolumeDecrement)
  }

  /** The volume-up switch: press volume up, then answer through the wrapper. */
  function SetVolumeUp(host: string, state: bool, events: seq<Event>): (r: seq<Effect>)
    ensures forall x | x in r :: x == ResetButtons || x == Callback(Ack)
  {
    SwitchEffects(Run(VolumeUpPress(host, state), events))
  }

  /** The volume-down switch: press volume down, then answer through the wrapper. */
  function SetVolumeDown(host: string, state: bool, events: seq<Event>): (r: seq<Effect>)
    ensures forall x | x in r :: x == ResetButtons || x == Callback(Ack)
  {
    SwitchEffects(Run(VolumeDownPress(host, state), events))
  }

  // ---------------------------------------------------------------------
  // Properties of the handlers

  /** Turning the set on sends nothing and answers `false`, whatever the
      network does; turning it off sends the power toggle. */
  lemma SetOnPolicy(host: string, on: bool, events: seq<Event>)
    ensures SetOn(host, on).Respond? <==> on
    ensures on ==> Run(SetOn(host, on), events) == [Callback(Answer(false))]
    ensures !on ==> Decode(SetOn(host, on).request) == Some(PowerToggle)
  {
    DecodeCommandRequest(host, PowerToggle);
  }

  /** Mute sends the same toggle whichever value is requested. */
  lemma SetMuteIgnoresValue(host: string, muted: bool)
    ensures SetMute(host, muted) == SetMute(host, !muted)
    ensures Decode(SetMute(host, muted).request) == Some(Mute)
  {
    DecodeCommandRequest(host, Mute);
  }

  /** The selector value decides the direction, and only the increment
      value means up. */
  lemma SetVolumeDirection(host: string, state: int)
    ensures Decode(SetVolume(host, state).request) == Some(VolumeUp) <==> state == VolumeIncrement
    ensures Decode(SetVolume(host, state).request) == Some(VolumeDown) <==> state != VolumeIncrement
  {
    DecodeCommandRequest(host, VolumeCommand(state));
  }

  /** The switch wrapper swallows every answer: the host is only ever called
      back with no error, as often as the wrapped callback was, and each
      call back comes right after a scheduled switch reset. */
  lemma {:induction false} SwitchSwallowsAnswers(inner: seq<Effect>)
    ensures forall k | 0 <= k < |SwitchEffects(inner)| ::
      SwitchEffects(inner)[k].Callback? ==>
        SwitchEffects(inner)[k].reply == Ack && k > 0 && SwitchEffects(inner)[k - 1] == ResetButtons
    ensures Callbacks(SwitchEffects(inner)) == Callbacks(inner)
  {
    if inner != [] {
      SwitchSwallowsAnswers(inner[1..]);
      var head := match inner[0]
        case Callback(_) => [ResetButtons, Callback(Ack)]
        case ResetButtons => [ResetButtons];
      var rest := SwitchEffects(inner[1..]);
      assert SwitchEffects(inner) == head + rest;
      CallbacksAppend(head, rest);
      assert Callbacks(head) == (if inner[0].Callback? then 1 else 0) by {
        if inner[0].Callback? {
          assert head[1..] == [Callback(Ack)];
        }
      }
      forall k | 0 <= k < |head + rest| && (head + rest)[k].Callback?
        ensures (head + rest)[k].reply == Ack && k > 0 && (head + rest)[k - 1] == ResetButtons
      {
        if k >= |head| {
          assert (head + rest)[k] == rest[k - |head|];
          if k - |head| > 0 {
            assert (head + rest)[k - 1] == rest[k - |head| - 1];
          } else {
            assert false;
          }
        }
      }
    }
  }

  /** The volume switches press the right button whatever they are set to,
      call the host back once per response or error, and never report an
      error. */
  lemma VolumeSwitches(host: string, state: bool, events: seq<Event>)
    ensures Decode(VolumeUpPress(host, state).request) == Some(VolumeUp)
    ensures Decode(VolumeDownPress(host, state).request) == Some(VolumeDown)
    ensures VolumeUpPress(host, state) != VolumeDownPress(host, state)
    ensures Callbacks(SetVolumeUp(host, state, events)) == Terminals(events)
    ensures Callbacks(SetVolumeDown(host, state, events)) == Terminals(events)
    ensures forall cause :: Callback(Failure(cause)) !in SetVolumeUp(host, state, events)
    ensures forall cause :: Callback(Failure(cause)) !in SetVolumeDown(host, state, events)
  {
    SetVolumeDirection(host, VolumeIncrement);
    SetVolumeDirection(host, VolumeDecrement);
    CallbackPerTerminalEvent(Press(VolumeUp), events);
    CallbackPerTerminalEvent(Press(VolumeDown), events);
    SwitchSwallowsAnswers(Effects(Press(VolumeUp), events));
    SwitchSwallowsAnswers(Effects(Press(VolumeDown), events));
  }

  /** Reading the power state, when the events come in the assumed order:
      on if the probe got a response, off if its deadline passed before the
      connection failed, and the connection error otherwise. */
  lemma GetOnAnswersOnce(host: string, events: seq<Event>)
    requires Orderly(events)
    ensures Run(GetOn(host), events) == [Callback(Outcome(Probe, events))]
    ensures Outcome(Probe, events) == Answer(true) <==> Last(events) == End
    ensures Outcome(Probe, events) == Answer(false) <==> Last(events).Error? && Timeout in events
  {
    SingleOutcome(Probe, events);
    ProbeOutcome(events);
  }

  /** A command sent by `setOn(false)`, `setVolume` or `setMute`, when the
      events come in the assumed order, answers once and never reports the
      set on; a deadline that passes before the connection fails reads as
      "off", not as an error. */
  lemma CommandAnswersOnce(host: string, state: int, muted: bool, a: Action, events: seq<Event>)
    requires a == SetOn(host, false) || a == SetVolume(host, state) || a == SetMute(host, muted)
    requires Orderly(events)
    ensures Callbacks(Run(a, events)) == 1
    ensures Callback(Answer(true)) !in Run(a, events)
    ensures Timeout in events ==> Run(a, events)[0] == Callback(Answer(false))
  {
    SingleOutcome(a.kind, events);
    OnOnlyFromProbeEnd(a.kind, events);
    if Timeout in events {
      assert events[0] == Timeout;
    }
  }
}
