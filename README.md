# homebridge-viera: the command/status protocol layer in Dafny

homebridge-viera lets a home-automation host control a Panasonic Viera
television over the set's network-control service. The host calls the
accessory's handlers. Each handler does one of two things:

- it sends the set one short HTTP request to TCP port 55000, path
  `/nrc/control_0`;
- or it answers at once, without sending anything.

Button presses (power toggle, volume up, volume down, mute) are POSTs. Each
POST carries a SOAP `X_SendKey` envelope that names one key event. The power
state is read with a bare GET probe: a set that is off stops listening on
that port, so a probe that times out means "off".

The model has three modules:

- `Protocol` (protocol.dfy): the command encoder, as pure functions. It holds
  the key-event identifiers, the volume-direction choice, the envelope
  template, the headers, the probe and command request descriptions, a
  decoder that reads the command back from a request, and the UTF-8 byte
  length behind `Content-Length`.
- `Transport` (transport.dfy): one request's handlers. The class `Dispatch`
  holds the request's `timedOut` flag and has one method per transport event
  (timeout, error, response end). The events that arrive are an input
  sequence. The spec function `Effects` gives what the handlers have done
  after any sequence: callback invocations and scheduled switch resets. The
  class keeps `effects == Effects(kind, history)` as its invariant. The
  lemmas state what the handlers promise for every history, and what they
  promise for histories in the order the HTTP client is assumed to keep.
- `Viera` (viera.dfy): the handlers the host invokes. These are `getOn`, the
  `setOn(true)` refusal, `setVolume`, `setMute` (which does not read its
  argument), the volume-up/down switch wrappers that hide every error, and
  `getStatelessSwitchState`.

## Behaviour worth knowing

- Nothing stops a second callback (index.js:79-93, 148-164). The error
  handler and the response-end handler each call back, and neither checks
  whether the other already has. An error followed by a response end calls
  back twice (`Transport.ErrorThenEndAnswersTwice`). One callback per
  request holds only for histories in the assumed order
  (`Transport.SingleOutcome`).
- A timeout alone never answers (index.js:85-89). It aborts the request and
  sets the flag. The answer "off" comes from the error event that follows.
  A timeout with no later event leaves the host without an answer.
- A response end ignores the flag (index.js:79-82). If a response ends
  after a timeout, the probe still reports "on".
- `setOn(true)` answers `(null, false)` (index.js:100-103), the same answer
  as a command that got a response.
- Only `setMute` schedules the switch reset itself, and only on a response
  end (index.js:318-322). The volume switches reset through their wrapper,
  after any answer (index.js:240-251).

## Model

| member | source | states |
|---|---|---|
| `Protocol.KeyEvent` | index.js:183 | the identifier for each button is `NRC_` + button + `-ONOFF`: `NRC_POWER-ONOFF`, `NRC_VOLUP-ONOFF`, `NRC_VOLDOWN-ONOFF`, `NRC_MUTE-ONOFF` |
| `Protocol.KeyEventRoundTrip` | index.js:113 | the four identifiers are distinct: `CommandOfKey` recovers the command from its identifier |
| `Protocol.VolumeCommand` | index.js:173 | the selector's increment value gives volume up; every other value gives volume down |
| `Protocol.Envelope` | index.js:178-187 | the body is the fixed template: `Head`, then the identifier, then `Tail`, at known positions |
| `Protocol.ParseEnvelope` | index.js:108-117 | reading the identifier back gives `key` if and only if the body is the template around `key` |
| `Protocol.EnvelopesDifferOnlyInKey` | index.js:278-287 | two envelopes share everything before and after the identifier, and are equal exactly when the identifiers are |
| `Protocol.EnvelopeHoldsTagOnce` | index.js:178-187 | any identifier with no `<` that neither starts nor ends with a tag character leaves exactly one `<X_KeyEvent>` in the envelope |
| `Protocol.KeyEventTagOnce` | index.js:108-117 | every command's body holds exactly one `<X_KeyEvent>` |
| `Protocol.ByteLengthAtLeastLength` | index.js:126 | the UTF-8 byte length is at least the character count, and equals it exactly for ASCII strings |
| `Protocol.EnvelopeIsAscii` | index.js:278-287 | every command body is plain ASCII |
| `Protocol.SoapHeaders` | index.js:195-200 | the `Content-Length` header is the body's byte length |
| `Protocol.ContentLengthMatchesBody` | index.js:196 | a command's `Content-Length` equals the byte length and the character length of its own body |
| `Protocol.ProbeRequest` | index.js:61-67 | the probe is a GET to the given host at `/nrc/control_0`, port 55000, with timeout 1000 and no body, and presses no button |
| `Protocol.CommandRequest` | index.js:119-131 | a command request carries the envelope for its key event, its `Content-Length` is the body's byte length, and decoding it gives back the command |
| `Protocol.DecodeCommandRequest` | index.js:119-131 | decoding a command request gives back its command; the probe decodes to no command |
| `Protocol.RequestsShareEndpoint` | index.js:189-201 | all command requests share host, path `/nrc/control_0`, port 55000, timeout 2000, POST and headers apart from the length, and differ only when their commands differ; the probe is a GET to the same place with timeout 1000, no headers and no body |
| `Transport.ErrorReply` | index.js:91-93 | the error handler reports off without an error after a timeout, and passes the error through otherwise |
| `Transport.EndEffects` | index.js:318-322 | a response end answers `true` for the probe and `false` for commands; only mute then schedules the switch reset. The same model covers all four response-end handlers: index.js:79-82, 148-151, 218-221 and 318-322 |
| `Transport.Step` | index.js:79-93 | a timeout does nothing the host sees; an error or response end calls back first and adds at most one more effect; the switch reset comes only from a mute press's response end, and "on" only from the probe's |
| `Transport.Effects` | index.js:135-167 | the handlers do at most two things per event; `CallbackPerTerminalEvent`, `FailurePassedThrough`, `OnOnlyFromProbeEnd` and `ResetOnlyOnMuteEnd` state the rest |
| `Transport.Dispatch.constructor` | index.js:154 | a new request has not timed out, is not aborted and has done nothing |
| `Transport.Dispatch.OnTimeout` | index.js:156-160 | a timeout aborts the request, sets the flag and calls nobody back |
| `Transport.Dispatch.OnError` | index.js:162-164 | an error calls back once with the flag's reading of it; the flag is unchanged |
| `Transport.Dispatch.OnEnd` | index.js:148-151 | a response end calls back per kind; the flag is unchanged |
| `Transport.Dispatch.Handle` | index.js:326-335 | each event goes to its own handler; the flag ends up set exactly when it was set before or the event is a timeout |
| `Transport.Dispatch.Deliver` | index.js:135-167 | after any run of events, what the handlers did is `Effects` of the whole history, and the flag is set exactly when it was set before or a timeout arrived |
| `Transport.CallbackPerTerminalEvent` | index.js:79-93 | for any history, the callback runs once per response end and once per error, and never for a timeout |
| `Transport.FailurePassedThrough` | index.js:224-234 | an error reaches the host as an error exactly when it arrives before any timeout |
| `Transport.OnOnlyFromProbeEnd` | index.js:79-82 | the set is reported on exactly when the request is the probe and a response ended; commands never report it on |
| `Transport.ResetOnlyOnMuteEnd` | index.js:318-335 | the switch reset is scheduled exactly when a mute press gets a response end, never on error |
| `Transport.SingleOutcome` | index.js:325-335 | for timeouts followed by one end or error, the request calls back exactly once, with `Outcome`, then resets the switches if mute got a response |
| `Transport.ProbeOutcome` | index.js:85-93 | for the probe in that order: on if and only if the response ended, off if and only if an error followed a timeout, an error if and only if it failed before any timeout |
| `Transport.ErrorThenEndAnswersTwice` | index.js:148-164 | an error followed by a response end calls back twice: nothing enforces a single answer |
| `Viera.GetOn` | index.js:59-96 | `getOn` sends exactly `ProbeRequest(host)`, the GET to port 55000 with timeout 1000, which presses no button |
| `Viera.SetOn` | index.js:98-168 | `setOn` answers at once exactly when asked to turn the set on, and then answers `false`; otherwise it sends exactly `CommandRequest(host, PowerToggle)`, which decodes to the power toggle |
| `Viera.SetVolume` | index.js:170-238 | `setVolume` sends exactly `CommandRequest(host, c)` for the command `c` it presses, which decodes back to `c`: volume up if and only if the selector is the increment value, volume down otherwise |
| `Viera.SetMute` | index.js:272-339 | `setMute` sends exactly `CommandRequest(host, Mute)`, which decodes to the mute toggle |
| `Viera.SwitchEffects` | index.js:240-251 | only switch resets and call backs with no arguments come out of the switch wrapper, and a reset the wrapped request scheduled is kept |
| `Viera.VolumeUpPress` | index.js:240-241 | the volume-up switch sends `CommandRequest(host, VolumeUp)`, which decodes to volume up, whatever the switch was set to |
| `Viera.VolumeDownPress` | index.js:246-247 | the volume-down switch sends `CommandRequest(host, VolumeDown)`, which decodes to volume down, whatever the switch was set to |
| `Viera.SetVolumeUp` | index.js:240-245 | the volume-up switch only ever resets the switches and calls back with no arguments |
| `Viera.SetVolumeDown` | index.js:246-251 | the volume-down switch only ever resets the switches and calls back with no arguments |
| `Viera.GetStatelessSwitchState` | index.js:269-271 | the momentary switches always read as off |
| `Viera.SetOnPolicy` | index.js:98-113 | `setOn(true)` sends nothing and answers `false` whatever the network does; `setOn(false)` sends the power toggle |
| `Viera.SetMuteIgnoresValue` | index.js:272-283 | `setMute` sends the same mute toggle for either requested value |
| `Viera.SetVolumeDirection` | index.js:170-183 | `setVolume` presses volume up if and only if the selector is the increment value, and volume down otherwise |
| `Viera.SwitchSwallowsAnswers` | index.js:240-251 | the switch wrapper calls the host back with no error exactly as often as the wrapped callback runs, each time right after scheduling the switch reset |
| `Viera.VolumeSwitches` | index.js:240-251 | the volume-up switch's request decodes to volume up and the volume-down switch's to volume down, the two requests differ, whatever the switches are set to; both call back once per response or error, and never report an error |
| `Viera.GetOnAnswersOnce` | index.js:59-96 | `getOn` in the assumed order answers once: on when the response ended, off when an error followed a timeout |
| `Viera.CommandAnswersOnce` | index.js:154-164 | the request sent by `setOn(false)`, `setVolume` or `setMute`, in the assumed order, answers once, never reports the set on, and reads a timeout followed by an error as off, not as an error |

## Left out

- HTTP I/O is not modelled: `http.request`, sockets, `req.write`, `req.end`
  and response streaming are Node I/O. Their events are the input sequence
  of `Transport.Dispatch.Deliver`. `req.abort()` is recorded only as the
  `aborted` flag.
- Response status codes, headers and body chunks are not modelled. The code
  only logs them.
- Real time is not modelled: the 1000 ms and 2000 ms deadlines are
  constants. The 100 ms delay of `resetVolumeControlButtons` is not modelled
  either. Scheduling the reset is the `ResetButtons` effect. Setting the three
  switches back to off is host-characteristic glue.
- Host registration is not modelled: `module.exports`, `getServices`,
  `createStatelessSwitchService` and the shared `Service`/`Characteristic`
  references are foreign-library glue. As a result, the mute switch calling
  `setMute` directly is not modelled.
- Logging through `log` is not modelled, and neither is the `muteStatus`
  field, which nothing reads.
- The error object is modelled as a string cause. The device host is an
  unvalidated string, passed through to the request.
- `Protocol.VolumeCommand`: the selector is modelled as an integer. In
  JavaScript, a selector value of another type is compared with `===` and
  also means volume down. The model does not cover values of other types.
- `Viera.SetOn`: the requested power value is modelled as a `bool`. In
  JavaScript it is the host's Active value (0 or 1), tested for truthiness;
  the model covers only its two truth values.
- `Protocol.ByteLength`: Dafny characters are Unicode scalar values, so the
  lone UTF-16 surrogates that a JavaScript string can hold are not modelled.
  The bodies are ASCII in any case.
- The commented-out manual test at the end of index.js is not modelled.
