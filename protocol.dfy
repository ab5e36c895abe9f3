/** The wire protocol of the television's network-control service: the
    remote-control commands, the SOAP `X_SendKey` envelope that carries one
    key event, the headers that go with it, and the two request
    descriptions the accessory builds (the power-status probe and a command).
    Everything here is pure string and record construction. */
module Protocol {

  datatype Option<+T> = None | Some(value: T)

  /** The closed set of remote-control buttons the accessory can press. */
  datatype Command = PowerToggle | VolumeUp | VolumeDown | Mute

  // ---------------------------------------------------------------------
  // Endpoint and request constants

  const ControlPath: string := "/nrc/control_0"
  const ControlPort: nat := 55000
  /** Deadline of the power-status probe, in milliseconds. */
  const ProbeTimeout: nat := 1000
  /** Deadline of every command request, in milliseconds. */
  const CommandTimeout: nat := 2000

  /** Values of the host's volume-selector characteristic. */
  const VolumeIncrement: int := 0
  const VolumeDecrement: int := 1

  // ---------------------------------------------------------------------
  // Key events

  /** The button name inside the key-event identifier. */
  function Button(c: Command): string
  {
    match c
    case PowerToggle => "POWER"
    case VolumeUp => "VOLUP"
    case VolumeDown => "VOLDOWN"
    case Mute => "MUTE"
  }

  /** The key-event identifier the device understands for a command. */
  function KeyEvent(c: Command): (key: string)
    ensures c == PowerToggle ==> key == "NRC_POWER-ONOFF"
    ensures c == VolumeUp ==> key == "NRC_VOLUP-ONOFF"
    ensures c == VolumeDown ==> key == "NRC_VOLDOWN-ONOFF"
    ensures c == Mute ==> key == "NRC_MUTE-ONOFF"
  {
    "NRC_" + Button(c) + "-ONOFF"
  }

  /** The inverse of KeyEvent: which command, if any, an identifier names. */
  function CommandOfKey(key: string): Option<Command>
  {
    if key == KeyEvent(PowerToggle) then Some(PowerToggle)
    else if key == KeyEvent(VolumeUp) then Some(VolumeUp)
    else if key == KeyEvent(VolumeDown) then Some(VolumeDown)
    else if key == KeyEvent(Mute) then Some(Mute)
    else None
  }

  lemma KeyEventRoundTrip(c: Command)
    ensures CommandOfKey(KeyEvent(c)) == Some(c)
  {
    // the four identifiers differ at a known position
    var p, u, d, m := KeyEvent(PowerToggle), KeyEvent(VolumeUp), KeyEvent(VolumeDown), KeyEvent(Mute);
    assert p[4] == 'P' && u[4] == 'V' && d[4] == 'V' && m[4] == 'M';
    assert u[7] == 'U' && d[7] == 'D';
  }

  /** The volume selector picks the direction: the increment value means
      up, and every other value means down. */
  function VolumeCommand(state: int): (c: Command)
    ensures c == VolumeUp <==> state == VolumeIncrement
    ensures c == VolumeDown <==> state != VolumeIncrement
  {
    if state == VolumeIncrement then VolumeUp else VolumeDown
  }

  // ---------------------------------------------------------------------
  // The SOAP envelope

  const EnvelopeNamespace: string := "http://schemas.xmlsoap.org/soap/envelope/"
  const EncodingNamespace: string := "http://schemas.xmlsoap.org/soap/encoding/"
  /** The device's network-control service type, and its full URN. */
  const ServiceType: string := "p00NetworkControl:1"
  const ServiceUrn: string := "urn:panasonic-com:service:" + ServiceType

  const XmlDeclaration: string := "<?xml version='1.0' encoding='utf-8'?> "
  const EnvelopeOpen: string :=
    "<s:Envelope xmlns:s='" + EnvelopeNamespace + "' s:encodingStyle='" + EncodingNamespace + "'> "
  const BodyOpen: string := " <s:Body> "
  const SendKeyOpen: string := "   <u:X_SendKey xmlns:u='" + ServiceUrn + "'> "
  const KeyEventIndent: string := "     "
  const KeyEventOpen: string := "<X_KeyEvent>"
  const KeyEventClose: string := "</X_KeyEvent>"
  const SendKeyClose: string := "   </u:X_SendKey> "
  const BodyClose: string := " </s:Body> "
  const EnvelopeClose: string := "</s:Envelope>"

  /** Everything of the envelope before the key-event identifier. */
  const Head: string :=
    XmlDeclaration + EnvelopeOpen + BodyOpen + SendKeyOpen + KeyEventIndent + KeyEventOpen
  /** Everything of the envelope after the key-event identifier. */
  const Tail: string := KeyEventClose + " " + SendKeyClose + BodyClose + EnvelopeClose

  /** The fixed `X_SendKey` template with its one substitution. */
  function Envelope(key: string): (body: string)
    ensures |body| == |Head| + |key| + |Tail|
    ensures body[..|Head|] == Head && body[|Head| + |key|..] == Tail
    ensures body[|Head|..|Head| + |key|] == key
  {
    Head + key + Tail
  }

  /** The middle of a string that starts with pre and ends with post. */
  function Between(pre: string, post: string, s: string): Option<string>
  {
    if |s| >= |pre| + |post| && s[..|pre|] == pre && s[|s| - |post|..] == post
    then Some(s[|pre|..|s| - |post|])
    else None
  }

  lemma BetweenInverse(pre: string, post: string, s: string, mid: string)
    ensures Between(pre, post, s) == Some(mid) <==> s == pre + mid + post
  {
    if s == pre + mid + post {
      assert s[|s| - |post|..] == post;
      assert s[|pre|..|s| - |post|] == mid;
    }
    if Between(pre, post, s) == Some(mid) {
      assert s == s[..|pre|] + s[|pre|..|s| - |post|] + s[|s| - |post|..];
    }
  }

  /** Reads the identifier back out of an envelope. */
  function ParseKeyEvent(body: string): Option<string>
  {
    Between(Head, Tail, body)
  }

  /** Reading the identifier back succeeds exactly on the strings that are
      the template around some identifier, and gives that identifier. */
  lemma ParseEnvelope(body: string, key: string)
    ensures ParseKeyEvent(body) == Some(key) <==> body == Envelope(key)
  {
    BetweenInverse(Head, Tail, body, key);
  }

  /** Two envelopes agree everywhere outside the identifier. */
  lemma EnvelopesDifferOnlyInKey(k1: string, k2: string)
    ensures Envelope(k1)[..|Head|] == Envelope(k2)[..|Head|]
    ensures Envelope(k1)[|Head| + |k1|..] == Envelope(k2)[|Head| + |k2|..]
    ensures Envelope(k1) == Envelope(k2) <==> k1 == k2
  {
    if Envelope(k1) == Envelope(k2) {
      assert |k1| == |k2|;
      assert k1 == Envelope(k1)[|Head|..|Head| + |k1|];
    }
  }

  // ---------------------------------------------------------------------
  // Counting occurrences of a tag

  /** The number of positions at which p occurs in s. */
  function Occurrences(s: string, p: string): nat
    decreases |s|
  {
    if |s| < |p| then 0
    else (if s[..|p|] == p then 1 else 0) + (if |s| == 0 then 0 else Occurrences(s[1..], p))
  }

  /** No occurrence of p can straddle the seam of a + b when the character
      on either side of the seam does not appear in p. */
  lemma {:induction false} OccurrencesSplit(a: string, b: string, p: string)
    requires |p| > 0
    requires (|a| > 0 && a[|a| - 1] !in p) || (|b| > 0 && b[0] !in p)
    ensures Occurrences(a + b, p) == Occurrences(a, p) + Occurrences(b, p)
    decreases |a|
  {
    if |a| == 0 {
      assert a + b == b;
    } else {
      var s := a + b;
      assert s[1..] == a[1..] + b;
      if |a| >= |p| {
        assert s[..|p|] == a[..|p|];
      } else {
        if |s| >= |p| {
          if a[|a| - 1] !in p {
            assert s[..|p|][|a| - 1] == a[|a| - 1];
          } else {
            assert s[..|p|][|a|] == b[0];
          }
          assert s[..|p|] != p;
        }
      }
      if |a| > 1 {
        OccurrencesSplit(a[1..], b, p);
      } else {
        assert a[1..] + b == b;
      }
    }
  }

  /** A string lacking some character of p contains no occurrence of p. */
  lemma {:induction false} OccurrencesAbsent(s: string, p: string, c: char)
    requires c in p && c !in s
    ensures Occurrences(s, p) == 0
    decreases |s|
  {
    if |s| >= |p| {
      var j :| 0 <= j < |p| && p[j] == c;
      assert s[..|p|][j] != c;
      OccurrencesAbsent(s[1..], p, c);
    }
  }

  /** Three pieces, each missing some character of p and each ending in a
      character outside p, followed by one more piece missing a character
      of p: their concatenation holds no occurrence of p. */
  lemma PiecesLack(a: string, b: string, c: string, d: string, p: string,
                   ca: char, cb: char, cc: char, cd: char)
    requires |p| > 0
    requires |a| > 0 && a[|a| - 1] !in p && ca in p && ca !in a
    requires |b| > 0 && b[|b| - 1] !in p && cb in p && cb !in b
    requires |c| > 0 && c[|c| - 1] !in p && cc in p && cc !in c
    requires cd in p && cd !in d
    ensures Occurrences(a + b + c + d, p) == 0
  {
    OccurrencesAbsent(a, p, ca);
    OccurrencesAbsent(b, p, cb);
    OccurrencesAbsent(c, p, cc);
    OccurrencesAbsent(d, p, cd);
    OccurrencesSplit(a, b, p);
    OccurrencesSplit(a + b, c, p);
    OccurrencesSplit(a + b + c, d, p);
  }

  /** A tag whose first character does not recur in it occurs once at the
      end of a string that lacked it. */
  lemma TagAfter(pre: string, p: string)
    requires |p| > 0 && p[0] !in p[1..]
    requires |pre| > 0 && pre[|pre| - 1] !in p && Occurrences(pre, p) == 0
    ensures Occurrences(pre + p, p) == 1
  {
    OccurrencesAbsent(p[1..], p, p[0]);
    OccurrencesSplit(pre, p, p);
  }

  /** A closing tag holds no occurrence of the matching opening tag. */
  lemma CloseLacksOpen(close: string, p: string)
    requires |p| > 1 && |close| > 1 && close[0] == p[0] && close[1] != p[1]
    requires p[0] !in close[1..]
    ensures Occurrences(close, p) == 0
  {
    if |close| >= |p| {
      assert close[..|p|][1] != p[1];
    }
    OccurrencesAbsent(close[1..], p, p[0]);
  }

  lemma EnvelopeOpenLacksX()
    ensures 'X' !in EnvelopeOpen
  {
    assert 'X' !in EnvelopeNamespace;
    assert 'X' !in EncodingNamespace;
  }

  lemma SendKeyOpenLacksE()
    ensures 'E' !in SendKeyOpen
  {
    assert 'E' !in ServiceType;
    assert 'E' !in ServiceUrn;
  }

  /** The part of the template before the identifier ends in the one
      opening tag it holds. */
  lemma HeadHoldsTagOnce()
    ensures Occurrences(Head, KeyEventOpen) == 1
  {
    var p := KeyEventOpen;
    EnvelopeOpenLacksX();
    SendKeyOpenLacksE();
    PiecesLack(XmlDeclaration, EnvelopeOpen, BodyOpen, SendKeyOpen, p, 'X', 'X', 'X', 'E');
    var beforeIndent := XmlDeclaration + EnvelopeOpen + BodyOpen + SendKeyOpen;
    OccurrencesAbsent(KeyEventIndent, p, 'X');
    OccurrencesSplit(beforeIndent, KeyEventIndent, p);
    TagAfter(beforeIndent + KeyEventIndent, p);
  }

  /** The part of the template after the identifier holds no opening tag. */
  lemma TailLacksTag()
    ensures Occurrences(Tail, KeyEventOpen) == 0
  {
    var p := KeyEventOpen;
    CloseLacksOpen(KeyEventClose, p);
    PiecesLack(" ", SendKeyClose, BodyClose, EnvelopeClose, p, 'X', 'E', 'X', 'X');
    var rest := " " + SendKeyClose + BodyClose + EnvelopeClose;
    OccurrencesSplit(KeyEventClose, rest, p);
    assert Tail == KeyEventClose + rest;
  }

  /** An identifier that holds no '<' and neither starts nor ends with a
      character of the tag leaves exactly one opening tag in the envelope. */
  lemma EnvelopeHoldsTagOnce(key: string)
    requires |key| > 0 && '<' !in key
    requires key[0] !in KeyEventOpen && key[|key| - 1] !in KeyEventOpen
    ensures Occurrences(Envelope(key), KeyEventOpen) == 1
  {
    var p := KeyEventOpen;
    OccurrencesAbsent(key, p, '<');
    HeadHoldsTagOnce();
    TailLacksTag();
    OccurrencesSplit(Head, key, p);
    OccurrencesSplit(Head + key, Tail, p);
  }

  /** Each command's envelope holds exactly one `<X_KeyEvent>` opening tag. */
  lemma KeyEventTagOnce(c: Command)
    ensures Occurrences(Envelope(KeyEvent(c)), KeyEventOpen) == 1
  {
    var key := KeyEvent(c);
    // the identifier starts with 'N', ends with 'F' and holds no '<'
    assert key[0] == 'N' && key[|key| - 1] == 'F' && '<' !in key;
    EnvelopeHoldsTagOnce(key);
  }

  // ---------------------------------------------------------------------
  // Byte length

  /** The number of bytes of a character in UTF-8. */
  function Utf8Width(ch: char): nat
  {
    if ch < 0x80 as char then 1
    else if ch < 0x800 as char then 2
    else if ch < 0x1_0000 as char then 3
    else 4
  }

  /** The UTF-8 byte length of a string, as Node's `Buffer.byteLength` counts it. */
  function ByteLength(s: string): nat
  {
    if s == [] then 0 else Utf8Width(s[0]) + ByteLength(s[1..])
  }

  predicate IsAscii(s: string)
  {
    forall i | 0 <= i < |s| :: s[i] < 0x80 as char
  }

  lemma {:induction false} ByteLengthAtLeastLength(s: string)
    ensures ByteLength(s) >= |s|
    ensures ByteLength(s) == |s| <==> IsAscii(s)
  {
    if s != [] {
      ByteLengthAtLeastLength(s[1..]);
      if IsAscii(s[1..]) && s[0] < 0x80 as char {
        assert IsAscii(s) by {
          forall i | 0 <= i < |s| ensures s[i] < 0x80 as char {
            if i > 0 { assert s[i] == s[1..][i - 1]; }
          }
        }
      }
      if IsAscii(s) {
        assert IsAscii(s[1..]) by {
          forall i | 0 <= i < |s| - 1 ensures s[1..][i] < 0x80 as char {
            assert s[1..][i] == s[i + 1];
          }
        }
      }
    }
  }

  lemma AsciiAppend(a: string, b: string)
    requires IsAscii(a) && IsAscii(b)
    ensures IsAscii(a + b)
  {
    forall i | 0 <= i < |a + b| ensures (a + b)[i] < 0x80 as char {
      if i >= |a| { assert (a + b)[i] == b[i - |a|]; }
    }
  }

  lemma NamespacesAreAscii()
    ensures IsAscii(EnvelopeNamespace) && IsAscii(EncodingNamespace)
  {
    assert IsAscii(EnvelopeNamespace);
  }

  lemma EnvelopeOpenIsAscii()
    ensures IsAscii(EnvelopeOpen)
  {
    NamespacesAreAscii();
    AsciiAppend("<s:Envelope xmlns:s='", EnvelopeNamespace);
    AsciiAppend("<s:Envelope xmlns:s='" + EnvelopeNamespace, "' s:encodingStyle='");
    AsciiAppend("<s:Envelope xmlns:s='" + EnvelopeNamespace + "' s:encodingStyle='", EncodingNamespace);
    AsciiAppend("<s:Envelope xmlns:s='" + EnvelopeNamespace + "' s:encodingStyle='" + EncodingNamespace, "'> ");
  }

  lemma SendKeyOpenIsAscii()
    ensures IsAscii(SendKeyOpen)
  {
    assert IsAscii(ServiceType);
    assert IsAscii(ServiceUrn);
  }

  lemma HeadIsAscii()
    ensures IsAscii(Head)
  {
    EnvelopeOpenIsAscii();
    SendKeyOpenIsAscii();
    AsciiAppend(XmlDeclaration, EnvelopeOpen);
    AsciiAppend(XmlDeclaration + EnvelopeOpen, BodyOpen);
    AsciiAppend(XmlDeclaration + EnvelopeOpen + BodyOpen, SendKeyOpen);
    AsciiAppend(XmlDeclaration + EnvelopeOpen + BodyOpen + SendKeyOpen, KeyEventIndent);
    AsciiAppend(XmlDeclaration + EnvelopeOpen + BodyOpen + SendKeyOpen + KeyEventIndent, KeyEventOpen);
  }

  lemma TailIsAscii()
    ensures IsAscii(Tail)
  {
    AsciiAppend(KeyEventClose, " ");
    AsciiAppend(KeyEventClose + " ", SendKeyClose);
    AsciiAppend(KeyEventClose + " " + SendKeyClose, BodyClose);
    AsciiAppend(KeyEventClose + " " + SendKeyClose + BodyClose, EnvelopeClose);
  }

  /** Every envelope of a known command is plain ASCII. */
  lemma EnvelopeIsAscii(c: Command)
    ensures IsAscii(Envelope(KeyEvent(c)))
  {
    HeadIsAscii();
    TailIsAscii();
    assert IsAscii(KeyEvent(c));
    AsciiAppend(Head, KeyEvent(c));
    AsciiAppend(Head + KeyEvent(c), Tail);
  }

  // ---------------------------------------------------------------------
  // Headers and requests

  const ContentType: string := "text/xml; charset=\"utf-8\""
  const SoapAction: string := "\"" + ServiceUrn + "#X_SendKey\""
  const Accept: string := "text/xml"

  datatype Headers = Headers(contentLength: nat, contentType: string, soapAction: string, accept: string)

  datatype Method = Get | Post

  /** The options object handed to the HTTP client. */
  datatype Request = Request(
    host: string,
    path: string,
    port: nat,
    timeout: nat,
    verb: Method,
    headers: Option<Headers>,
    body: Option<string>)

  /** The headers that accompany a command body. */
  function SoapHeaders(body: string): (h: Headers)
    ensures h.contentLength == ByteLength(body)
  {
    Headers(ByteLength(body), ContentType, SoapAction, Accept)
  }

  /** The power-status probe: a bare GET of the control path. */
  function ProbeRequest(host: string): (r: Request)
    ensures r.host == host && r.path == ControlPath && r.port == ControlPort
    ensures r.verb == Get && r.timeout == ProbeTimeout && r.body.None?
    ensures Decode(r) == None
  {
    Request(host, ControlPath, ControlPort, ProbeTimeout, Get, None, None)
  }

  /** The POST that presses one button. */
  function CommandRequest(host: string, c: Command): (r: Request)
    ensures r.body == Some(Envelope(KeyEvent(c)))
    ensures r.headers.Some? && r.headers.value.contentLength == ByteLength(r.body.value)
    ensures Decode(r) == Some(c)
  {
    var body := Envelope(KeyEvent(c));
    ParseEnvelope(body, KeyEvent(c));
    KeyEventRoundTrip(c);
    Request(host, ControlPath, ControlPort, CommandTimeout, Post, Some(SoapHeaders(body)), Some(body))
  }

  /** Which button a request presses, read back from its body. */
  function Decode(r: Request): Option<Command>
  {
    if r.verb == Post && r.body.Some? then
      match ParseKeyEvent(r.body.value)
      case Some(key) => CommandOfKey(key)
      case None => None
    else None
  }

  lemma DecodeCommandRequest(host: string, c: Command)
    ensures Decode(CommandRequest(host, c)) == Some(c)
    ensures Decode(ProbeRequest(host)) == None
  {
    ParseEnvelope(Envelope(KeyEvent(c)), KeyEvent(c));
    KeyEventRoundTrip(c);
  }

  /** The Content-Length of a command equals both the byte length and the
      character length of the body it accompanies. */
  lemma ContentLengthMatchesBody(host: string, c: Command)
    ensures var r := CommandRequest(host, c);
      r.headers.Some? && r.body.Some? &&
      r.headers.value.contentLength == ByteLength(r.body.value) == |r.body.value|
  {
    EnvelopeIsAscii(c);
    ByteLengthAtLeastLength(Envelope(KeyEvent(c)));
  }

  /** Two command requests agree on everything but the identifier in the
      body and the length that follows from it; the probe goes to the same
      place with a GET, a shorter deadline, no headers and no body. */
  lemma RequestsShareEndpoint(host: string, c1: Command, c2: Command)
    ensures var r1, r2 := CommandRequest(host, c1), CommandRequest(host, c2);
      r1.host == r2.host == host && r1.path == r2.path == ControlPath &&
      r1.port == r2.port == ControlPort && r1.timeout == r2.timeout == CommandTimeout &&
      r1.verb == r2.verb == Post &&
      r1.headers.Some? && r2.headers.Some? &&
      r1.headers.value.(contentLength := 0) == r2.headers.value.(contentLength := 0) &&
      r1.body.Some? && r2.body.Some? &&
      r1.body.value[..|Head|] == r2.body.value[..|Head|] &&
      (r1 == r2 <==> c1 == c2)
    ensures var p := ProbeRequest(host);
      p.host == host && p.path == ControlPath && p.port == ControlPort &&
      p.verb == Get && p.timeout == ProbeTimeout < CommandTimeout &&
      p.headers.None? && p.body.None?
  {
    DecodeCommandRequest(host, c1);
    DecodeCommandRequest(host, c2);
  }
}
