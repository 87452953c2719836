/**
 The text of a server-sent-events frame: `event: <name>\ndata: <json>\n\n` for
 a named event, `:hb\n\n` for the keep-alive. `JSON.stringify` is foreign, so
 the JSON text of a payload is supplied as a function.
 */
module Frames {
  import opened Optional
  import opened JsText
  import opened RaceModel

  const NewLine: Unit := 0x0A
  /** "event: " */
  const EventTag: JsString := [0x65, 0x76, 0x65, 0x6E, 0x74, 0x3A, 0x20]
  /** "\ndata: " */
  const DataTag: JsString := [0x0A, 0x64, 0x61, 0x74, 0x61, 0x3A, 0x20]
  /** "\n\n" */
  const FrameEnd: JsString := [0x0A, 0x0A]
  /** ":hb\n\n", a comment line */
  const PingText: JsString := [0x3A, 0x68, 0x62, 0x0A, 0x0A]

  /** The template literal of `send` and `subscribe`. */
  function EventText(event: JsString, json: JsString): (r: JsString)
    ensures |r| == |EventTag| + |event| + |DataTag| + |json| + |FrameEnd|
    ensures r[..|EventTag|] == EventTag && r[|r| - |FrameEnd|..] == FrameEnd
    ensures r[|EventTag|..|EventTag| + |event|] == event
  {
    EventTag + event + DataTag + json + FrameEnd
  }

  /** The text written for a frame. */
  function Render(f: Frame, json: Payload -> JsString): JsString {
    match f
    case Event(name, data) => EventText(name, json(data))
    case Ping => PingText
  }

  /** Index of the first `u` in `s`, or `|s|` when there is none. */
  function IndexOf(s: JsString, u: Unit): (n: nat)
    ensures n <= |s|
    ensures forall k | 0 <= k < n :: s[k] != u
    ensures n < |s| ==> s[n] == u
  {
    if |s| == 0 then 0 else if s[0] == u then 0 else 1 + IndexOf(s[1..], u)
  }

  /** Reads an event frame back into its name and data text; `None` for any
      other text, the keep-alive comment included. */
  function ParseEvent(t: JsString): Option<(JsString, JsString)> {
    if |t| < |EventTag| + |FrameEnd| || t[..|EventTag|] != EventTag || t[|t| - |FrameEnd|..] != FrameEnd then None
    else
      var body := t[|EventTag|..|t| - |FrameEnd|];
      var n := IndexOf(body, NewLine);
      if n + |DataTag| <= |body| && body[n..n + |DataTag|] == DataTag then Some((body[..n], body[n + |DataTag|..]))
      else None
  }

  /** An event name without a line break survives the frame template, with any data text. */
  lemma ParseRender(event: JsString, json: JsString)
    requires NewLine !in event
    ensures ParseEvent(EventText(event, json)) == Some((event, json))
  {
    var t := EventText(event, json);
    var body := t[|EventTag|..|t| - |FrameEnd|];
    assert t[..|EventTag|] == EventTag;
    assert t[|t| - |FrameEnd|..] == FrameEnd;
    assert body == event + DataTag + json;
    var n := IndexOf(body, NewLine);
    assert forall k | 0 <= k < |event| :: body[k] == event[k];
    assert body[|event|] == NewLine;
    assert n == |event|;
    assert body[n..n + |DataTag|] == DataTag;
    assert body[..n] == event;
    assert body[n + |DataTag|..] == json;
  }

  /** Conversely, every text that parses is exactly the template applied to what it parses to. */
  lemma RenderParse(t: JsString)
    requires ParseEvent(t).Some?
    ensures var (event, json) := ParseEvent(t).value;
      NewLine !in event && EventText(event, json) == t
  {
    var body := t[|EventTag|..|t| - |FrameEnd|];
    var n := IndexOf(body, NewLine);
    Slice3(body, n, n + |DataTag|);
    Slice3(t, |EventTag|, |t| - |FrameEnd|);
  }

  /** A sequence is the concatenation of three consecutive slices of itself. */
  lemma Slice3(s: JsString, a: nat, b: nat)
    requires a <= b <= |s|
    ensures s == s[..a] + s[a..b] + s[b..]
  {
  }

  /** The text written for any frame parses back to what was sent: an event
      with a name free of line breaks to its name and data text, the
      keep-alive to nothing. */
  lemma RenderParses(f: Frame, json: Payload -> JsString)
    requires f.Event? ==> NewLine !in f.name
    ensures f.Event? ==> ParseEvent(Render(f, json)) == Some((f.name, json(f.data)))
    ensures f.Ping? ==> ParseEvent(Render(f, json)) == None
  {
    match f
    case Event(name, data) => ParseRender(name, json(data));
    case Ping => PingIsNotEvent();
  }

  /** The keep-alive is not an event frame. */
  lemma PingIsNotEvent()
    ensures ParseEvent(PingText) == None
  {
  }
}
