/** `process_llm_output_to_a2ui_parts`: turning the model's raw reply into the
    parts of the agent's answer.

    The reply is stripped; JSON is looked for from the first `{` or `[` on;
    one value is decoded there (trailing text ignored), or, failing that, the
    text up to the last `}` or `]` is decoded strictly; the value is read as a
    list of A2UI messages, and each message becomes one part. Whatever goes
    wrong, the answer is a single text part: the routine never raises.
 */
module Recovery {
  import opened Wrappers
  import opened PyText
  import opened PyDict
  import opened JsonValue
  import opened JsonScan

  /** A part of the agent's answer: plain text, or one A2UI message as
      `create_a2ui_part` wraps it (a data part tagged with the A2UI MIME type;
      that wrapping is not modelled beyond carrying the message). */
  datatype Part = TextPart(text: PyStr) | A2uiPart(message: Json)

  predicate IsOpen(c: CodePoint) {
    c == '{' as int || c == '[' as int
  }

  predicate IsClose(c: CodePoint) {
    c == '}' as int || c == ']' as int
  }

  /** The first `{` or `[` at or after `i` (`re.search(r'[\{\[]', s)`). */
  function FirstOpen(s: PyStr, i: nat): (r: Option<nat>)
    requires i <= |s|
    ensures r.Some? ==> i <= r.value < |s| && IsOpen(s[r.value])
                        && forall k :: i <= k < r.value ==> !IsOpen(s[k])
    ensures r.None? ==> forall k :: i <= k < |s| ==> !IsOpen(s[k])
    decreases |s| - i
  {
    if i == |s| then None
    else if IsOpen(s[i]) then Some(i)
    else FirstOpen(s, i + 1)
  }

  /** The last `}` or `]` below `n` (`max(s.rfind('}'), s.rfind(']'))`, with
      `None` for Python's `-1`). */
  function LastClose(s: PyStr, n: nat): (r: Option<nat>)
    requires n <= |s|
    ensures r.Some? ==> r.value < n && IsClose(s[r.value])
                        && forall k :: r.value < k < n ==> !IsClose(s[k])
    ensures r.None? ==> forall k :: 0 <= k < n ==> !IsClose(s[k])
  {
    if n == 0 then None
    else if IsClose(s[n - 1]) then Some(n - 1)
    else LastClose(s, n - 1)
  }

  /** The fallback: `json.loads` of the text up to and including the last
      closing bracket; `None` when there is none or the decode fails. */
  function Fallback(js: PyStr): (r: Option<Json>)
    ensures (forall k :: 0 <= k < |js| ==> !IsClose(js[k])) ==> r.None?
  {
    match LastClose(js, |js|)
    case None => None
    case Some(m) => Loads(js[..m + 1])
  }

  /** A value the fallback finds is the strict decoding of the text up to and
      including its last closing bracket. */
  lemma FallbackLoadsPrefix(js: PyStr)
    ensures Fallback(js).Some? ==>
              exists m :: 0 <= m < |js| && IsClose(js[m]) && (forall k :: m < k < |js| ==> !IsClose(js[k]))
                          && Loads(js[..m + 1]) == Fallback(js)
  {
    if Fallback(js).Some? {
      var m := LastClose(js, |js|).value;
      assert Loads(js[..m + 1]) == Fallback(js);
    }
  }

  /** The value the routine obtains from the JSON text: `raw_decode`'s, or
      else the fallback's. `None` stands for Python's `data is None`. */
  function Extract(js: PyStr): (r: Option<Json>)
    ensures RawDecode(js).Ok? ==> r == Some(RawDecode(js).value)
    ensures RawDecode(js).Fail? ==> r == Fallback(js)
  {
    match RawDecode(js)
    case Ok(v, _) => Some(v)
    case Fail => Fallback(js)
  }

  /** How a decoded value is read as A2UI messages. */
  datatype Messages = Messages(items: seq<Json>) | NotContainer(data: Json)

  /** `"messages" in data and isinstance(data["messages"], list)`. */
  predicate IsMessageList(m: Option<Json>) {
    m.Some? && m.value.JArray?
  }

  /** A list is the messages themselves; an object whose `messages` entry is a
      list stands for that list; any other object is one message; anything
      else is not a container. */
  function Normalise(data: Json): (r: Messages)
    ensures r.NotContainer? <==> !(data.JArray? || data.JObject?)
    ensures data.JArray? ==> r == Messages(data.items)
    ensures data.JObject? && IsMessageList(Lookup(data.members, Cp("messages")))
            ==> r == Messages(Lookup(data.members, Cp("messages")).value.items)
    ensures data.JObject? && !IsMessageList(Lookup(data.members, Cp("messages")))
            ==> r == Messages([data])
  {
    match data
    case JArray(items) => Messages(items)
    case JObject(members) =>
      var m := Lookup(members, Cp("messages"));
      if IsMessageList(m) then Messages(m.value.items) else Messages([data])
    case _ => NotContainer(data)
  }

  /** One A2UI part per message, in order. */
  function A2uiParts(ms: seq<Json>): (r: seq<Part>)
    ensures |r| == |ms|
    ensures forall i :: 0 <= i < |ms| ==> r[i] == A2uiPart(ms[i])
  {
    if ms == [] then [] else [A2uiPart(ms[0])] + A2uiParts(ms[1..])
  }

  /** `process_llm_output_to_a2ui_parts(out)`, branch for branch. */
  function ProcessLlmOutput(out: PyStr): (r: seq<Part>)
    ensures out == [] ==> r == []
    ensures out != [] && FirstOpen(Strip(out), 0).None? ==> r == [TextPart(Strip(out))]
  {
    if out == [] then []
    else
      var s := Strip(out);
      match FirstOpen(s, 0)
      case None => [TextPart(s)]
      case Some(start) =>
        var data := Extract(s[start..]);
        if data.None? || data.value == JNull then [TextPart(s)]
        else
          match Normalise(data.value)
          case NotContainer(v) => [TextPart(Str(v))]
          case Messages(ms) => A2uiParts(ms)
  }

  // ---------------------------------------------------------------------
  // What the recovery chain really does
  // ---------------------------------------------------------------------

  /** The fallback never rescues anything: text that starts with a bracket and
      whose prefix up to the last closing bracket decodes strictly already
      decodes with `raw_decode`, to the same value. */
  lemma FallbackImpliesRawDecode(js: PyStr)
    requires js != [] && IsOpen(js[0]) && Fallback(js).Some?
    ensures RawDecode(js).Ok? && RawDecode(js).value == Fallback(js).value
  {
    var m := LastClose(js, |js|).value;
    var t := js[..m + 1];
    assert t[0] == js[0];
    assert SkipWs(t, 0) == 0;
    var e :| 0 < e <= |t| && ParseValue(t, 0) == Ok(Fallback(js).value, e) && SkipWs(t, e) == |t|;
    assert Agree(t, js, e);
    ValueAgree(t, js, 0);
  }

  /** On text that starts with a bracket, what is extracted is exactly what
      `raw_decode` gives, and it is a list or an object. */
  lemma ExtractIsRawDecode(js: PyStr)
    requires js != [] && IsOpen(js[0])
    ensures Extract(js) == if RawDecode(js).Ok? then Some(RawDecode(js).value) else None
    ensures Extract(js).Some? ==> Extract(js).value.JArray? || Extract(js).value.JObject?
  {
    if RawDecode(js).Fail? && Fallback(js).Some? {
      FallbackImpliesRawDecode(js);
    }
  }

  /** The messages of a list or an object. */
  function MessagesOf(data: Json): (ms: seq<Json>)
    requires data.JArray? || data.JObject?
  {
    Normalise(data).items
  }

  /** The recovery chain without its dead branches: decode at the first
      bracket and ignore the rest, else answer with the stripped text. */
  function Recover(out: PyStr): (r: seq<Part>) {
    if out == [] then []
    else
      var s := Strip(out);
      match FirstOpen(s, 0)
      case None => [TextPart(s)]
      case Some(start) =>
        match DecodeAt(s[start..])
        case None => [TextPart(s)]
        case Some(v) => A2uiParts(MessagesOf(v))
  }

  /** `raw_decode` of text that opens with a bracket: a list or an object. */
  function DecodeAt(js: PyStr): (r: Option<Json>)
    ensures r.Some? ==> r.value.JArray? || r.value.JObject?
  {
    if js == [] || !IsOpen(js[0]) then None
    else
      match RawDecode(js)
      case Fail => None
      case Ok(v, _) => Some(v)
  }

  /** The routine equals the reference without a fallback and without the
      "neither list nor dict" branch: both are dead code. */
  lemma ProcessLlmOutputIsRecover(out: PyStr)
    ensures ProcessLlmOutput(out) == Recover(out)
  {
    if out != [] {
      var s := Strip(out);
      if FirstOpen(s, 0).Some? {
        var js := s[FirstOpen(s, 0).value..];
        ExtractIsRawDecode(js);
        assert Extract(js) == DecodeAt(js);
        if DecodeAt(js).Some? {
          var v := DecodeAt(js).value;
          assert v != JNull && Normalise(v) == Messages(MessagesOf(v));
        }
      }
    }
  }

  /** Prose before the first bracket is ignored and text after a complete
      value is discarded: when the stripped reply is prose `p` (no bracket),
      then a value `t`, then anything `w`, the answer is one A2UI part per
      message of that value, in order. */
  lemma ProseValueTrailer(out: PyStr, p: PyStr, t: PyStr, w: PyStr, v: Json)
    requires Strip(out) == p + t + w
    requires forall k :: 0 <= k < |p| ==> !IsOpen(p[k])
    requires ParseValue(t, 0) == Ok(v, |t|) && (v.JArray? || v.JObject?)
    ensures ProcessLlmOutput(out) == A2uiParts(MessagesOf(v))
  {
    var s := Strip(out);
    assert 0 < |t| <= |s| <= |out|;
    ValueAfterProse(s, p, t, w, v);
    var js := s[|p|..];
    assert js[0] == t[0];
    assert DecodeAt(js) == Some(v);
    RecoverDecoded(out, |p|, v);
    ProcessLlmOutputIsRecover(out);
  }

  lemma RecoverDecoded(out: PyStr, start: nat, v: Json)
    requires out != [] && FirstOpen(Strip(out), 0) == Some(start)
    requires DecodeAt(Strip(out)[start..]) == Some(v)
    ensures Recover(out) == A2uiParts(MessagesOf(v))
  {
  }

  lemma ValueAfterProse(s: PyStr, p: PyStr, t: PyStr, w: PyStr, v: Json)
    requires s == p + t + w
    requires forall k :: 0 <= k < |p| ==> !IsOpen(p[k])
    requires ParseValue(t, 0) == Ok(v, |t|) && (v.JArray? || v.JObject?)
    ensures FirstOpen(s, 0) == Some(|p|)
    ensures RawDecode(s[|p|..]) == Ok(v, |t|)
  {
    FirstOpenAfterProse(s, p, t, w);
    var js := s[|p|..];
    DropPrefix(p, t, w);
    assert Agree(t, js, |t|) by {
      assert forall k :: 0 <= k < |t| ==> js[k] == (t + w)[k] == t[k];
    }
    ValueAgree(t, js, 0);
  }

  lemma FirstOpenAfterProse(s: PyStr, p: PyStr, t: PyStr, w: PyStr)
    requires s == p + t + w && t != [] && IsOpen(t[0])
    requires forall k :: 0 <= k < |p| ==> !IsOpen(p[k])
    ensures FirstOpen(s, 0) == Some(|p|)
  {
    assert s[|p|] == t[0];
    assert forall k :: 0 <= k < |p| ==> s[k] == p[k];
  }

  lemma DropPrefix(p: PyStr, t: PyStr, w: PyStr)
    ensures (p + t + w)[|p|..] == t + w
  {
  }

  /** When nothing decodes at the first bracket, the answer is the stripped
      reply as one text part (the fallback cannot help). */
  lemma UndecodableIsText(out: PyStr)
    requires out != [] && FirstOpen(Strip(out), 0).Some?
    requires RawDecode(Strip(out)[FirstOpen(Strip(out), 0).value..]).Fail?
    ensures ProcessLlmOutput(out) == [TextPart(Strip(out))]
  {
    ProcessLlmOutputIsRecover(out);
  }

  /** A reply of whitespace only is not empty, so it is answered with one text
      part, and that text is empty. */
  lemma BlankOutput(out: PyStr)
    requires out != [] && AllSpace(out)
    ensures ProcessLlmOutput(out) == [TextPart([])]
  {
    assert Strip(out) == [];
  }
}
