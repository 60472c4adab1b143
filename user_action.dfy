/** The A2UI client-to-server `userAction` payload and the directive the
    executor derives from it.

    The executor scans the parts of the inbound message for the first data
    part carrying a `userAction` entry. Its `context` list of
    `{key, value}` items is flattened into a dict, each value unwrapped from
    the first of the tags `literalString`, `literalNumber`, `literalBoolean`,
    `path` it carries. The action's name and that dict, serialised with
    `json.dumps`, are written into a sentence for the model.

    The payload comes from the client and is not validated: a payload of the
    wrong shape makes the executor raise, and so does the model.
 */
module UserAction {
  import opened Wrappers
  import opened PyText
  import opened PyDict
  import opened JsonValue

  /** A part of the inbound message: text, structured data (a dict), or a file. */
  datatype InPart = TextIn(text: PyStr) | DataIn(data: seq<(PyStr, Json)>) | FileIn

  /** The Python exceptions the executor can raise. */
  datatype PyError =
    | AttributeError   // a method called on a value that lacks it (`.get` on a list, say)
    | TypeError        // an operation applied to a value of the wrong type
    | NameError(name: PyStr)
    | ServerError      // the A2A server error that carries `UnsupportedOperationError`

  /** The exceptions a payload of the wrong shape provokes. */
  predicate IsShapeError(e: PyError) {
    e == AttributeError || e == TypeError
  }

  /** The outcome of Python code that may raise. */
  datatype Outcome<+T> = Value(value: T) | Raises(error: PyError)

  // ---------------------------------------------------------------------
  // Tagged values
  // ---------------------------------------------------------------------

  /** The value of a context item, by the first tag it carries. */
  datatype Tagged =
    | LiteralString(v: Json)
    | LiteralNumber(v: Json)
    | LiteralBoolean(v: Json)
    | PathRef(path: Json)
    | Untagged

  /** The four tags, in the order they are tried. */
  const Tags: seq<PyStr> := [Cp("literalString"), Cp("literalNumber"), Cp("literalBoolean"), Cp("path")]

  /** Where a tagged value's tag stands in `Tags`. */
  function TagIndex(t: Tagged): (i: nat)
    requires !t.Untagged?
    ensures i < |Tags|
  {
    match t
    case LiteralString(_) => 0
    case LiteralNumber(_) => 1
    case LiteralBoolean(_) => 2
    case PathRef(_) => 3
  }

  function Payload(t: Tagged): (r: Json)
    requires !t.Untagged?
  {
    match t
    case LiteralString(v) => v
    case LiteralNumber(v) => v
    case LiteralBoolean(v) => v
    case PathRef(p) => p
  }

  /** `tag in s` for a Python `str`: substring containment. */
  predicate Contains(s: PyStr, tag: PyStr) {
    exists i :: 0 <= i <= |s| && OccursAt(s, tag, i)
  }

  predicate OccursAt(s: PyStr, tag: PyStr, i: nat) {
    i + |tag| <= |s| && s[i..i + |tag|] == tag
  }

  /** Some tag passes the `in` test on `val` (list membership for a list,
      substring for a string). */
  predicate SomeTagIn(val: Json)
    requires val.JArray? || val.JString?
  {
    exists t :: t in Tags && (if val.JArray? then JString(t) in val.items else Contains(val.s, t))
  }

  /** The chain of `if tag in val: ... val[tag]` tests on one item's value. On
      a dict the first tag present wins. On a list or a string the membership
      test can succeed, but indexing either with a string raises `TypeError`.
      On `None`, a boolean or a number the `in` test itself raises
      `TypeError`. */
  function Unwrap(val: Json): (r: Outcome<Tagged>)
    ensures val.JObject? ==> r.Value?
    ensures val.JArray? || val.JString? ==> (r.Raises? <==> SomeTagIn(val))
    ensures !(val.JObject? || val.JArray? || val.JString?) ==> r.Raises?
    ensures r.Raises? ==> r.error == TypeError
  {
    match val
    case JObject(m) =>
      if Lookup(m, Tags[0]).Some? then Value(LiteralString(Lookup(m, Tags[0]).value))
      else if Lookup(m, Tags[1]).Some? then Value(LiteralNumber(Lookup(m, Tags[1]).value))
      else if Lookup(m, Tags[2]).Some? then Value(LiteralBoolean(Lookup(m, Tags[2]).value))
      else if Lookup(m, Tags[3]).Some? then Value(PathRef(Lookup(m, Tags[3]).value))
      else Value(Untagged)
    case JArray(_) => if SomeTagIn(val) then Raises(TypeError) else Value(Untagged)
    case JString(_) => if SomeTagIn(val) then Raises(TypeError) else Value(Untagged)
    case _ => Raises(TypeError)
  }

  /** On a dict, the tag that wins is the first of `Tags` present, and the
      value is that entry's; a dict with none of them is untagged. */
  lemma UnwrapPriority(m: seq<(PyStr, Json)>)
    ensures Unwrap(JObject(m)).Value?
    ensures Unwrap(JObject(m)).value.Untagged? <==> forall j :: 0 <= j < |Tags| ==> !HasKey(m, Tags[j])
    ensures !Unwrap(JObject(m)).value.Untagged? ==>
              var t := Unwrap(JObject(m)).value;
              && HasKey(m, Tags[TagIndex(t)])
              && (forall j :: 0 <= j < TagIndex(t) ==> !HasKey(m, Tags[j]))
              && Lookup(m, Tags[TagIndex(t)]) == Some(Payload(t))
  {
    LookupHasKey(m, Tags[0]);
    LookupHasKey(m, Tags[1]);
    LookupHasKey(m, Tags[2]);
    LookupHasKey(m, Tags[3]);
    var t := Unwrap(JObject(m)).value;
    if !t.Untagged? {
      forall j | 0 <= j < TagIndex(t)
        ensures !HasKey(m, Tags[j])
      {
        assert j == 0 || j == 1 || j == 2;
      }
    } else {
      forall j | 0 <= j < |Tags|
        ensures !HasKey(m, Tags[j])
      {
        assert j == 0 || j == 1 || j == 2 || j == 3;
      }
    }
  }

  /** A value Python can use as a dict key; a list or a dict cannot. */
  predicate Hashable(k: Json) {
    !(k.JArray? || k.JObject?)
  }

  /** How the unwrapped value is stored: the literal as it is, a path as the
      string `{path: <p>}`. */
  function Stored(t: Tagged): (v: Json)
    requires !t.Untagged?
    ensures t.PathRef? ==> v == JString(Cp("{path: ") + Str(t.path) + Cp("}"))
    ensures !t.PathRef? ==> v == Payload(t)
  {
    if t.PathRef? then JString(Cp("{path: ") + Str(t.path) + Cp("}")) else Payload(t)
  }

  /** One context item: `None` when it carries no tag (nothing is assigned),
      otherwise the key and the stored value. The item must be a dict
      (`item.get`), its `key` defaults to `None` and its `value` to `{}`, and
      the key must be hashable for the assignment. */
  function ItemEntry(item: Json): (r: Outcome<Option<(Json, Json)>>)
    ensures r.Value? && r.value.Some? ==> Hashable(r.value.value.0)
    ensures !item.JObject? ==> r == Raises(AttributeError)
    ensures r.Raises? ==> IsShapeError(r.error)
  {
    match item
    case JObject(m) =>
      var key := GetOr(m, Cp("key"), JNull);
      var val := GetOr(m, Cp("value"), JObject([]));
      (match Unwrap(val)
       case Raises(e) => Raises(e)
       case Value(t) =>
         if t.Untagged? then Value(None)
         else if !Hashable(key) then Raises(TypeError)
         else Value(Some((key, Stored(t)))))
    case _ => Raises(AttributeError)
  }

  /** The key-value pairs the items assign, in order, or the exception of the
      first item that raises. */
  function Entries(items: seq<Json>): (r: Outcome<seq<(Json, Json)>>)
    ensures r.Value? ==> forall i :: 0 <= i < |r.value| ==> Hashable(r.value[i].0)
    ensures r.Value? ==> |r.value| <= |items|
    ensures r.Raises? ==> IsShapeError(r.error)
    decreases |items|
  {
    if items == [] then Value([])
    else
      match Entries(items[..|items| - 1])
      case Raises(e) => Raises(e)
      case Value(ps) =>
        match ItemEntry(items[|items| - 1])
        case Raises(e) => Raises(e)
        case Value(None) => Value(ps)
        case Value(Some(p)) => Value(ps + [p])
  }

  /** The context dict: `dict` of the assigned pairs. */
  function ContextDict(items: seq<Json>): (r: Outcome<seq<(Json, Json)>>)
    ensures r.Raises? ==> IsShapeError(r.error)
    ensures r.Value? ==> UniqueKeys(r.value) && |r.value| <= |items|
  {
    match Entries(items)
    case Raises(e) => Raises(e)
    case Value(ps) =>
      FromPairsLookup(ps, JNull);
      Value(FromPairs(ps))
  }

  /** The context dict has one entry per key, all keys hashable, and for each
      key the value of the LAST item that assigned it. */
  lemma ContextDictLastWins(items: seq<Json>, k: Json)
    requires ContextDict(items).Value?
    ensures UniqueKeys(ContextDict(items).value)
    ensures Lookup(ContextDict(items).value, k) == Lookup(Entries(items).value, k)
    ensures forall i :: 0 <= i < |ContextDict(items).value| ==> Hashable(ContextDict(items).value[i].0)
  {
    var ps := Entries(items).value;
    FromPairsLookup(ps, k);
    FromPairsKeys(ps);
  }

  lemma {:induction false} FromPairsKeys(ps: seq<(Json, Json)>)
    requires forall i :: 0 <= i < |ps| ==> Hashable(ps[i].0)
    ensures forall i :: 0 <= i < |FromPairs(ps)| ==> Hashable(FromPairs(ps)[i].0)
    decreases |ps|
  {
    if ps != [] {
      var init := ps[..|ps| - 1];
      FromPairsKeys(init);
      var d := FromPairs(init);
      var p := ps[|ps| - 1];
      assert Hashable(p.0);
      assert forall i :: 0 <= i < |Put(d, p.0, p.1)| ==> Put(d, p.0, p.1)[i].0 in Keys(d) + [p.0] by {
        forall i | 0 <= i < |Put(d, p.0, p.1)|
          ensures Put(d, p.0, p.1)[i].0 in Keys(d) + [p.0]
        {
          if HasKey(d, p.0) {
            assert Put(d, p.0, p.1)[i].0 == d[i].0 == Keys(d)[i];
          } else {
            assert Put(d, p.0, p.1) == d + [(p.0, p.1)];
            if i < |d| { assert Put(d, p.0, p.1)[i].0 == Keys(d)[i]; }
          }
        }
      }
    }
  }

  /** An item that carries no tag leaves the context dict as it was. */
  lemma UntaggedItemOmitted(items: seq<Json>, item: Json)
    requires ItemEntry(item) == Value(None)
    ensures ContextDict(items + [item]) == ContextDict(items)
  {
    assert (items + [item])[..|items|] == items;
  }

  /** A later item assigning the same key overwrites the earlier value. */
  lemma LaterKeyOverwrites(items: seq<Json>, item: Json, k: Json, v: Json)
    requires ContextDict(items).Value? && ItemEntry(item) == Value(Some((k, v)))
    ensures ContextDict(items + [item]).Value?
    ensures Lookup(ContextDict(items + [item]).value, k) == Some(v)
  {
    var all := items + [item];
    assert all[..|all| - 1] == items && all[|all| - 1] == item;
    var ps := Entries(items).value;
    assert Entries(all) == Value(ps + [(k, v)]);
    FromPairsLookup(ps + [(k, v)], k);
    assert (ps + [(k, v)])[..|ps|] == ps;
    assert Lookup(ps + [(k, v)], k) == Some(v);
  }

  /** Once an item has raised, later items are never looked at. */
  lemma {:induction false} RaiseIsFinal(items: seq<Json>, i: nat)
    requires i <= |items| && Entries(items[..i]).Raises?
    ensures Entries(items) == Entries(items[..i])
    decreases |items| - i
  {
    if i < |items| {
      assert items[..i + 1][..i] == items[..i];
      RaiseIsFinal(items, i + 1);
    } else {
      assert items[..i] == items;
    }
  }

  /** `for item in action_context`: a list yields its items, a dict its keys
      and a string its characters; anything else is not iterable. */
  function ContextItems(ctx: Json): (r: Outcome<seq<Json>>)
    ensures r.Raises? <==> !(ctx.JArray? || ctx.JObject? || ctx.JString?)
  {
    match ctx
    case JArray(items) => Value(items)
    case JObject(m) => Value(seq(|m|, i requires 0 <= i < |m| => JString(m[i].0)))
    case JString(s) => Value(seq(|s|, i requires 0 <= i < |s| => JString([s[i]])))
    case _ => Raises(TypeError)
  }

  /** The loop that fills `context_dict` in place. */
  method BuildContextDict(items: seq<Json>) returns (r: Outcome<seq<(Json, Json)>>)
    ensures r == ContextDict(items)
  {
    var d: seq<(Json, Json)> := [];
    var i := 0;
    while i < |items|
      invariant 0 <= i <= |items|
      invariant Entries(items[..i]).Value?
      invariant d == FromPairs(Entries(items[..i]).value)
    {
      assert items[..i + 1][..i] == items[..i];
      match ItemEntry(items[i]) {
        case Raises(e) =>
          RaiseIsFinal(items, i + 1);
          return Raises(e);
        case Value(None) =>
        case Value(Some(p)) =>
          var ps := Entries(items[..i]).value;
          assert (ps + [p])[..|ps|] == ps;
          d := Put(d, p.0, p.1);
      }
      i := i + 1;
    }
    assert items[..i] == items;
    r := Value(d);
  }

  // ---------------------------------------------------------------------
  // The directive
  // ---------------------------------------------------------------------

  /** `json.dumps` turns every dict key into a string: `None`, `True` and
      `False` become `null`, `true` and `false`, a number its text. */
  function KeyString(k: Json): (r: PyStr)
    requires Hashable(k)
  {
    match k
    case JNull => Cp("null")
    case JBool(b) => if b then Cp("true") else Cp("false")
    case JNumber(lexeme) => lexeme
    case JString(s) => s
  }

  function DumpEntries(d: seq<(Json, Json)>): (r: seq<PyStr>)
    requires forall i :: 0 <= i < |d| ==> Hashable(d[i].0)
    ensures |r| == |d|
  {
    if d == [] then []
    else [EncodeString(KeyString(d[0].0)) + Cp(": ") + Encode(d[0].1)] + DumpEntries(d[1..])
  }

  /** `json.dumps(context_dict)`. */
  function Dumps(d: seq<(Json, Json)>): (r: PyStr)
    requires forall i :: 0 <= i < |d| ==> Hashable(d[i].0)
    ensures |r| >= 2 && r[0] == '{' as int && r[|r| - 1] == '}' as int
  {
    Cp("{") + Join(Cp(", "), DumpEntries(d)) + Cp("}")
  }

  /** The action name as the f-string writes it: a missing name is `None`. */
  function NameText(name: Option<Json>): (r: PyStr)
    ensures name.None? ==> r == Cp("None")
    ensures name.Some? && name.value.JString? ==> r == name.value.s
  {
    match name
    case None => Cp("None")
    case Some(v) => Str(v)
  }

  const DirectiveHead: PyStr := Cp("User initiated action: '")
  const DirectiveMiddle: PyStr := Cp("'. Action context data: ")
  const DirectiveTail: PyStr := Cp(". Please use the appropriate tool to handle this.")

  function Directive(name: Option<Json>, d: seq<(Json, Json)>): (r: PyStr)
    requires forall i :: 0 <= i < |d| ==> Hashable(d[i].0)
    ensures |r| >= |DirectiveHead| + |DirectiveTail|
    ensures r[..|DirectiveHead|] == DirectiveHead && r[|r| - |DirectiveTail|..] == DirectiveTail
  {
    var front := DirectiveHead + NameText(name) + DirectiveMiddle + Dumps(d);
    assert (front + DirectiveTail)[..|DirectiveHead|] == DirectiveHead;
    front + DirectiveTail
  }

  /** The directive opens with `User` and closes with a full stop, so
      stripping never eats into it. */
  lemma DirectiveEnds(name: Option<Json>, d: seq<(Json, Json)>)
    requires forall i :: 0 <= i < |d| ==> Hashable(d[i].0)
    ensures var r := Directive(name, d);
            r != [] && !IsSpace(r[0]) && !IsSpace(r[|r| - 1])
  {
    DirectiveDelimiters();
    var r := Directive(name, d);
    var front := DirectiveHead + NameText(name) + DirectiveMiddle + Dumps(d);
    assert r == front + DirectiveTail;
    assert r[0] == DirectiveHead[0];
    assert r[|r| - 1] == DirectiveTail[|DirectiveTail| - 1];
  }

  lemma DirectiveDelimiters()
    ensures DirectiveHead != [] && DirectiveHead[0] == 'U' as int
    ensures DirectiveTail != [] && DirectiveTail[|DirectiveTail| - 1] == '.' as int
  {
  }

  /** What one `userAction` payload yields: the directive, or the exception
      its shape provokes. The payload must be a dict (`.get`); a missing
      `context` counts as an empty list. */
  function ActionDirective(payload: Json): (r: Outcome<PyStr>)
    ensures !payload.JObject? ==> r == Raises(AttributeError)
    ensures r.Raises? ==> IsShapeError(r.error)
  {
    match payload
    case JObject(m) =>
      (match ContextItems(GetOr(m, Cp("context"), JArray([])))
       case Raises(e) => Raises(e)
       case Value(items) =>
         match ContextDict(items)
         case Raises(e) => Raises(e)
         case Value(d) =>
           ContextDictLastWins(items, JNull);
           Value(Directive(Lookup(m, Cp("name")), d)))
    case _ => Raises(AttributeError)
  }

  /** A directive, when there is one, can be appended to the user's text on
      a line of its own and survives stripping unchanged. */
  lemma ActionDirectiveEnds(payload: Json)
    requires ActionDirective(payload).Value?
    ensures var r := ActionDirective(payload).value;
            r != [] && !IsSpace(r[0]) && !IsSpace(r[|r| - 1])
  {
    var m := payload.members;
    var items := ContextItems(GetOr(m, Cp("context"), JArray([]))).value;
    ContextDictLastWins(items, JNull);
    DirectiveEnds(Lookup(m, Cp("name")), ContextDict(items).value);
  }

  /** A button press `select` with one literal string in its context: the
      context becomes a one-entry dict, written by `json.dumps` with a space
      after the colon. */
  lemma SelectExample()
    ensures var item := JObject([(Cp("key"), JString(Cp("color"))),
                                 (Cp("value"), JObject([(Cp("literalString"), JString(Cp("red")))]))]);
            var payload := JObject([(Cp("name"), JString(Cp("select"))), (Cp("context"), JArray([item]))]);
            ActionDirective(payload)
              == Value(DirectiveHead + Cp("select") + DirectiveMiddle + Cp("{\"color\": \"red\"}") + DirectiveTail)
  {
    var color := JString(Cp("color"));
    var red := JString(Cp("red"));
    var val := JObject([(Cp("literalString"), red)]);
    var item := JObject([(Cp("key"), color), (Cp("value"), val)]);
    SelectPayloadExample(item);
    assert ContextItems(JArray([item])) == Value([item]);
    ColorItemExample();
    assert ContextDict([item]) == Value([(color, red)]);
    DumpsExample();
  }

  /** The payload `{name: "select", context: [item]}` has that name and that
      context list. */
  lemma SelectPayloadExample(item: Json)
    ensures var m := [(Cp("name"), JString(Cp("select"))), (Cp("context"), JArray([item]))];
            GetOr(m, Cp("context"), JArray([])) == JArray([item])
            && Lookup(m, Cp("name")) == Some(JString(Cp("select")))
  {
    var m := [(Cp("name"), JString(Cp("select"))), (Cp("context"), JArray([item]))];
    assert GetOr(m, Cp("context"), JArray([])) == JArray([item]);
    assert Lookup(m, Cp("name")) == Some(JString(Cp("select"))) by {
      assert |Cp("context")| != |Cp("name")|;
      assert m[..1] == [(Cp("name"), JString(Cp("select")))];
    }
  }

  /** The context item `{key: "color", value: {literalString: "red"}}` gives
      the one-entry dict `{"color": "red"}`. */
  lemma ColorItemExample()
    ensures var item := JObject([(Cp("key"), JString(Cp("color"))),
                                 (Cp("value"), JObject([(Cp("literalString"), JString(Cp("red")))]))]);
            ContextDict([item]) == Value([(JString(Cp("color")), JString(Cp("red")))])
  {
    var color := JString(Cp("color"));
    var red := JString(Cp("red"));
    var val := JObject([(Cp("literalString"), red)]);
    var item := JObject([(Cp("key"), color), (Cp("value"), val)]);
    assert Unwrap(val) == Value(LiteralString(red));
    assert GetOr(item.members, Cp("key"), JNull) == color by {
      var ms := item.members;
      assert |Cp("value")| != |Cp("key")|;
      assert ms[|ms| - 1].0 != Cp("key");
      assert ms[..|ms| - 1] == [(Cp("key"), color)];
      assert Lookup([(Cp("key"), color)], Cp("key")) == Some(color);
      assert Lookup(ms, Cp("key")) == Some(color);
    }
    assert GetOr(item.members, Cp("value"), JObject([])) == val;
    assert ItemEntry(item) == Value(Some((color, red)));
    assert Entries([item]) == Value([(color, red)]) by {
      var items := [item];
      assert items[..|items| - 1] == [];
      assert items[|items| - 1] == item;
      assert Entries([]) == Value([]);
      assert ItemEntry(items[|items| - 1]) == Value(Some((color, red)));
      assert [] + [(color, red)] == [(color, red)];
    }
    assert FromPairs([(color, red)]) == [(color, red)] by {
      assert [(color, red)][..0] == [];
    }
  }

  /** `json.dumps({"color": "red"})`. */
  lemma DumpsExample()
    ensures Dumps([(JString(Cp("color")), JString(Cp("red")))]) == Cp("{\"color\": \"red\"}")
  {
    assert IsPlain(Cp("color")) && IsPlain(Cp("red"));
    DumpsPlainPair("color", "red");
    ExampleSpelling();
  }

  lemma ExampleSpelling()
    ensures "{" + (("\"" + "color" + "\"") + ": " + ("\"" + "red" + "\"")) + "}" == "{\"color\": \"red\"}"
  {
  }

  /** A one-entry dict of plain strings is written with a colon and a space
      between the quoted key and the quoted value. */
  lemma DumpsPlainPair(k: string, v: string)
    requires IsPlain(Cp(k)) && IsPlain(Cp(v))
    ensures Dumps([(JString(Cp(k)), JString(Cp(v)))])
         == Cp("{" + (("\"" + k + "\"") + ": " + ("\"" + v + "\"")) + "}")
  {
    EncodePlain(k);
    EncodePlain(v);
    var qk := "\"" + k + "\"";
    var qv := "\"" + v + "\"";
    var entry := EncodeString(Cp(k)) + Cp(": ") + EncodeString(Cp(v));
    CpConcat3(qk, ": ", qv);
    assert DumpEntries([(JString(Cp(k)), JString(Cp(v)))]) == [entry];
    CpConcat3("{", qk + ": " + qv, "}");
  }

  /** Plain text is written between quotes and nothing more. */
  lemma EncodePlain(s: string)
    requires IsPlain(Cp(s))
    ensures EncodeString(Cp(s)) == Cp("\"" + s + "\"")
  {
    EscapePlain(Cp(s));
    CpConcat3("\"", s, "\"");
  }

  lemma CpConcat3(a: string, b: string, c: string)
    ensures Cp(a) + Cp(b) + Cp(c) == Cp(a + b + c)
  {
    CpConcat(a, b);
    CpConcat(a + b, c);
  }

  /** A data part whose dict has a `userAction` entry. */
  predicate IsActionPart(p: InPart) {
    p.DataIn? && Lookup(p.data, Cp("userAction")).Some?
  }

  function ActionPayload(p: InPart): (r: Json)
    requires IsActionPart(p)
  {
    Lookup(p.data, Cp("userAction")).value
  }

  /** The first action part. */
  function FirstActionPart(parts: seq<InPart>): (r: Option<nat>)
    ensures r.Some? ==> r.value < |parts| && IsActionPart(parts[r.value])
                        && forall j :: 0 <= j < r.value ==> !IsActionPart(parts[j])
    ensures r.None? ==> forall j :: 0 <= j < |parts| ==> !IsActionPart(parts[j])
  {
    if parts == [] then None
    else if IsActionPart(parts[0]) then Some(0)
    else
      match FirstActionPart(parts[1..])
      case None => None
      case Some(i) => Some(i + 1)
  }

  /** The directive of the first action part, `None` when there is none. */
  function UserActionOf(parts: seq<InPart>): (r: Outcome<Option<PyStr>>)
    ensures FirstActionPart(parts).None? ==> r == Value(None)
    ensures r.Raises? ==> IsShapeError(r.error)
    ensures r.Value? && r.value.Some? ==>
              var d := r.value.value;
              d != [] && !IsSpace(d[0]) && !IsSpace(d[|d| - 1])
  {
    match FirstActionPart(parts)
    case None => Value(None)
    case Some(i) =>
      match ActionDirective(ActionPayload(parts[i]))
      case Raises(e) => Raises(e)
      case Value(text) =>
        ActionDirectiveEnds(ActionPayload(parts[i]));
        Value(Some(text))
  }

  /** Only the first action part counts: whatever parts follow it, even other
      action parts, change nothing. */
  lemma LaterPartsIgnored(parts: seq<InPart>, more: seq<InPart>)
    requires FirstActionPart(parts).Some?
    ensures UserActionOf(parts + more) == UserActionOf(parts)
  {
    var i := FirstActionPart(parts).value;
    var all := parts + more;
    assert all[i] == parts[i];
    assert forall j :: 0 <= j < i ==> all[j] == parts[j];
    var f := FirstActionPart(all);
    assert f.Some? && f.value <= i;
    assert f.value == i;
  }

  /** The scan of the message parts, which stops at the first action part. */
  method ExtractUserAction(parts: seq<InPart>) returns (r: Outcome<Option<PyStr>>)
    ensures r == UserActionOf(parts)
  {
    r := Value(None);
    var i := 0;
    while i < |parts|
      invariant 0 <= i <= |parts|
      invariant forall j :: 0 <= j < i ==> !IsActionPart(parts[j])
    {
      if IsActionPart(parts[i]) {
        assert FirstActionPart(parts) == Some(i);
        var directive := DirectiveFor(ActionPayload(parts[i]));
        match directive {
          case Raises(e) => r := Raises(e);
          case Value(text) => r := Value(Some(text));
        }
        return;
      }
      i := i + 1;
    }
  }

  /** One payload turned into its directive, step by step. */
  method DirectiveFor(payload: Json) returns (r: Outcome<PyStr>)
    ensures r == ActionDirective(payload)
  {
    if !payload.JObject? {
      return Raises(AttributeError);
    }
    var m := payload.members;
    var name := Lookup(m, Cp("name"));
    var ctx := GetOr(m, Cp("context"), JArray([]));
    match ContextItems(ctx) {
      case Raises(e) =>
        return Raises(e);
      case Value(items) =>
        var d := BuildContextDict(items);
        match d {
          case Raises(e) =>
            return Raises(e);
          case Value(dict) =>
            ContextDictLastWins(items, JNull);
            return Value(Directive(name, dict));
        }
    }
  }
}
