/** JSON values as Python's `json` module hands them back (section 3 of
    RFC 8259 lists the six kinds), together with the two renderings the
    executor applies to them: `json.dumps` and `str()`.
 */
module JsonValue {
  import opened Wrappers
  import opened PyText
  import opened PyDict

  /** A decoded JSON value. A number keeps the text it was written as: the
      model never converts it to a Python `int` or `float`. An object is the
      Python `dict` the decoder builds: its members in insertion order (see
      `PyDict`). */
  datatype Json =
    | JNull
    | JBool(b: bool)
    | JNumber(lexeme: PyStr)
    | JString(s: PyStr)
    | JArray(items: seq<Json>)
    | JObject(members: seq<(PyStr, Json)>)

  /** `d.get(k, default)` on an object's members. */
  function GetOr(members: seq<(PyStr, Json)>, k: PyStr, default: Json): (r: Json)
    ensures HasKey(members, k) ==> Lookup(members, k) == Some(r)
    ensures !HasKey(members, k) ==> r == default
  {
    LookupHasKey(members, k);
    Lookup(members, k).GetOr(default)
  }

  // ---------------------------------------------------------------------
  // json.dumps, with its default options (ensure_ascii, ", " and ": ")
  // ---------------------------------------------------------------------

  function HexDigit(d: int): (c: CodePoint)
    requires 0 <= d < 16
    ensures c < 0x80
  {
    if d < 10 then '0' as int + d else 'a' as int + (d - 10)
  }

  /** Four lower-case hexadecimal digits, as in a `\uXXXX` escape. */
  function Hex4(n: int): (r: PyStr)
    requires 0 <= n < 0x1_0000
    ensures |r| == 4 && forall i :: 0 <= i < 4 ==> r[i] < 0x80
  {
    [HexDigit(n / 0x1000), HexDigit(n / 0x100 % 16), HexDigit(n / 16 % 16), HexDigit(n % 16)]
  }

  predicate IsAscii(s: PyStr) {
    forall i :: 0 <= i < |s| ==> s[i] < 0x80
  }

  /** How the ASCII-only string encoder writes one code point: printable
      ASCII other than `"` and `\` as itself, the five named control
      characters by their letter, everything else as `\uXXXX` (a UTF-16
      surrogate pair above U+FFFF). */
  function EscapeChar(c: CodePoint): (r: PyStr)
    ensures r != [] && IsAscii(r)
    ensures (r == [c]) <==> (0x20 <= c <= 0x7E && c != '"' as int && c != '\\' as int)
  {
    if 0x20 <= c <= 0x7E && c != '"' as int && c != '\\' as int then [c]
    else if c == '"' as int then Cp("\\\"")
    else if c == '\\' as int then Cp("\\\\")
    else if c == 0x08 then Cp("\\b")
    else if c == 0x0C then Cp("\\f")
    else if c == 0x0A then Cp("\\n")
    else if c == 0x0D then Cp("\\r")
    else if c == 0x09 then Cp("\\t")
    else if c >= 0x1_0000 then
      var v := c - 0x1_0000;
      Cp("\\u") + Hex4(0xD800 + v / 0x400) + Cp("\\u") + Hex4(0xDC00 + v % 0x400)
    else
      Cp("\\u") + Hex4(c)
  }

  function EscapeAll(s: PyStr): (r: PyStr)
    ensures IsAscii(r)
    ensures |r| >= |s|
  {
    if s == [] then [] else EscapeChar(s[0]) + EscapeAll(s[1..])
  }

  predicate IsPlain(s: PyStr) {
    forall i :: 0 <= i < |s| ==> 0x20 <= s[i] <= 0x7E && s[i] != '"' as int && s[i] != '\\' as int
  }

  /** Text of printable ASCII without quote or backslash is written as it is,
      and only such text is. */
  lemma {:induction false} EscapePlain(s: PyStr)
    ensures EscapeAll(s) == s <==> IsPlain(s)
  {
    if s != [] {
      EscapePlain(s[1..]);
      var r := EscapeAll(s);
      if r == s {
        assert |EscapeChar(s[0])| == 1 by {
          assert |EscapeAll(s[1..])| >= |s| - 1;
        }
        assert EscapeChar(s[0]) == r[..1] == [s[0]];
        assert EscapeAll(s[1..]) == r[1..] == s[1..];
      }
      if IsPlain(s) {
        assert IsPlain(s[1..]);
      }
    }
  }

  /** A Python `str` as a JSON string literal; the result is pure ASCII
      whatever the input. */
  function EncodeString(s: PyStr): (r: PyStr)
    ensures IsAscii(r)
    ensures |r| >= 2 && r[0] == '"' as int && r[|r| - 1] == '"' as int
  {
    Cp("\"") + EscapeAll(s) + Cp("\"")
  }

  /** `sep.join(parts)`. */
  function Join(sep: PyStr, parts: seq<PyStr>): (r: PyStr) {
    if parts == [] then []
    else if |parts| == 1 then parts[0]
    else parts[0] + sep + Join(sep, parts[1..])
  }

  /** `json.dumps(v)`. Numbers are written as the text they were read from
      (Python writes `float.__repr__`, which may differ in form). */
  function Encode(v: Json): (r: PyStr)
    ensures v.JArray? ==> |r| >= 2 && r[0] == '[' as int && r[|r| - 1] == ']' as int
    ensures v.JObject? ==> |r| >= 2 && r[0] == '{' as int && r[|r| - 1] == '}' as int
    decreases v, 1
  {
    match v
    case JNull => Cp("null")
    case JBool(b) => if b then Cp("true") else Cp("false")
    case JNumber(lexeme) => lexeme
    case JString(s) => EncodeString(s)
    case JArray(items) => Cp("[") + Join(Cp(", "), EncodeItems(v, items)) + Cp("]")
    case JObject(members) => Cp("{") + Join(Cp(", "), EncodeMembers(v, members)) + Cp("}")
  }

  function EncodeItems(ghost parent: Json, items: seq<Json>): (r: seq<PyStr>)
    requires forall x :: x in items ==> x < parent
    ensures |r| == |items|
    decreases parent, 0, |items|
  {
    if items == [] then []
    else
      assert items[0] in items;
      assert forall x :: x in items[1..] ==> x in items;
      [Encode(items[0])] + EncodeItems(parent, items[1..])
  }

  function EncodeMembers(ghost parent: Json, members: seq<(PyStr, Json)>): (r: seq<PyStr>)
    requires forall m :: m in members ==> m.1 < parent
    ensures |r| == |members|
    decreases parent, 0, |members|
  {
    if members == [] then []
    else
      assert members[0] in members;
      assert forall m :: m in members[1..] ==> m in members;
      [EncodeString(members[0].0) + Cp(": ") + Encode(members[0].1)]
      + EncodeMembers(parent, members[1..])
  }

  /** `str(v)` for a value read from JSON: `None`, `True`, `False`, the number,
      or the string itself; a list or dict is written as JSON text here
      (Python writes its `repr`). */
  function Str(v: Json): (r: PyStr)
    ensures v.JString? ==> r == v.s
  {
    match v
    case JNull => Cp("None")
    case JBool(b) => if b then Cp("True") else Cp("False")
    case JNumber(lexeme) => lexeme
    case JString(s) => s
    case _ => Encode(v)
  }
}
