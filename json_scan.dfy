/** The part of Python's `json` module the recovery routine relies on:
    `JSONDecoder().raw_decode(s)` (decode one value at the start of `s`,
    report where it ended, ignore what follows) and `json.loads(s)` (the same,
    but only whitespace may follow). Both are modelled on CPython's C scanner,
    which follows the grammar of section 2 of RFC 8259 and adds the constants
    `NaN`, `Infinity` and `-Infinity`.

    Every failure here is a `json.JSONDecodeError` in Python.
 */
module JsonScan {
  import opened Wrappers
  import opened PyText
  import opened JsonValue
  import opened PyDict

  /** The result of scanning from a position: the value and the position just
      after it, or a decode error. */
  datatype Scan<+T> = Fail | Ok(value: T, next: nat)

  /** The four characters the scanner skips between tokens. */
  predicate IsJsonWs(c: CodePoint) {
    c == 0x20 || c == 0x09 || c == 0x0A || c == 0x0D
  }

  /** Only the ASCII digits: the C scanner does not accept other Unicode digits. */
  predicate IsDigit(c: CodePoint) {
    '0' as int <= c <= '9' as int
  }

  predicate IsHexDigit(c: CodePoint) {
    IsDigit(c) || 'a' as int <= c <= 'f' as int || 'A' as int <= c <= 'F' as int
  }

  function HexDigitValue(c: CodePoint): (d: int)
    requires IsHexDigit(c)
    ensures 0 <= d < 16
  {
    if IsDigit(c) then c - '0' as int
    else if 'a' as int <= c <= 'f' as int then c - 'a' as int + 10
    else c - 'A' as int + 10
  }

  function SkipWs(s: PyStr, i: nat): (j: nat)
    requires i <= |s|
    ensures i <= j <= |s|
    ensures forall k :: i <= k < j ==> IsJsonWs(s[k])
    ensures j < |s| ==> !IsJsonWs(s[j])
    decreases |s| - i
  {
    if i < |s| && IsJsonWs(s[i]) then SkipWs(s, i + 1) else i
  }

  function SkipDigits(s: PyStr, i: nat): (j: nat)
    requires i <= |s|
    ensures i <= j <= |s|
    ensures forall k :: i <= k < j ==> IsDigit(s[k])
    ensures j < |s| ==> !IsDigit(s[j])
    decreases |s| - i
  {
    if i < |s| && IsDigit(s[i]) then SkipDigits(s, i + 1) else i
  }

  /** `s` spells the literal `lit` from position `i` on. */
  predicate HasAt(s: PyStr, i: nat, lit: string) {
    i + |lit| <= |s| && forall k :: 0 <= k < |lit| ==> s[i + k] == lit[k] as int
  }

  // ---------------------------------------------------------------------
  // Numbers: -?(0|[1-9][0-9]*)(\.[0-9]+)?([eE][-+]?[0-9]+)?
  // ---------------------------------------------------------------------

  /** The end of the number starting at `i`, or `None` when no number starts
      there. A number starts with a digit, or with `-` and a digit. */
  function ScanNumber(s: PyStr, i: nat): (r: Option<nat>)
    requires i < |s|
    ensures r.Some? ==> i < r.value <= |s|
    ensures r.Some? ==>
              if s[i] == '-' as int then i + 1 < r.value && IsDigit(s[i + 1]) else IsDigit(s[i])
  {
    var j := if s[i] == '-' as int then i + 1 else i;
    match IntegerEnd(s, j)
    case None => None
    case Some(k) => Some(ExponentEnd(s, FractionEnd(s, k)))
  }

  /** The end of the integer part starting at `j`: `0` alone, or a non-zero
      digit and the digits after it. */
  function IntegerEnd(s: PyStr, j: nat): (r: Option<nat>)
    ensures r.Some? ==> j < r.value <= |s| && IsDigit(s[j])
  {
    if j >= |s| then None
    else if '1' as int <= s[j] <= '9' as int then Some(SkipDigits(s, j + 1))
    else if s[j] == '0' as int then Some(j + 1)
    else None
  }

  /** A fraction is read only when `.` is followed by a digit. */
  function FractionEnd(s: PyStr, k: nat): (f: nat)
    requires k <= |s|
    ensures k <= f <= |s|
  {
    if k + 1 < |s| && s[k] == '.' as int && IsDigit(s[k + 1]) then SkipDigits(s, k + 2) else k
  }

  /** An exponent is read only when it has at least one digit; otherwise the
      scanner backtracks to before the `e`. */
  function ExponentEnd(s: PyStr, f: nat): (x: nat)
    requires f <= |s|
    ensures f <= x <= |s|
  {
    if f + 1 < |s| && (s[f] == 'e' as int || s[f] == 'E' as int) then
      var g := if f + 2 < |s| && (s[f + 1] == '-' as int || s[f + 1] == '+' as int) then f + 2 else f + 1;
      var h := SkipDigits(s, g);
      if IsDigit(s[h - 1]) then h else f
    else f
  }

  // ---------------------------------------------------------------------
  // Strings
  // ---------------------------------------------------------------------

  /** One decoded unit of a string literal. A `\uXXXX` escape is kept apart
      because only two such escapes in a row can form a surrogate pair. */
  datatype StrUnit = Plain(c: CodePoint) | UEscape(c: CodePoint)

  function SimpleEscape(e: CodePoint): (r: Option<CodePoint>) {
    if e == '"' as int || e == '\\' as int || e == '/' as int then Some(e)
    else if e == 'b' as int then Some(0x08)
    else if e == 'f' as int then Some(0x0C)
    else if e == 'n' as int then Some(0x0A)
    else if e == 'r' as int then Some(0x0D)
    else if e == 't' as int then Some(0x09)
    else None
  }

  predicate IsHex4At(s: PyStr, p: nat) {
    p + 4 <= |s| && IsHexDigit(s[p]) && IsHexDigit(s[p + 1]) && IsHexDigit(s[p + 2]) && IsHexDigit(s[p + 3])
  }

  function Hex4Value(s: PyStr, p: nat): (v: int)
    requires IsHex4At(s, p)
    ensures 0 <= v < 0x1_0000
  {
    HexDigitValue(s[p]) * 0x1000 + HexDigitValue(s[p + 1]) * 0x100
    + HexDigitValue(s[p + 2]) * 0x10 + HexDigitValue(s[p + 3])
  }

  function Prepend<T>(x: T, rest: Scan<seq<T>>): (r: Scan<seq<T>>) {
    match rest
    case Fail => Fail
    case Ok(xs, n) => Ok([x] + xs, n)
  }

  /** The body of a string literal from position `j` (just after the opening
      quote) up to and including the closing quote. Raw control characters
      (below U+0020) are refused, as the decoder's default strict mode does. */
  function ScanUnits(s: PyStr, j: nat): (r: Scan<seq<StrUnit>>)
    requires j <= |s|
    ensures r.Ok? ==> j < r.next <= |s| && s[r.next - 1] == '"' as int
    decreases |s| - j
  {
    if j == |s| then Fail
    else if s[j] == '"' as int then Ok([], j + 1)
    else if s[j] == '\\' as int then
      if j + 1 == |s| then Fail
      else if s[j + 1] == 'u' as int then
        if j + 6 < |s| && IsHex4At(s, j + 2) then Prepend(UEscape(Hex4Value(s, j + 2)), ScanUnits(s, j + 6))
        else Fail
      else
        match SimpleEscape(s[j + 1])
        case None => Fail
        case Some(c) => Prepend(Plain(c), ScanUnits(s, j + 2))
    else if s[j] < 0x20 then Fail
    else Prepend(Plain(s[j]), ScanUnits(s, j + 1))
  }

  predicate IsHighEscape(u: StrUnit) { u.UEscape? && 0xD800 <= u.c <= 0xDBFF }
  predicate IsLowEscape(u: StrUnit) { u.UEscape? && 0xDC00 <= u.c <= 0xDFFF }

  /** A high-surrogate escape immediately followed by a low-surrogate escape
      stands for one supplementary code point; any other surrogate escape is
      kept as a lone surrogate. */
  function JoinSurrogates(us: seq<StrUnit>): (r: PyStr)
    ensures |r| <= |us|
    decreases |us|
  {
    if us == [] then []
    else if |us| >= 2 && IsHighEscape(us[0]) && IsLowEscape(us[1]) then
      [0x1_0000 + (us[0].c - 0xD800) * 0x400 + (us[1].c - 0xDC00)] + JoinSurrogates(us[2..])
    else
      [us[0].c] + JoinSurrogates(us[1..])
  }

  function ParseString(s: PyStr, j: nat): (r: Scan<PyStr>)
    requires j <= |s|
    ensures r.Ok? ==> j < r.next <= |s|
  {
    match ScanUnits(s, j)
    case Fail => Fail
    case Ok(us, n) => Ok(JoinSurrogates(us), n)
  }

  // ---------------------------------------------------------------------
  // Values, arrays and objects
  // ---------------------------------------------------------------------

  /** `scan_once(s, i)`: one JSON value starting exactly at `i` (no leading
      whitespace is skipped). The first character decides the kind: `[` gives
      an array and `{` an object, and nothing else does. */
  function ParseValue(s: PyStr, i: nat): (r: Scan<Json>)
    requires i <= |s|
    ensures r.Ok? ==> i < r.next <= |s|
    ensures r.Ok? ==> (r.value.JArray? <==> s[i] == '[' as int)
    ensures r.Ok? ==> (r.value.JObject? <==> s[i] == '{' as int)
    decreases |s| - i, 0
  {
    if i == |s| then Fail
    else if s[i] == '"' as int then
      match ParseString(s, i + 1)
      case Fail => Fail
      case Ok(t, n) => Ok(JString(t), n)
    else if s[i] == '{' as int then ParseObject(s, i + 1)
    else if s[i] == '[' as int then ParseArray(s, i + 1)
    else ParseLiteral(s, i)
  }

  /** The constants and the numbers. */
  function ParseLiteral(s: PyStr, i: nat): (r: Scan<Json>)
    requires i < |s|
    ensures r.Ok? ==> i < r.next <= |s| && (r.value.JNull? || r.value.JBool? || r.value.JNumber?)
  {
    if HasAt(s, i, "null") then Ok(JNull, i + 4)
    else if HasAt(s, i, "true") then Ok(JBool(true), i + 4)
    else if HasAt(s, i, "false") then Ok(JBool(false), i + 5)
    else if HasAt(s, i, "NaN") then Ok(JNumber(Cp("NaN")), i + 3)
    else if HasAt(s, i, "Infinity") then Ok(JNumber(Cp("Infinity")), i + 8)
    else if HasAt(s, i, "-Infinity") then Ok(JNumber(Cp("-Infinity")), i + 9)
    else
      match ScanNumber(s, i)
      case None => Fail
      case Some(e) => Ok(JNumber(s[i..e]), e)
  }

  /** An array from just after its `[`. */
  function ParseArray(s: PyStr, i: nat): (r: Scan<Json>)
    requires i <= |s|
    ensures r.Ok? ==> i < r.next <= |s| && r.value.JArray?
    decreases |s| - i, 2
  {
    var j := SkipWs(s, i);
    if j < |s| && s[j] == ']' as int then Ok(JArray([]), j + 1)
    else
      match ParseElements(s, j)
      case Fail => Fail
      case Ok(items, n) => Ok(JArray(items), n)
  }

  /** The elements of a non-empty array, up to and including its `]`. */
  function ParseElements(s: PyStr, j: nat): (r: Scan<seq<Json>>)
    requires j <= |s|
    ensures r.Ok? ==> j < r.next <= |s|
    decreases |s| - j, 1
  {
    match ParseValue(s, j)
    case Fail => Fail
    case Ok(v, k) =>
      var k1 := SkipWs(s, k);
      if k1 < |s| && s[k1] == ']' as int then Ok([v], k1 + 1)
      else if k1 < |s| && s[k1] == ',' as int then
        match ParseElements(s, SkipWs(s, k1 + 1))
        case Fail => Fail
        case Ok(rest, n) => Ok([v] + rest, n)
      else Fail
  }

  /** An object from just after its `{`. */
  function ParseObject(s: PyStr, i: nat): (r: Scan<Json>)
    requires i <= |s|
    ensures r.Ok? ==> i < r.next <= |s| && r.value.JObject?
    decreases |s| - i, 4
  {
    var j := SkipWs(s, i);
    if j < |s| && s[j] == '}' as int then Ok(JObject([]), j + 1)
    else
      match ParseMembers(s, j)
      case Fail => Fail
      case Ok(pairs, n) => Ok(JObject(FromPairs(pairs)), n)
  }

  /** The key-value pairs of a non-empty object, in the order written, up to
      and including its `}`. A key must be a string. The object itself is the
      dict built from these pairs. */
  function ParseMembers(s: PyStr, j: nat): (r: Scan<seq<(PyStr, Json)>>)
    requires j <= |s|
    ensures r.Ok? ==> j < r.next <= |s|
    decreases |s| - j, 3
  {
    if j == |s| || s[j] != '"' as int then Fail
    else
      match ParseString(s, j + 1)
      case Fail => Fail
      case Ok(key, k) => ParseMemberValue(s, key, k)
  }

  /** After a key: the `:`, then the value. */
  function ParseMemberValue(s: PyStr, key: PyStr, k: nat): (r: Scan<seq<(PyStr, Json)>>)
    requires k <= |s|
    ensures r.Ok? ==> k < r.next <= |s|
    decreases |s| - k, 2
  {
    var k1 := SkipWs(s, k);
    if k1 == |s| || s[k1] != ':' as int then Fail
    else ParseValueOf(s, key, SkipWs(s, k1 + 1))
  }

  /** The value of the member with key `key`, from position `p`. */
  function ParseValueOf(s: PyStr, key: PyStr, p: nat): (r: Scan<seq<(PyStr, Json)>>)
    requires p <= |s|
    ensures r.Ok? ==> p < r.next <= |s|
    decreases |s| - p, 1
  {
    match ParseValue(s, p)
    case Fail => Fail
    case Ok(v, k2) => ParseMemberEnd(s, (key, v), k2)
  }

  /** After a member: `}`, or `,` and the next member (a trailing comma is an
      error). */
  function ParseMemberEnd(s: PyStr, member: (PyStr, Json), k2: nat): (r: Scan<seq<(PyStr, Json)>>)
    requires k2 <= |s|
    ensures r.Ok? ==> k2 < r.next <= |s|
    decreases |s| - k2, 0
  {
    var k3 := SkipWs(s, k2);
    if k3 < |s| && s[k3] == '}' as int then Ok([member], k3 + 1)
    else if k3 < |s| && s[k3] == ',' as int then
      match ParseMembers(s, SkipWs(s, k3 + 1))
      case Fail => Fail
      case Ok(rest, n) => Ok([member] + rest, n)
    else Fail
  }

  /** `JSONDecoder().raw_decode(s)`: the value at the very start of `s` and
      where it ends; whatever follows is not looked at. */
  function RawDecode(s: PyStr): (r: Scan<Json>)
    ensures r.Ok? ==> 0 < r.next <= |s|
    ensures r.Ok? ==> (r.value.JArray? <==> s[0] == '[' as int) && (r.value.JObject? <==> s[0] == '{' as int)
  {
    ParseValue(s, 0)
  }

  /** `json.loads(s)`: a byte-order mark is refused, whitespace may surround
      the value, and nothing else may follow it. */
  function Loads(s: PyStr): (r: Option<Json>)
    ensures r.Some? ==> exists e :: 0 < e <= |s| && ParseValue(s, SkipWs(s, 0)) == Ok(r.value, e)
                                   && SkipWs(s, e) == |s|
  {
    if |s| > 0 && s[0] == 0xFEFF then None
    else
      match ParseValue(s, SkipWs(s, 0))
      case Fail => None
      case Ok(v, e) => if SkipWs(s, e) == |s| then Some(v) else None
  }

  // ---------------------------------------------------------------------
  // Prefix determinacy: a successful scan depends only on the text it read
  // ---------------------------------------------------------------------

  /** `s` and `u` hold the same code points below position `n`. */
  predicate Agree(s: PyStr, u: PyStr, n: nat) {
    n <= |s| && n <= |u| && forall k {:trigger s[k], u[k]} :: 0 <= k < n ==> s[k] == u[k]
  }

  /** The code point at `e` cannot continue a number that ends there. */
  predicate EndsNumber(s: PyStr, e: nat) {
    e < |s| && !IsDigit(s[e]) && s[e] != '.' as int && s[e] != 'e' as int && s[e] != 'E' as int
  }

  lemma AgreeShorter(s: PyStr, u: PyStr, n: nat, m: nat)
    requires Agree(s, u, n) && m <= n
    ensures Agree(s, u, m)
  {
  }

  lemma {:induction false} SkipWsAgree(s: PyStr, u: PyStr, i: nat)
    requires i <= |s| && SkipWs(s, i) < |s| && Agree(s, u, SkipWs(s, i) + 1)
    ensures SkipWs(u, i) == SkipWs(s, i)
    decreases |s| - i
  {
    if IsJsonWs(s[i]) {
      SkipWsAgree(s, u, i + 1);
    }
  }

  lemma {:induction false} SkipDigitsAgree(s: PyStr, u: PyStr, i: nat)
    requires i <= |s| && SkipDigits(s, i) < |s| && Agree(s, u, SkipDigits(s, i) + 1)
    ensures SkipDigits(u, i) == SkipDigits(s, i)
    decreases |s| - i
  {
    if IsDigit(s[i]) {
      SkipDigitsAgree(s, u, i + 1);
    }
  }

  lemma ExponentAgree(s: PyStr, u: PyStr, f: nat)
    requires f <= |s| && EndsNumber(s, ExponentEnd(s, f)) && Agree(s, u, ExponentEnd(s, f) + 1)
    ensures ExponentEnd(u, f) == ExponentEnd(s, f)
  {
    var e := ExponentEnd(s, f);
    if e > f {
      assert f + 2 < |s|;
      var g := if f + 2 < |s| && (s[f + 1] == '-' as int || s[f + 1] == '+' as int) then f + 2 else f + 1;
      SkipDigitsAgree(s, u, g);
    } else {
      assert s[f] == u[f];
    }
  }

  lemma FractionAgree(s: PyStr, u: PyStr, k: nat)
    requires k <= |s|
    requires EndsNumber(s, ExponentEnd(s, FractionEnd(s, k)))
    requires Agree(s, u, ExponentEnd(s, FractionEnd(s, k)) + 1)
    ensures FractionEnd(u, k) == FractionEnd(s, k)
  {
    var f := FractionEnd(s, k);
    if f > k {
      SkipDigitsAgree(s, u, k + 2);
    } else {
      assert s[k] != '.' as int;
      assert s[k] == u[k];
    }
  }

  /** A number that is followed by a code point that cannot extend it reads
      nothing beyond that code point. */
  lemma NumberAgree(s: PyStr, u: PyStr, i: nat)
    requires i < |s| && ScanNumber(s, i).Some?
    requires EndsNumber(s, ScanNumber(s, i).value) && Agree(s, u, ScanNumber(s, i).value + 1)
    ensures ScanNumber(u, i) == ScanNumber(s, i)
  {
    var e := ScanNumber(s, i).value;
    var j := if s[i] == '-' as int then i + 1 else i;
    var k := IntegerEnd(s, j).value;
    assert e == ExponentEnd(s, FractionEnd(s, k));
    assert u[i] == s[i];
    AgreeShorter(s, u, e + 1, k + 1);
    IntegerAgree(s, u, j);
    FractionAgree(s, u, k);
    ExponentAgree(s, u, FractionEnd(s, k));
  }

  lemma IntegerAgree(s: PyStr, u: PyStr, j: nat)
    requires IntegerEnd(s, j).Some? && IntegerEnd(s, j).value < |s|
    requires Agree(s, u, IntegerEnd(s, j).value + 1)
    ensures IntegerEnd(u, j) == IntegerEnd(s, j)
  {
    assert u[j] == s[j];
    if '1' as int <= s[j] <= '9' as int {
      SkipDigitsAgree(s, u, j + 1);
    }
  }

  lemma {:induction false} UnitsAgree(s: PyStr, u: PyStr, j: nat)
    requires j <= |s| && ScanUnits(s, j).Ok? && Agree(s, u, ScanUnits(s, j).next)
    ensures ScanUnits(u, j) == ScanUnits(s, j)
    decreases |s| - j
  {
    assert s[j] == u[j];
    if s[j] == '\\' as int {
      assert s[j + 1] == u[j + 1];
      if s[j + 1] == 'u' as int {
        assert s[j + 2] == u[j + 2] && s[j + 3] == u[j + 3] && s[j + 4] == u[j + 4] && s[j + 5] == u[j + 5];
        UnitsAgree(s, u, j + 6);
      } else {
        UnitsAgree(s, u, j + 2);
      }
    } else if s[j] != '"' as int {
      UnitsAgree(s, u, j + 1);
    }
  }

  lemma HasAtAgree(s: PyStr, u: PyStr, i: nat, lit: string, n: nat)
    requires HasAt(s, i, lit) && Agree(s, u, n) && i + |lit| <= n
    ensures HasAt(u, i, lit)
  {
  }

  /** A literal is recognised by its first two code points. */
  lemma LiteralHead(s: PyStr, i: nat, lit: string)
    requires i < |s| && |lit| >= 2
    ensures HasAt(s, i, lit) ==> s[i] == lit[0] as int && i + 1 < |s| && s[i + 1] == lit[1] as int
  {
    if HasAt(s, i, lit) {
      assert s[i + 0] == lit[0] as int;
      assert s[i + 1] == lit[1] as int;
    }
  }

  /** Prefix determinacy of `scan_once`: a value that scans successfully from
      `i` to `e` in `s` scans the same way in any text `u` that agrees with
      `s` below `e` (and, when the value is a number, also at `e`, whose code
      point must then be one that cannot extend the number). */
  lemma {:induction false} ValueAgree(s: PyStr, u: PyStr, i: nat)
    requires i <= |s| && ParseValue(s, i).Ok?
    requires Agree(s, u, ParseValue(s, i).next)
    requires ParseValue(s, i).value.JNumber? ==>
               EndsNumber(s, ParseValue(s, i).next) && Agree(s, u, ParseValue(s, i).next + 1)
    ensures ParseValue(u, i) == ParseValue(s, i)
    decreases |s| - i, 0
  {
    assert s[i] == u[i];
    if s[i] == '"' as int {
      UnitsAgree(s, u, i + 1);
    } else if s[i] == '{' as int {
      ObjectAgree(s, u, i + 1);
    } else if s[i] == '[' as int {
      ArrayAgree(s, u, i + 1);
    } else {
      LiteralAgree(s, u, i);
    }
  }

  lemma LiteralAgree(s: PyStr, u: PyStr, i: nat)
    requires i < |s| && ParseLiteral(s, i).Ok?
    requires Agree(s, u, ParseLiteral(s, i).next)
    requires ParseLiteral(s, i).value.JNumber? ==>
               EndsNumber(s, ParseLiteral(s, i).next) && Agree(s, u, ParseLiteral(s, i).next + 1)
    ensures ParseLiteral(u, i) == ParseLiteral(s, i)
  {
    var e := ParseLiteral(s, i).next;
    assert u[i] == s[i];
    LiteralHead(u, i, "null");
    LiteralHead(u, i, "true");
    LiteralHead(u, i, "false");
    LiteralHead(u, i, "NaN");
    LiteralHead(u, i, "Infinity");
    if HasAt(s, i, "null") {
      HasAtAgree(s, u, i, "null", e);
    } else if HasAt(s, i, "true") {
      HasAtAgree(s, u, i, "true", e);
    } else if HasAt(s, i, "false") {
      HasAtAgree(s, u, i, "false", e);
    } else if HasAt(s, i, "NaN") {
      HasAtAgree(s, u, i, "NaN", e);
    } else if HasAt(s, i, "Infinity") {
      HasAtAgree(s, u, i, "Infinity", e);
    } else if HasAt(s, i, "-Infinity") {
      HasAtAgree(s, u, i, "-Infinity", e);
    } else {
      NumberAgree(s, u, i);
      NotLiteralAgree(s, u, i);
      assert s[i..e] == u[i..e];
    }
  }

  /** Where a number starts, no constant does. */
  lemma NotLiteralAgree(s: PyStr, u: PyStr, i: nat)
    requires i < |s| && ScanNumber(s, i).Some? && Agree(s, u, ScanNumber(s, i).value)
    ensures !HasAt(u, i, "null") && !HasAt(u, i, "true") && !HasAt(u, i, "false")
    ensures !HasAt(u, i, "NaN") && !HasAt(u, i, "Infinity") && !HasAt(u, i, "-Infinity")
  {
    assert u[i] == s[i];
    assert IsDigit(u[i]) || u[i] == '-' as int;
    LiteralHead(u, i, "null");
    LiteralHead(u, i, "true");
    LiteralHead(u, i, "false");
    LiteralHead(u, i, "NaN");
    LiteralHead(u, i, "Infinity");
    LiteralHead(u, i, "-Infinity");
    assert u[i] == '-' as int ==> IsDigit(u[i + 1]) by {
      if u[i] == '-' as int { assert u[i + 1] == s[i + 1]; }
    }
  }

  lemma {:induction false} ArrayAgree(s: PyStr, u: PyStr, i: nat)
    requires i <= |s| && ParseArray(s, i).Ok? && Agree(s, u, ParseArray(s, i).next)
    ensures ParseArray(u, i) == ParseArray(s, i)
    decreases |s| - i, 2
  {
    var j := SkipWs(s, i);
    if j < |s| && s[j] == ']' as int {
      SkipWsAgree(s, u, i);
    } else {
      assert ParseElements(s, j).Ok?;
      SkipWsAgree(s, u, i);
      ElementsAgree(s, u, j);
    }
  }

  lemma {:induction false} ElementsAgree(s: PyStr, u: PyStr, j: nat)
    requires j <= |s| && ParseElements(s, j).Ok? && Agree(s, u, ParseElements(s, j).next)
    ensures ParseElements(u, j) == ParseElements(s, j)
    decreases |s| - j, 1
  {
    var k := ParseValue(s, j).next;
    var k1 := SkipWs(s, k);
    assert k1 < |s| && (s[k1] == ']' as int || s[k1] == ',' as int);
    assert EndsNumber(s, k) by {
      if k < k1 { assert IsJsonWs(s[k]); }
    }
    ValueAgree(s, u, j);
    SkipWsAgree(s, u, k);
    assert u[k1] == s[k1];
    if s[k1] == ',' as int {
      var j2 := SkipWs(s, k1 + 1);
      assert ParseElements(s, j2).Ok?;
      SkipWsAgree(s, u, k1 + 1);
      ElementsAgree(s, u, j2);
    }
  }

  lemma {:induction false} ObjectAgree(s: PyStr, u: PyStr, i: nat)
    requires i <= |s| && ParseObject(s, i).Ok? && Agree(s, u, ParseObject(s, i).next)
    ensures ParseObject(u, i) == ParseObject(s, i)
    decreases |s| - i, 4
  {
    var j := SkipWs(s, i);
    if j < |s| && s[j] == '}' as int {
      SkipWsAgree(s, u, i);
    } else {
      assert ParseMembers(s, j).Ok?;
      SkipWsAgree(s, u, i);
      MembersAgree(s, u, j);
    }
  }

  lemma {:induction false} MembersAgree(s: PyStr, u: PyStr, j: nat)
    requires j <= |s| && ParseMembers(s, j).Ok? && Agree(s, u, ParseMembers(s, j).next)
    ensures ParseMembers(u, j) == ParseMembers(s, j)
    decreases |s| - j, 3
  {
    assert s[j] == u[j];
    var key := ParseString(s, j + 1).value;
    var k := ParseString(s, j + 1).next;
    UnitsAgree(s, u, j + 1);
    MemberValueAgree(s, u, key, k);
  }

  lemma {:induction false} MemberValueAgree(s: PyStr, u: PyStr, key: PyStr, k: nat)
    requires k <= |s| && ParseMemberValue(s, key, k).Ok? && Agree(s, u, ParseMemberValue(s, key, k).next)
    ensures ParseMemberValue(u, key, k) == ParseMemberValue(s, key, k)
    decreases |s| - k, 2
  {
    var n := ParseMemberValue(s, key, k).next;
    var k1 := SkipWs(s, k);
    var p := SkipWs(s, k1 + 1);
    assert ParseValueOf(s, key, p).next == n && p < n;
    AgreeShorter(s, u, n, k1 + 1);
    SkipWsAgree(s, u, k);
    assert u[k1] == s[k1];
    AgreeShorter(s, u, n, p + 1);
    SkipWsAgree(s, u, k1 + 1);
    ValueOfAgree(s, u, key, p);
  }

  lemma {:induction false} ValueOfAgree(s: PyStr, u: PyStr, key: PyStr, p: nat)
    requires p <= |s| && ParseValueOf(s, key, p).Ok? && Agree(s, u, ParseValueOf(s, key, p).next)
    ensures ParseValueOf(u, key, p) == ParseValueOf(s, key, p)
    decreases |s| - p, 1
  {
    var v := ParseValue(s, p).value;
    var k2 := ParseValue(s, p).next;
    MemberEndAgree(s, u, (key, v), k2);
    var k3 := SkipWs(s, k2);
    assert EndsNumber(s, k2) by {
      if k2 < k3 { assert IsJsonWs(s[k2]); }
    }
    ValueAgree(s, u, p);
  }

  lemma {:induction false} MemberEndAgree(s: PyStr, u: PyStr, member: (PyStr, Json), k2: nat)
    requires k2 <= |s| && ParseMemberEnd(s, member, k2).Ok? && Agree(s, u, ParseMemberEnd(s, member, k2).next)
    ensures ParseMemberEnd(u, member, k2) == ParseMemberEnd(s, member, k2)
    ensures SkipWs(s, k2) < ParseMemberEnd(s, member, k2).next
    ensures s[SkipWs(s, k2)] == '}' as int || s[SkipWs(s, k2)] == ',' as int
    decreases |s| - k2, 0
  {
    var k3 := SkipWs(s, k2);
    SkipWsAgree(s, u, k2);
    assert u[k3] == s[k3];
    if s[k3] == ',' as int {
      var j2 := SkipWs(s, k3 + 1);
      assert ParseMembers(s, j2).Ok?;
      SkipWsAgree(s, u, k3 + 1);
      MembersAgree(s, u, j2);
    }
  }
}
