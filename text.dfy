/** Python text as the model sees it.

    A Python `str` is a sequence of Unicode code points. Unlike Dafny's `char`,
    a code point may be a lone surrogate (the JSON decoder produces one for an
    unpaired `\uD800` escape), so text is modelled as `seq<CodePoint>`.
 */
module PyText {

  type CodePoint = c: int | 0 <= c < 0x11_0000

  type PyStr = seq<CodePoint>

  /** The code points of a Dafny string literal. */
  function Cp(s: string): (r: PyStr)
    ensures |r| == |s|
    ensures forall i :: 0 <= i < |s| ==> r[i] == s[i] as int
  {
    seq(|s|, i requires 0 <= i < |s| => s[i] as int)
  }

  lemma CpConcat(a: string, b: string)
    ensures Cp(a + b) == Cp(a) + Cp(b)
  {
  }

  /** `str.isspace()` for one code point: the characters CPython classifies as
      whitespace (bidirectional class WS, B or S, or general category Zs). */
  predicate IsSpace(c: CodePoint) {
    || (0x09 <= c <= 0x0D)
    || (0x1C <= c <= 0x20)
    || c == 0x85 || c == 0xA0 || c == 0x1680
    || (0x2000 <= c <= 0x200A)
    || c == 0x2028 || c == 0x2029 || c == 0x202F || c == 0x205F || c == 0x3000
  }

  predicate AllSpace(s: PyStr) {
    forall i :: 0 <= i < |s| ==> IsSpace(s[i])
  }

  /** `str.lstrip()`: drops the leading whitespace and nothing else. */
  function LStrip(s: PyStr): (r: PyStr)
    ensures |r| <= |s| && r == s[|s| - |r|..]
    ensures AllSpace(s[..|s| - |r|])
    ensures r != [] ==> !IsSpace(r[0])
    ensures r == [] <==> AllSpace(s)
    decreases |s|
  {
    if s != [] && IsSpace(s[0]) then
      var r := LStrip(s[1..]);
      AllSpaceCons(s);
      assert s[1..][|s| - 1 - |r|..] == s[|s| - |r|..];
      var dropped := s[..|s| - |r|];
      assert AllSpace(dropped) by {
        forall i | 0 < i < |dropped|
          ensures IsSpace(dropped[i])
        {
          assert dropped[i] == s[1..][..|s| - 1 - |r|][i - 1];
        }
      }
      r
    else
      s
  }

  lemma AllSpaceAppend(x: PyStr, c: CodePoint)
    requires AllSpace(x) && IsSpace(c)
    ensures AllSpace(x + [c])
  {
    assert forall i :: 0 <= i < |x| ==> (x + [c])[i] == x[i];
  }

  /** `str.rstrip()`: drops the trailing whitespace and nothing else. */
  function RStrip(s: PyStr): (r: PyStr)
    ensures |r| <= |s| && r == s[..|r|]
    ensures AllSpace(s[|r|..])
    ensures r != [] ==> !IsSpace(r[|r| - 1])
    decreases |s|
  {
    if s != [] && IsSpace(s[|s| - 1]) then
      var r := RStrip(s[..|s| - 1]);
      assert s[|r|..] == s[..|s| - 1][|r|..] + [s[|s| - 1]];
      AllSpaceAppend(s[..|s| - 1][|r|..], s[|s| - 1]);
      r
    else
      s
  }

  /** `str.strip()`: the slice of `s` between its leading and its trailing
      whitespace. */
  function Strip(s: PyStr): (r: PyStr)
    ensures |r| <= |s|
    ensures r != [] ==> !IsSpace(r[0]) && !IsSpace(r[|r| - 1])
    ensures AllSpace(s) <==> r == []
  {
    var l := LStrip(s);
    var r := RStrip(l);
    assert AllSpace(s) ==> l == [] by {
      if l != [] { assert l[0] == s[|s| - |l|]; }
    }
    assert r == [] ==> l == [] by {
      if r == [] { assert l[|r|..] == l; }
    }
    r
  }

  /** `r` is `s` with a run of leading and a run of trailing whitespace cut
      off: a slice of `s` with nothing but whitespace on either side. */
  predicate Trims(s: PyStr, r: PyStr) {
    exists a :: 0 <= a && a + |r| <= |s| && r == s[a..a + |r|]
                && AllSpace(s[..a]) && AllSpace(s[a + |r|..])
  }

  /** `strip` removes whitespace at both ends and nothing else. */
  lemma StripTrims(s: PyStr)
    ensures Trims(s, Strip(s))
  {
    var l := LStrip(s);
    TrimSlices(s, l, RStrip(l));
  }

  /** Trimming a suffix of `s`, then a prefix of what remains, leaves a slice
      of `s` between the two trimmed ends. */
  lemma TrimSlices(s: PyStr, l: PyStr, r: PyStr)
    requires |l| <= |s| && l == s[|s| - |l|..] && AllSpace(s[..|s| - |l|])
    requires |r| <= |l| && r == l[..|r|] && AllSpace(l[|r|..])
    ensures Trims(s, r)
  {
    var a := |s| - |l|;
    assert s[a..][..|r|] == s[a..a + |r|];
    assert s[a..][|r|..] == s[a + |r|..];
    assert a + |r| <= |s| && r == s[a..a + |r|] && AllSpace(s[..a]) && AllSpace(s[a + |r|..]);
  }

  /** Leading whitespace is all that `lstrip` looks at: once a non-space code
      point is reached, the rest of the text is kept as it is. */
  lemma {:induction false} LStripConcat(x: PyStr, y: PyStr)
    ensures LStrip(x + y) == if AllSpace(x) then LStrip(y) else LStrip(x) + y
    decreases |x|
  {
    if x == [] {
      assert x + y == y;
    } else if IsSpace(x[0]) {
      var xy := x + y;
      assert xy[0] == x[0];
      assert xy[1..] == x[1..] + y;
      assert LStrip(xy) == LStrip(x[1..] + y);
      LStripConcat(x[1..], y);
      AllSpaceCons(x);
    } else {
      assert (x + y)[0] == x[0];
    }
  }

  lemma AllSpaceCons(x: PyStr)
    requires x != [] && IsSpace(x[0])
    ensures AllSpace(x) <==> AllSpace(x[1..])
  {
    if AllSpace(x[1..]) {
      forall i | 0 <= i < |x| ensures IsSpace(x[i]) {
        if i > 0 { assert x[i] == x[1..][i - 1]; }
      }
    }
  }

  /** The line feed that separates the text from the action directive. */
  const Newline: PyStr := [0x0A]

  lemma NewlineIsSpace()
    ensures AllSpace(Newline)
  {
  }

  /** The prompt shape of `f"{text}\n{d}".strip()` when `d` is non-empty and
      begins and ends with a non-space code point: the leading whitespace of
      `text` is dropped, and an all-space `text` (the empty one included)
      contributes nothing, not even the newline. */
  lemma StripJoinedLine(text: PyStr, d: PyStr)
    requires d != [] && !IsSpace(d[0]) && !IsSpace(d[|d| - 1])
    ensures Strip(text + Newline + d)
         == if AllSpace(text) then d else LStrip(text) + Newline + d
  {
    if AllSpace(text) {
      StripBlankLine(text, d);
    } else {
      StripTextLine(text, d);
    }
  }

  lemma StripBlankLine(text: PyStr, d: PyStr)
    requires d != [] && !IsSpace(d[0]) && !IsSpace(d[|d| - 1])
    requires AllSpace(text)
    ensures Strip(text + Newline + d) == d
  {
    var tail := Newline + d;
    assert text + Newline + d == text + tail;
    LStripConcat(text, tail);
    assert LStrip(text + tail) == LStrip(tail);
    LStripConcat(Newline, d);
    NewlineIsSpace();
    assert LStrip(d) == d;
  }

  lemma StripTextLine(text: PyStr, d: PyStr)
    requires d != [] && !IsSpace(d[0]) && !IsSpace(d[|d| - 1])
    requires !AllSpace(text)
    ensures Strip(text + Newline + d) == LStrip(text) + Newline + d
  {
    LStripTextLine(text, d);
    RStripTextLine(text, d);
  }

  lemma LStripTextLine(text: PyStr, d: PyStr)
    requires !AllSpace(text)
    ensures LStrip(text + Newline + d) == LStrip(text) + Newline + d
  {
    var tail := Newline + d;
    assert text + Newline + d == text + tail;
    LStripConcat(text, tail);
    assert LStrip(text) + tail == LStrip(text) + Newline + d;
  }

  lemma RStripTextLine(text: PyStr, d: PyStr)
    requires d != [] && !IsSpace(d[|d| - 1])
    ensures RStrip(LStrip(text) + Newline + d) == LStrip(text) + Newline + d
  {
    var x := LStrip(text) + Newline + d;
    assert x[|x| - 1] == d[|d| - 1];
  }
}
