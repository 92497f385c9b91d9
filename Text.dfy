/** Character-level behaviour the validator relies on: removing surrounding
    white space, recognising a decimal digit character and reading its value.
    Strings are sequences of characters. */
module Text {

  /** The characters that String.Trim removes: the Unicode space, line and
      paragraph separators, the control characters U+0009..U+000D and U+0085. */
  const WhiteSpace: set<char> := {
    '\t', '\n', '\U{000B}', '\U{000C}', '\r', ' ', '\U{0085}', '\U{00A0}', '\U{1680}',
    '\U{2000}', '\U{2001}', '\U{2002}', '\U{2003}', '\U{2004}', '\U{2005}', '\U{2006}',
    '\U{2007}', '\U{2008}', '\U{2009}', '\U{200A}', '\U{2028}', '\U{2029}', '\U{202F}',
    '\U{205F}', '\U{3000}'
  }

  predicate IsWhiteSpace(c: char) {
    c in WhiteSpace
  }

  /** Drops leading white space: the result is a suffix of `s`, everything
      dropped is white space, and the result does not start with white space. */
  function TrimStart(s: string): (r: string)
    ensures |r| <= |s|
    ensures forall i :: 0 <= i < |r| ==> r[i] == s[|s| - |r| + i]
    ensures forall i :: 0 <= i < |s| - |r| ==> IsWhiteSpace(s[i])
    ensures r != [] ==> !IsWhiteSpace(r[0])
  {
    if s != [] && IsWhiteSpace(s[0]) then
      var r := TrimStart(s[1..]);
      assert forall i :: 1 <= i < |s| - |r| ==> s[i] == s[1..][i - 1];
      r
    else s
  }

  /** Drops trailing white space: the result is a prefix of `s`, everything
      dropped is white space, and the result does not end with white space. */
  function TrimEnd(s: string): (r: string)
    ensures |r| <= |s| && r == s[..|r|]
    ensures forall i :: |r| <= i < |s| ==> IsWhiteSpace(s[i])
    ensures r != [] ==> !IsWhiteSpace(r[|r| - 1])
  {
    if s != [] && IsWhiteSpace(s[|s| - 1]) then TrimEnd(s[..|s| - 1]) else s
  }

  /** String.Trim: drops white space at both ends; what is left neither starts
      nor ends with white space. */
  function Trim(s: string): (r: string)
    ensures |r| <= |s|
    ensures r != [] ==> !IsWhiteSpace(r[0]) && !IsWhiteSpace(r[|r| - 1])
  {
    TrimEnd(TrimStart(s))
  }

  /** Trim keeps one contiguous run of `s` and removes only white space
      around it. */
  lemma TrimIsInfix(s: string)
    ensures exists a, b ::
      && 0 <= a <= b <= |s| && Trim(s) == s[a..b]
      && (forall i :: 0 <= i < a ==> IsWhiteSpace(s[i]))
      && (forall i :: b <= i < |s| ==> IsWhiteSpace(s[i]))
  {
    var t := TrimStart(s);
    var a := |s| - |t|;
    var b := a + |Trim(s)|;
    assert t == s[a..];
    assert Trim(s) == s[a..b];
    forall i | b <= i < |s| ensures IsWhiteSpace(s[i]) {
      assert s[i] == t[i - a];
    }
  }

  /** Trimming a second time changes nothing. */
  lemma TrimIdempotent(s: string)
    ensures Trim(Trim(s)) == Trim(s)
  {
    var r := Trim(s);
    if r != [] {
      assert TrimStart(r) == r;
      assert TrimEnd(r) == r;
    }
  }

  /** A string with white space at neither end is its own trimming. */
  lemma TrimUnchanged(s: string)
    requires s != [] ==> !IsWhiteSpace(s[0]) && !IsWhiteSpace(s[|s| - 1])
    ensures Trim(s) == s
  {
  }

  /** char.IsDigit, restricted to the ASCII digits '0'..'9'. */
  predicate IsDigit(c: char) {
    '0' <= c <= '9'
  }

  /** No digit is white space, so trimming never removes a digit. */
  lemma DigitIsNotWhiteSpace(c: char)
    requires IsDigit(c)
    ensures !IsWhiteSpace(c)
  {
  }

  /** `s.All(char.IsDigit)`. */
  predicate AllDigits(s: string) {
    forall i :: 0 <= i < |s| ==> IsDigit(s[i])
  }

  /** int.Parse of a one-character digit string. */
  function DigitValue(c: char): (v: int)
    requires IsDigit(c)
    ensures 0 <= v <= 9
  {
    c as int - '0' as int
  }

  /** The character that spells the digit `v`: the inverse of DigitValue. */
  function DigitChar(v: int): (c: char)
    requires 0 <= v <= 9
    ensures IsDigit(c) && DigitValue(c) == v
  {
    ('0' as int + v) as char
  }

  lemma DigitCharOfValue(c: char)
    requires IsDigit(c)
    ensures DigitChar(DigitValue(c)) == c
  {
  }

  /** Every element of `d` is a decimal digit value. */
  predicate AreDigits(d: seq<int>) {
    forall i :: 0 <= i < |d| ==> 0 <= d[i] <= 9
  }

  /** The digit values of a string of digits, in order: the list built by
      adding the value of each character in turn. */
  function DigitsOf(s: string): (d: seq<int>)
    requires AllDigits(s)
    ensures |d| == |s| && AreDigits(d)
  {
    if s == [] then [] else DigitsOf(s[..|s| - 1]) + [DigitValue(s[|s| - 1])]
  }

  /** Position `i` of the digit list is the value of character `i`: nothing is
      dropped or reordered, so leading zeros are kept. */
  lemma {:induction false} DigitsOfAt(s: string, i: int)
    requires AllDigits(s) && 0 <= i < |s|
    ensures DigitsOf(s)[i] == DigitValue(s[i])
  {
    if i < |s| - 1 {
      DigitsOfAt(s[..|s| - 1], i);
    }
  }

  /** The string that spells a list of digit values. */
  function Render(d: seq<int>): (s: string)
    requires AreDigits(d)
    ensures |s| == |d| && AllDigits(s)
  {
    if d == [] then [] else Render(d[..|d| - 1]) + [DigitChar(d[|d| - 1])]
  }

  /** Reading back a rendered digit list gives the list. */
  lemma {:induction false} DigitsOfRender(d: seq<int>)
    requires AreDigits(d)
    ensures DigitsOf(Render(d)) == d
  {
    if d != [] {
      var s := Render(d);
      assert s[..|s| - 1] == Render(d[..|d| - 1]);
      DigitsOfRender(d[..|d| - 1]);
    }
  }

  /** Rendering the digit list of a digit string gives the string back. */
  lemma {:induction false} RenderDigitsOf(s: string)
    requires AllDigits(s)
    ensures Render(DigitsOf(s)) == s
  {
    if s != [] {
      var d := DigitsOf(s);
      assert d[..|d| - 1] == DigitsOf(s[..|s| - 1]);
      RenderDigitsOf(s[..|s| - 1]);
      DigitCharOfValue(s[|s| - 1]);
    }
  }
}
