/**
 Shared vocabulary for the Marvel metadata model: an option type standing in
 for Java's `null`/`Optional`, the fixed-width integer ranges of `int` and
 `long`, the character classes that `StringUtils.isBlank` and
 `java.util.regex` use, and the "first element that satisfies a filter"
 search that `stream().filter(..).findFirst()` performs.
 */
module Common {

  /** `None` plays the role of Java's `null` / an empty `Optional`. */
  datatype Option<+T> = None | Some(value: T)

  const TwoTo31: int := 0x8000_0000
  const TwoTo32: int := 0x1_0000_0000

  /** Java `int`. */
  type Int32 = x: int | -0x8000_0000 <= x < 0x8000_0000

  /** Java `long`. */
  type Int64 = x: int | -0x8000_0000_0000_0000 <= x < 0x8000_0000_0000_0000

  /** Two's-complement wrap-around of Java `int` arithmetic. */
  function Wrap32(x: int): (r: Int32)
    ensures -TwoTo31 <= x < TwoTo31 ==> r == x
    ensures (x - r) % TwoTo32 == 0
  {
    (x + TwoTo31) % TwoTo32 - TwoTo31
  }

  /** `Character.isWhitespace`: the Unicode space, line and paragraph
      separators other than the three no-break spaces, plus the ASCII
      control characters HT, LF, VT, FF, CR and FS, GS, RS, US. */
  predicate IsWhitespace(c: char) {
    var n := c as int;
    || (0x09 <= n <= 0x0D)
    || (0x1C <= n <= 0x20)
    || n == 0x1680
    || (0x2000 <= n <= 0x2006)
    || (0x2008 <= n <= 0x200A)
    || n == 0x2028 || n == 0x2029
    || n == 0x205F || n == 0x3000
  }

  /** `StringUtils.isBlank`: empty or made only of whitespace. A Java `null`
      is blank too; the model represents it by the empty string. */
  predicate IsBlank(s: string) {
    forall i :: 0 <= i < |s| ==> IsWhitespace(s[i])
  }

  /** A string stays blank as it grows exactly while every added character
      is whitespace: the character-by-character scan of `isBlank`. */
  lemma {:induction false} BlankExtends(s: string, c: char)
    ensures IsBlank(s + [c]) <==> IsBlank(s) && IsWhitespace(c)
  {
    var t := s + [c];
    assert t[|s|] == c;
    assert forall i :: 0 <= i < |s| ==> t[i] == s[i];
  }

  /** The empty string is blank; spaces and the ASCII line and tab controls
      count as whitespace, while the three no-break spaces (U+00A0, U+2007,
      U+202F) do not, so a key made of them is not blank. */
  lemma BlankCases()
    ensures IsBlank("")
    ensures IsWhitespace(' ') && IsWhitespace('\t') && IsWhitespace('\n') && IsWhitespace('\r')
    ensures !IsWhitespace(0xA0 as char) && !IsWhitespace(0x2007 as char) && !IsWhitespace(0x202F as char)
    ensures !IsBlank([0xA0 as char])
  {
    assert [0xA0 as char][0] == 0xA0 as char;
  }

  /** The characters `java.util.regex` treats as line terminators, which the
      pattern `.` does not match. */
  predicate IsLineTerminator(c: char) {
    c == '\n' || c == '\r' || c as int == 0x85 || c as int == 0x2028 || c as int == 0x2029
  }

  /** No character of `s[lo..hi]` is a line terminator. */
  predicate DotsOnly(s: string, lo: int, hi: int)
    requires 0 <= lo <= hi <= |s|
  {
    forall k :: lo <= k < hi ==> !IsLineTerminator(s[k])
  }

  /** The regex class `\d` without UNICODE_CHARACTER_CLASS: `[0-9]`. */
  predicate IsDigit(c: char) {
    '0' <= c <= '9'
  }

  /** `s.startsWith(prefix)`. */
  predicate StartsWith(s: string, prefix: string) {
    |prefix| <= |s| && s[..|prefix|] == prefix
  }

  /** Index of the first element of `xs` that `p` accepts, the way
      `stream().filter(p).findFirst()` picks it. */
  function FindFirst<T>(xs: seq<T>, p: T -> bool): (r: Option<nat>)
    ensures r.Some? ==> r.value < |xs| && p(xs[r.value])
    ensures r.Some? ==> forall j :: 0 <= j < r.value ==> !p(xs[j])
    ensures r.None? <==> forall j :: 0 <= j < |xs| ==> !p(xs[j])
  {
    if |xs| == 0 then None
    else if p(xs[0]) then Some(0)
    else match FindFirst(xs[1..], p)
      case None => None
      case Some(i) => Some(i + 1)
  }
}
