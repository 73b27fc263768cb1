/**
 The series-title parser (`SeriesNameAdaptor`). It runs the pattern
 `^(.+) \(([\d]{4}).*\)` with `Matcher.find()` and returns groups 1 and 2,
 or the whole title and an empty start year when the pattern does not match.

 The matcher below follows the backtracking order of `java.util.regex`:
 the greedy `(.+)` first takes every character up to the first line
 terminator and then gives characters back one at a time, so the split
 chosen is the rightmost one after which the rest of the pattern matches.
 Because the pattern starts with `^`, `find()` can only succeed at index 0.
 */
module SeriesName {
  import opened Common

  /** `SeriesNameAdaptor.SeriesDetail`. */
  datatype SeriesDetail = SeriesDetail(name: string, startYear: string)

  /** `.*\)` can match starting at `j`: some `)` at or after `j` is reached
      through characters that `.` accepts. */
  predicate ClosesFrom(t: string, j: int)
    requires 0 <= j <= |t|
  {
    exists m :: j <= m < |t| && t[m] == ')' && DotsOnly(t, j, m)
  }

  /** The whole pattern matches with group 1 equal to `t[..i]`. */
  predicate SplitsAt(t: string, i: int) {
    && 1 <= i && i + 6 <= |t|
    && DotsOnly(t, 0, i)
    && t[i] == ' ' && t[i + 1] == '('
    && (forall k :: i + 2 <= k < i + 6 ==> IsDigit(t[k]))
    && ClosesFrom(t, i + 6)
  }

  /** How far a greedy `.*` can reach into `s`: up to the first line
      terminator or the end of the input. */
  function DotRun(s: string): (n: nat)
    ensures n <= |s| && DotsOnly(s, 0, n)
    ensures n < |s| ==> IsLineTerminator(s[n])
  {
    if |s| == 0 || IsLineTerminator(s[0]) then 0
    else
      var n := 1 + DotRun(s[1..]);
      assert forall k :: 1 <= k < n ==> s[k] == s[1..][k - 1];
      n
  }

  /** Backtracking of `.*\)` from its longest extent `n`: give back one
      character at a time until the next one is `)`. */
  function CloseWithin(t: string, j: int, n: nat): (b: bool)
    requires 0 <= j && j + n <= |t|
    ensures b <==> exists m :: j <= m < j + n && t[m] == ')'
  {
    if n == 0 then false
    else if t[j + n - 1] == ')' then true
    else CloseWithin(t, j, n - 1)
  }

  /** A greedy `.*` reaches every position up to a character `.` accepts. */
  lemma {:induction false} DotRunReaches(s: string, m: int)
    requires 0 <= m < |s| && DotsOnly(s, 0, m + 1)
    ensures m < DotRun(s)
  {
    if 0 < m {
      assert DotsOnly(s[1..], 0, m) by {
        forall k | 0 <= k < m ensures !IsLineTerminator(s[1..][k]) {
          assert s[1..][k] == s[k + 1];
        }
      }
      DotRunReaches(s[1..], m - 1);
    }
  }

  /** Everything after group 1: ` \(`, four digits, then `.*\)`. */
  function Tail(t: string, i: nat): (b: bool)
    requires 1 <= i <= DotRun(t)
    ensures b <==> SplitsAt(t, i)
  {
    if i + 6 <= |t| && t[i] == ' ' && t[i + 1] == '(' && IsDigit(t[i + 2]) && IsDigit(t[i + 3])
      && IsDigit(t[i + 4]) && IsDigit(t[i + 5])
    then
      var rest := t[i + 6..];
      var run := DotRun(rest);
      var b := CloseWithin(t, i + 6, run);
      assert DotsOnly(t, 0, i);
      assert b <==> ClosesFrom(t, i + 6) by {
        if b {
          var m :| i + 6 <= m < i + 6 + run && t[m] == ')';
          forall k | i + 6 <= k < m ensures !IsLineTerminator(t[k]) {
            assert t[k] == rest[k - i - 6];
          }
        }
        if ClosesFrom(t, i + 6) {
          var m :| i + 6 <= m < |t| && t[m] == ')' && DotsOnly(t, i + 6, m);
          assert DotsOnly(rest, 0, m - i - 6 + 1) by {
            forall k | 0 <= k < m - i - 6 + 1 ensures !IsLineTerminator(rest[k]) {
              assert rest[k] == t[k + i + 6];
            }
          }
          DotRunReaches(rest, m - i - 6);
        }
      }
      b
    else
      false
  }

  /** Greedy `(.+)`: try group 1 lengths from `i` down to 1. */
  function Backtrack(t: string, i: nat): (r: Option<nat>)
    requires i <= DotRun(t)
    ensures r.Some? ==> 1 <= r.value <= i && SplitsAt(t, r.value)
    ensures r.Some? ==> forall k :: r.value < k <= i ==> !SplitsAt(t, k)
    ensures r.None? <==> forall k :: k <= i ==> !SplitsAt(t, k)
  {
    if i < 1 then None
    else if Tail(t, i) then Some(i)
    else Backtrack(t, i - 1)
  }

  /** Group 1 cannot reach past the first line terminator. */
  lemma SplitWithinFirstLine(t: string, i: int)
    requires SplitsAt(t, i)
    ensures i <= DotRun(t)
  {
    DotRunReaches(t, i - 1);
  }

  /** `SeriesNameAdaptor.execute`. On a match the title begins with
      name + " (" + startYear, where name is non-empty, untrimmed and the
      longest group 1 that lets the rest match, and startYear is the first
      four digits inside the parentheses. Otherwise the title comes back
      unchanged with an empty start year. */
  function Execute(title: string): (d: SeriesDetail)
    ensures d.startYear == "" <==> forall i :: !SplitsAt(title, i)
    ensures d.startYear == "" ==> d.name == title
    ensures d.startYear != "" ==>
      && SplitsAt(title, |d.name|)
      && title[..|d.name| + 6] == d.name + " (" + d.startYear
      && (forall i :: |d.name| < i ==> !SplitsAt(title, i))
    ensures d.startYear == "" || (|d.startYear| == 4 && forall k :: 0 <= k < 4 ==> IsDigit(d.startYear[k]))
  {
    match Backtrack(title, DotRun(title))
    case None =>
      assert forall i :: !SplitsAt(title, i) by {
        forall i | SplitsAt(title, i) ensures false {
          SplitWithinFirstLine(title, i);
        }
      }
      SeriesDetail(title, "")
    case Some(i) =>
      var d := SeriesDetail(title[..i], title[i + 2..i + 6]);
      assert forall k :: i < k ==> !SplitsAt(title, k) by {
        forall k | i < k && SplitsAt(title, k) ensures false {
          SplitWithinFirstLine(title, k);
        }
      }
      assert title[..i + 6] == d.name + " (" + d.startYear;
      d
  }

  /** No character of `s` is a line terminator. */
  lemma LineFree(s: string, lo: int, hi: int)
    requires 0 <= lo <= hi <= |s|
    requires forall c :: c in s ==> !IsLineTerminator(c)
    ensures DotsOnly(s, lo, hi)
  {
    assert forall k :: lo <= k < hi ==> s[k] in s;
  }

  /** A title with no `(` at all never matches. */
  lemma {:induction false} NoParenthesisNoSplit(t: string)
    requires '(' !in t
    ensures forall i :: !SplitsAt(t, i)
    ensures Execute(t) == SeriesDetail(t, "")
  {
    forall j | 0 <= j < |t| ensures t[j] != '(' {
      assert t[j] in t;
    }
  }

  /** Nor does a title with no `)`. */
  lemma {:induction false} NoClosingNoSplit(t: string)
    requires ')' !in t
    ensures forall i :: !SplitsAt(t, i)
    ensures Execute(t) == SeriesDetail(t, "")
  {
    forall m | 0 <= m < |t| ensures t[m] != ')' {
      assert t[m] in t;
    }
  }

  /** Past the composed split there is no other: the four year characters
      are digits and the closing part has no `(`. */
  lemma {:induction false} NoSplitPast(name: string, year: string, rest: string)
    requires |year| == 4 && forall k :: 0 <= k < 4 ==> IsDigit(year[k])
    requires '(' !in rest
    ensures forall i :: |name| < i ==> !SplitsAt(name + " (" + year + rest, i)
  {
    var t := name + " (" + year + rest;
    var n := |name|;
    forall j | n + 1 < j < |t| ensures t[j] != '(' {
      if j < n + 6 {
        assert t[j] == year[j - n - 2];
      } else {
        assert t[j] == rest[j - n - 6];
        assert rest[j - n - 6] in rest;
      }
    }
  }

  /** Composing a title from a non-empty single-line name, a four-digit year
      and a closing part that has a `)` on the same line and opens no
      further parenthesis, then parsing it, gives back the name and the
      year. The name itself may contain earlier " (dddd)" groups: the
      rightmost split is the composed one. */
  lemma {:induction false} ComposeThenParse(title: string, name: string, year: string, rest: string, close: nat)
    requires title == name + " (" + year + rest
    requires |name| >= 1 && DotsOnly(name, 0, |name|)
    requires |year| == 4 && forall k :: 0 <= k < 4 ==> IsDigit(year[k])
    requires close < |rest| && rest[close] == ')' && DotsOnly(rest, 0, close)
    requires '(' !in rest
    ensures Execute(title) == SeriesDetail(name, year)
  {
    var n := |name|;
    assert title[n + 6 + close] == ')' && DotsOnly(title, n + 6, n + 6 + close);
    assert DotsOnly(title, 0, n);
    assert SplitsAt(title, n);
    NoSplitPast(name, year, rest);
    var d := Execute(title);
    assert |d.name| == n;
    assert d.name == title[..n] == name;
    assert d.startYear == title[n + 2..n + 6] == year;
  }

  /** "Spider-Woman (2009)" parses to ("Spider-Woman", "2009"). */
  lemma StartYearOnly()
    ensures Execute("Spider-Woman (2009)") == SeriesDetail("Spider-Woman", "2009")
  {
    LineFree("Spider-Woman", 0, 12);
    assert IsDigit("2009"[0]) && IsDigit("2009"[1]) && IsDigit("2009"[2]) && IsDigit("2009"[3]);
    ComposeThenParse("Spider-Woman (2009)", "Spider-Woman", "2009", ")", 0);
  }

  /** "Spider-Woman (2009 - 2014)" parses to ("Spider-Woman", "2009"). */
  lemma StartAndEndYears()
    ensures Execute("Spider-Woman (2009 - 2014)") == SeriesDetail("Spider-Woman", "2009")
  {
    LineFree("Spider-Woman", 0, 12);
    LineFree(" - 2014)", 0, 7);
    assert IsDigit("2009"[0]) && IsDigit("2009"[1]) && IsDigit("2009"[2]) && IsDigit("2009"[3]);
    ComposeThenParse("Spider-Woman (2009 - 2014)", "Spider-Woman", "2009", " - 2014)", 7);
  }

  /** A five-digit number still yields only the first four digits: the
      fifth is absorbed by `.*`. */
  lemma FirstFourDigitsOnly()
    ensures Execute("Spider-Woman (20091)") == SeriesDetail("Spider-Woman", "2009")
  {
    LineFree("Spider-Woman", 0, 12);
    LineFree("1)", 0, 1);
    assert IsDigit("2009"[0]) && IsDigit("2009"[1]) && IsDigit("2009"[2]) && IsDigit("2009"[3]);
    ComposeThenParse("Spider-Woman (20091)", "Spider-Woman", "2009", "1)", 1);
  }

  /** `find()` does not need the match to reach the end of the title. */
  lemma TextAfterParenthesis()
    ensures Execute("Spider-Woman (2009) Annual") == SeriesDetail("Spider-Woman", "2009")
  {
    LineFree("Spider-Woman", 0, 12);
    assert IsDigit("2009"[0]) && IsDigit("2009"[1]) && IsDigit("2009"[2]) && IsDigit("2009"[3]);
    ComposeThenParse("Spider-Woman (2009) Annual", "Spider-Woman", "2009", ") Annual", 0);
  }

  /** With two candidate groups the later one supplies the year and the
      earlier one stays in the name. */
  lemma RightmostSplitWins()
    ensures Execute("X-Men (1963) Classic (1986)") == SeriesDetail("X-Men (1963) Classic", "1986")
  {
    LineFree("X-Men (1963) Classic", 0, 20);
    assert IsDigit("1986"[0]) && IsDigit("1986"[1]) && IsDigit("1986"[2]) && IsDigit("1986"[3]);
    ComposeThenParse("X-Men (1963) Classic (1986)", "X-Men (1963) Classic", "1986", ")", 0);
  }

  /** The name is not trimmed: a doubled space before the parenthesis stays
      at the end of the name. */
  lemma NameNotTrimmed()
    ensures Execute("Spider-Woman  (2009)") == SeriesDetail("Spider-Woman ", "2009")
  {
    LineFree("Spider-Woman ", 0, 13);
    assert IsDigit("2009"[0]) && IsDigit("2009"[1]) && IsDigit("2009"[2]) && IsDigit("2009"[3]);
    ComposeThenParse("Spider-Woman  (2009)", "Spider-Woman ", "2009", ")", 0);
  }

  /** A title without any " (" falls back to itself and an empty year. */
  lemma NoMatchFallsBack()
    ensures Execute("Spider-Woman Spider-Woman") == SeriesDetail("Spider-Woman Spider-Woman", "")
  {
    NoParenthesisNoSplit("Spider-Woman Spider-Woman");
  }

  /** Without a closing parenthesis after the digits there is no match. */
  lemma UnclosedFallsBack()
    ensures Execute("X-Men" + " (1963") == SeriesDetail("X-Men" + " (1963", "")
  {
    NoClosingNoSplit("X-Men" + " (1963");
  }

  /** `.` does not cross a line break, so a name spanning two lines is not
      split. */
  lemma LineBreakDefeatsMatch()
    ensures Execute("Spider\nWoman (2009)") == SeriesDetail("Spider\nWoman (2009)", "")
  {
    var t := "Spider\nWoman (2009)";
    assert IsLineTerminator(t[6]);
    forall j | 0 <= j < 8 ensures t[j] != '(' {
      assert t[j] in t[..8];
    }
  }
}
