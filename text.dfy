/** The three Python string operations that clean_lyrics relies on, over
    seq<char>: stripping whitespace from both ends (str.strip with no
    argument), splitting into lines (str.splitlines with no argument) and
    joining lines with "\n" between them. */
module Text {

  /** Python's str.isspace() for one character: general category Zs, or
      bidirectional class WS, B or S. This is the set str.strip() removes. */
  predicate IsSpace(c: char) {
    || c == '\t' || c == '\n' || c == '\U{0B}' || c == '\U{0C}' || c == '\r'
    || ('\U{1C}' <= c <= '\U{1F}')
    || c == ' ' || c == '\U{85}' || c == '\U{A0}' || c == '\U{1680}'
    || ('\U{2000}' <= c <= '\U{200A}')
    || c == '\U{2028}' || c == '\U{2029}' || c == '\U{202F}' || c == '\U{205F}'
    || c == '\U{3000}'
  }

  /** The line boundaries of str.splitlines(). The pair "\r\n" is one
      boundary; SplitLines handles it. Every boundary is whitespace. */
  predicate IsLineBreak(c: char)
    ensures IsLineBreak(c) ==> IsSpace(c)
  {
    || c == '\n' || c == '\r' || c == '\U{0B}' || c == '\U{0C}'
    || ('\U{1C}' <= c <= '\U{1E}')
    || c == '\U{85}' || c == '\U{2028}' || c == '\U{2029}'
  }

  predicate AllSpace(s: seq<char>) {
    forall i | 0 <= i < |s| :: IsSpace(s[i])
  }

  predicate NoLineBreak(s: seq<char>) {
    forall i | 0 <= i < |s| :: !IsLineBreak(s[i])
  }

  /** Neither end of s is whitespace. */
  predicate IsStripped(s: seq<char>) {
    s == [] || (!IsSpace(s[0]) && !IsSpace(s[|s| - 1]))
  }

  /** A text whose only line boundaries are single "\n" separators between
      two non-whitespace characters, and which neither starts nor ends with
      whitespace: what "\n".join gives for non-empty stripped lines. */
  predicate TidyText(r: seq<char>) {
    && IsStripped(r)
    && forall i | 0 <= i < |r| && IsLineBreak(r[i]) ::
         r[i] == '\n' && 0 < i < |r| - 1 && !IsSpace(r[i - 1]) && !IsSpace(r[i + 1])
  }

  /** Number of whitespace characters at the front of s. */
  function LeadingSpace(s: seq<char>): (n: nat)
    ensures n <= |s| && AllSpace(s[..n])
    ensures n < |s| ==> !IsSpace(s[n])
  {
    if s == [] || !IsSpace(s[0]) then 0
    else
      var n := 1 + LeadingSpace(s[1..]);
      assert forall i | 1 <= i < n :: s[..n][i] == s[1..][..n - 1][i - 1];
      n
  }

  /** Number of whitespace characters at the back of s. */
  function TrailingSpace(s: seq<char>): (n: nat)
    ensures n <= |s| && AllSpace(s[|s| - n..])
    ensures n < |s| ==> !IsSpace(s[|s| - 1 - n])
  {
    if s == [] || !IsSpace(s[|s| - 1]) then 0
    else
      var front := s[..|s| - 1];
      var n := 1 + TrailingSpace(front);
      var back, frontBack := s[|s| - n..], front[|front| - (n - 1)..];
      assert back == frontBack + [s[|s| - 1]];
      AllSpaceAppend(frontBack, [s[|s| - 1]]);
      assert n < |s| ==> s[|s| - 1 - n] == front[|front| - 1 - (n - 1)];
      n
  }

  /** str.strip(): the slice of s left after removing whitespace from both
      ends. */
  function Strip(s: seq<char>): (r: seq<char>)
    ensures IsStripped(r)
    ensures r == [] <==> AllSpace(s)
  {
    var i := LeadingSpace(s);
    if i == |s| then
      assert s[..i] == s && s[0..0] == [] && s[..0] == [] && s[0..] == s;
      []
    else
      var n := TrailingSpace(s);
      assert |s| - n > i by {
        assert forall k | |s| - n <= k < |s| :: s[|s| - n..][k - (|s| - n)] == s[k];
      }
      assert !AllSpace(s) by { assert !IsSpace(s[i]); }
      s[i..|s| - n]
  }

  /** Index of the first line boundary of s, or |s| when there is none. */
  function LineEnd(s: seq<char>): (k: nat)
    ensures k <= |s| && NoLineBreak(s[..k])
    ensures k < |s| ==> IsLineBreak(s[k])
  {
    if s == [] || IsLineBreak(s[0]) then 0
    else
      var k := 1 + LineEnd(s[1..]);
      assert forall i | 1 <= i < k :: s[..k][i] == s[1..][..k - 1][i - 1];
      k
  }

  /** Length of the line boundary that starts at k: 2 for "\r\n", else 1. */
  function BoundaryLength(s: seq<char>, k: nat): (n: nat)
    requires k < |s|
    ensures 1 <= n <= 2 && n <= |s| - k
    ensures n == 2 <==> k + 1 < |s| && s[k] == '\r' && s[k + 1] == '\n'
  {
    if s[k] == '\r' && k + 1 < |s| && s[k + 1] == '\n' then 2 else 1
  }

  /** str.splitlines(): the lines of s without their boundaries. "\r\n"
      ends one line; a boundary at the very end does not start a new line,
      so "" has no lines and "a\n" has one. */
  function SplitLines(s: seq<char>): (r: seq<seq<char>>)
    ensures forall k | 0 <= k < |r| :: NoLineBreak(r[k])
    ensures r == [] <==> s == []
    decreases |s|
  {
    if s == [] then []
    else
      var k := LineEnd(s);
      if k == |s| then
        assert s[..k] == s;
        [s]
      else
        [s[..k]] + SplitLines(s[k + BoundaryLength(s, k)..])
  }

  /** LineEnd finds exactly the end of a boundary-free prefix. */
  lemma {:induction false} LineEndExact(a: seq<char>, t: seq<char>)
    requires NoLineBreak(a) && (t == [] || IsLineBreak(t[0]))
    ensures LineEnd(a + t) == |a|
  {
    if a != [] {
      assert (a + t)[0] == a[0] && (a + t)[1..] == a[1..] + t;
      LineEndExact(a[1..], t);
    } else {
      assert a + t == t;
    }
  }

  /** A line without boundaries splits into itself, or into no line at all
      when it is empty. */
  lemma SplitLinesLast(a: seq<char>)
    requires NoLineBreak(a)
    ensures SplitLines(a) == if a == [] then [] else [a]
  {
    if a != [] {
      LineEndExact(a, []);
      assert a + [] == a;
    }
  }

  /** A line followed by one boundary, "\r\n" taken as a single boundary,
      splits off as the first line, and splitting goes on after the boundary:
      so "\r\n" never yields an empty line of its own, and a boundary at the
      very end adds no line. */
  lemma SplitLinesBreak(a: seq<char>, br: seq<char>, b: seq<char>)
    requires NoLineBreak(a)
    requires br == "\r\n" || (|br| == 1 && IsLineBreak(br[0]) && !(br[0] == '\r' && b != [] && b[0] == '\n'))
    ensures SplitLines(a + br + b) == [a] + SplitLines(b)
  {
    var s := a + br + b;
    var k := |a|;
    assert s == a + (br + b) && (br + b)[0] == br[0];
    LineEndExact(a, br + b);
    assert s[..k] == a;
    if br == "\r\n" {
      assert s[k + 1] == '\n';
      assert BoundaryLength(s, k) == 2;
    } else {
      assert k + 1 < |s| ==> s[k + 1] == b[0];
      assert BoundaryLength(s, k) == 1;
    }
    assert s[k + |br|..] == b;
  }

  /** The lines put together with one "\n" between each two of them. */
  function Join(lines: seq<seq<char>>): seq<char> {
    if |lines| == 0 then []
    else if |lines| == 1 then lines[0]
    else lines[0] + ['\n'] + Join(lines[1..])
  }

  /** LeadingSpace counts exactly the whitespace prefix. */
  lemma {:induction false} LeadingSpaceExact(a: seq<char>, t: seq<char>)
    requires AllSpace(a) && (t == [] || !IsSpace(t[0]))
    ensures LeadingSpace(a + t) == |a|
  {
    if a != [] {
      assert (a + t)[0] == a[0] && (a + t)[1..] == a[1..] + t;
      LeadingSpaceExact(a[1..], t);
    } else {
      assert a + t == t;
    }
  }

  /** TrailingSpace counts exactly the whitespace suffix. */
  lemma {:induction false} TrailingSpaceExact(t: seq<char>, b: seq<char>)
    requires AllSpace(b) && (t == [] || !IsSpace(t[|t| - 1]))
    ensures TrailingSpace(t + b) == |b|
  {
    var x := t + b;
    if b != [] {
      assert x[|x| - 1] == b[|b| - 1];
      assert x[..|x| - 1] == t + b[..|b| - 1];
      TrailingSpaceExact(t, b[..|b| - 1]);
    } else {
      assert x == t;
    }
  }

  /** Strip is determined by what it removes: whitespace on both sides of a
      stripped middle part. */
  lemma StripExact(a: seq<char>, w: seq<char>, b: seq<char>)
    requires AllSpace(a) && AllSpace(b) && IsStripped(w)
    ensures Strip(a + w + b) == w
  {
    var x := a + w + b;
    if w == [] {
      assert forall k | 0 <= k < |x| :: x[k] == if k < |a| then a[k] else b[k - |a|];
      assert AllSpace(x);
    } else {
      assert x == a + (w + b) && x == (a + w) + b;
      LeadingSpaceExact(a, w + b);
      TrailingSpaceExact(a + w, b);
      assert !IsSpace(x[|a|]);
      assert x[|a|..|x| - |b|] == w;
    }
  }

  /** Strip keeps a contiguous part of its input and removes only
      whitespace around it. */
  lemma StripSlice(s: seq<char>) returns (i: nat, j: nat)
    ensures i <= j <= |s| && Strip(s) == s[i..j]
    ensures AllSpace(s[..i]) && AllSpace(s[j..])
  {
    i := LeadingSpace(s);
    if i == |s| {
      i, j := 0, 0;
      assert s[..0] == [] && s[0..] == s;
    } else {
      j := |s| - TrailingSpace(s);
    }
  }

  /** Stripping leaves a stripped text unchanged. */
  lemma StripStripped(w: seq<char>)
    requires IsStripped(w)
    ensures Strip(w) == w
  {
    StripExact([], w, []);
    assert [] + w + [] == w;
  }

  /** Strip changes exactly the texts that are not stripped, so
      str.strip() is idempotent. */
  lemma StripIdempotent(s: seq<char>)
    ensures Strip(s) == s <==> IsStripped(s)
    ensures Strip(Strip(s)) == Strip(s)
  {
    StripStripped(Strip(s));
    if IsStripped(s) {
      StripStripped(s);
    }
  }

  /** Strip keeps a contiguous part of its input, so it adds no line boundary. */
  lemma StripNoLineBreak(s: seq<char>)
    requires NoLineBreak(s)
    ensures NoLineBreak(Strip(s))
  {
    var i, j := StripSlice(s);
    assert forall k | 0 <= k < j - i :: s[i..j][k] == s[i + k];
  }

  /** Every line of lines is whitespace only. */
  predicate AllBlank(lines: seq<seq<char>>) {
    forall k | 0 <= k < |lines| :: AllSpace(lines[k])
  }

  lemma AllSpaceAppend(x: seq<char>, y: seq<char>)
    ensures AllSpace(x + y) <==> AllSpace(x) && AllSpace(y)
  {
    assert forall m | 0 <= m < |x| :: (x + y)[m] == x[m];
    assert forall m | 0 <= m < |y| :: (x + y)[|x| + m] == y[m];
  }

  lemma AllBlankCons(line: seq<char>, lines: seq<seq<char>>)
    ensures AllBlank([line] + lines) <==> AllSpace(line) && AllBlank(lines)
  {
    assert ([line] + lines)[0] == line;
    assert forall m | 0 <= m < |lines| :: ([line] + lines)[m + 1] == lines[m];
  }

  /** The boundary SplitLines skips at k is whitespace. */
  lemma BoundarySpace(s: seq<char>, k: nat)
    requires k < |s| && IsLineBreak(s[k])
    ensures AllSpace(s[k..k + BoundaryLength(s, k)])
  {
    assert IsSpace(s[k]);
    if BoundaryLength(s, k) == 2 {
      assert s[k..k + 2] == [s[k], s[k + 1]];
    } else {
      assert s[k..k + 1] == [s[k]];
    }
  }

  /** Splitting off the first line and its boundary keeps whitespace-only
      status: the boundary is whitespace itself. */
  lemma AllSpaceLineStep(s: seq<char>, k: nat)
    requires k < |s| && IsLineBreak(s[k])
    ensures AllSpace(s) <==> AllSpace(s[..k]) && AllSpace(s[k + BoundaryLength(s, k)..])
  {
    var next := k + BoundaryLength(s, k);
    var line, brk, rest := s[..k], s[k..next], s[next..];
    BoundarySpace(s, k);
    assert s == line + (brk + rest);
    AllSpaceAppend(line, brk + rest);
    AllSpaceAppend(brk, rest);
  }

  /** A text is whitespace only exactly when each of its lines is: the
      boundaries SplitLines drops are whitespace themselves. */
  lemma {:induction false} AllSpaceSplitLines(s: seq<char>)
    ensures AllSpace(s) <==> AllBlank(SplitLines(s))
    decreases |s|
  {
    if s != [] {
      var k := LineEnd(s);
      if k == |s| {
        assert SplitLines(s) == [s] + [];
        AllBlankCons(s, []);
      } else {
        var rest := s[k + BoundaryLength(s, k)..];
        AllSpaceSplitLines(rest);
        assert SplitLines(s) == [s[..k]] + SplitLines(rest);
        AllBlankCons(s[..k], SplitLines(rest));
        AllSpaceLineStep(s, k);
      }
    }
  }

  /** Joining lines without boundaries, the last one non-empty, and
      splitting the result again gives the lines back. */
  lemma {:induction false} SplitLinesJoin(lines: seq<seq<char>>)
    requires forall k | 0 <= k < |lines| :: NoLineBreak(lines[k])
    requires lines == [] || lines[|lines| - 1] != []
    ensures SplitLines(Join(lines)) == lines
  {
    if |lines| == 1 {
      var s := lines[0];
      assert LineEnd(s) == |s|;
    } else if |lines| >= 2 {
      var l0 := lines[0];
      var tail := Join(lines[1..]);
      var s := l0 + ['\n'] + tail;
      assert Join(lines) == s;
      assert forall m | 0 <= m < |l0| :: s[m] == l0[m];
      assert s[|l0|] == '\n';
      assert LineEnd(s) == |l0|;
      assert s[..|l0|] == l0;
      assert s[|l0| + 1..] == tail;
      SplitLinesJoin(lines[1..]);
      assert SplitLines(s) == [l0] + lines[1..];
      assert [l0] + lines[1..] == lines;
    }
  }

  /** A stripped line without boundaries is tidy on its own. */
  lemma LineTidy(l: seq<char>)
    requires IsStripped(l) && NoLineBreak(l)
    ensures TidyText(l)
  {
  }

  /** Putting a "\n" between a non-empty stripped line and a non-empty tidy
      text keeps it tidy. */
  lemma SeparatorTidy(l: seq<char>, tail: seq<char>)
    requires l != [] && IsStripped(l) && NoLineBreak(l)
    requires tail != [] && TidyText(tail)
    ensures TidyText(l + ['\n'] + tail)
  {
    var r := l + ['\n'] + tail;
    var n := |l|;
    assert forall m | 0 <= m < n :: r[m] == l[m];
    assert forall m | 0 <= m < |tail| :: r[n + 1 + m] == tail[m];
    assert r[n] == '\n' && r[n - 1] == l[n - 1] && r[n + 1] == tail[0];
    assert r[0] == l[0] && r[|r| - 1] == tail[|tail| - 1];
    assert IsStripped(r);
    forall i | 0 <= i < |r| && IsLineBreak(r[i])
      ensures r[i] == '\n' && 0 < i < |r| - 1 && !IsSpace(r[i - 1]) && !IsSpace(r[i + 1])
    {
      if i > n {
        assert r[i] == tail[i - n - 1];
      }
    }
  }

  /** "\n".join of non-empty, stripped lines that hold no boundary is tidy:
      empty exactly when there are no lines, every line boundary in it is a
      "\n" separator, and nothing next to a separator is whitespace. */
  lemma {:induction false} JoinTidy(lines: seq<seq<char>>)
    requires forall k | 0 <= k < |lines| ::
               lines[k] != [] && IsStripped(lines[k]) && NoLineBreak(lines[k])
    ensures Join(lines) == [] <==> lines == []
    ensures TidyText(Join(lines))
  {
    if |lines| == 1 {
      LineTidy(lines[0]);
    } else if |lines| >= 2 {
      JoinTidy(lines[1..]);
      SeparatorTidy(lines[0], Join(lines[1..]));
    }
  }
}
