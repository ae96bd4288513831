/** clean_lyrics: remove bracket tags, split into lines, strip every line,
    drop the lines that end up empty and join the rest with "\n". */
module Lyrics {
  import opened Text
  import opened Tags

  /** Every line stripped, keeping only the lines that are non-empty once
      stripped, in their order. */
  function CleanLines(lines: seq<seq<char>>): (r: seq<seq<char>>)
    ensures |r| <= |lines|
  {
    if lines == [] then []
    else
      var line := Strip(lines[0]);
      (if line == [] then [] else [line]) + CleanLines(lines[1..])
  }

  /** Every cleaned line is non-empty and stripped. */
  lemma {:induction false} CleanLinesStripped(lines: seq<seq<char>>)
    ensures forall k | 0 <= k < |CleanLines(lines)| ::
              CleanLines(lines)[k] != [] && IsStripped(CleanLines(lines)[k])
  {
    if lines != [] {
      CleanLinesStripped(lines[1..]);
    }
  }

  /** Each position shifted by one. */
  function Shift(idx: seq<nat>): (r: seq<nat>)
    ensures |r| == |idx| && forall k | 0 <= k < |idx| :: r[k] == idx[k] + 1
  {
    if idx == [] then [] else [idx[0] + 1] + Shift(idx[1..])
  }

  /** Every line stripped, none dropped. */
  function StripEach(lines: seq<seq<char>>): (r: seq<seq<char>>)
    ensures |r| == |lines| && forall k | 0 <= k < |lines| :: r[k] == Strip(lines[k])
  {
    if lines == [] then [] else [Strip(lines[0])] + StripEach(lines[1..])
  }

  /** The non-empty lines, in their order: the filter that, applied to the
      already stripped lines, keeps those that are non-empty once stripped
      (CleanLinesFilter). */
  function NonEmpty(lines: seq<seq<char>>): seq<seq<char>>
  {
    if lines == [] then []
    else (if lines[0] == [] then [] else [lines[0]]) + NonEmpty(lines[1..])
  }

  /** The positions of the non-empty lines, in increasing order
      (KeptOrdered) and all of them (KeptComplete). */
  function Kept(lines: seq<seq<char>>): (idx: seq<nat>)
    ensures forall k | 0 <= k < |idx| :: idx[k] < |lines| && lines[idx[k]] != []
  {
    if lines == [] then []
    else
      var tail := Kept(lines[1..]);
      assert forall k | 0 <= k < |tail| :: lines[tail[k] + 1] == lines[1..][tail[k]];
      if lines[0] == [] then Shift(tail) else [0] + Shift(tail)
  }

  lemma {:induction false} KeptOrdered(lines: seq<seq<char>>)
    ensures forall k, m | 0 <= k < m < |Kept(lines)| :: Kept(lines)[k] < Kept(lines)[m]
  {
    if lines != [] {
      KeptOrdered(lines[1..]);
    }
  }

  lemma {:induction false} KeptComplete(lines: seq<seq<char>>)
    ensures forall m | 0 <= m < |lines| && lines[m] != [] :: m in Kept(lines)
  {
    if lines != [] {
      KeptComplete(lines[1..]);
      var tail := Kept(lines[1..]);
      forall m | 0 < m < |lines| && lines[m] != [] ensures m in Shift(tail) {
        assert lines[1..][m - 1] == lines[m];
        var k :| 0 <= k < |tail| && tail[k] == m - 1;
        assert Shift(tail)[k] == m;
      }
      if lines[0] != [] {
        assert Kept(lines) == [0] + Shift(tail);
      }
    }
  }

  /** The filter keeps the lines at the kept positions, each once, in order. */
  lemma {:induction false} NonEmptyKept(lines: seq<seq<char>>)
    ensures |NonEmpty(lines)| == |Kept(lines)|
    ensures forall k | 0 <= k < |Kept(lines)| :: NonEmpty(lines)[k] == lines[Kept(lines)[k]]
  {
    if lines != [] {
      NonEmptyKept(lines[1..]);
      var tail, rest := Kept(lines[1..]), NonEmpty(lines[1..]);
      var shifted := Shift(tail);
      if lines[0] != [] {
        var ne, kept := [lines[0]] + rest, [0] + shifted;
        assert NonEmpty(lines) == ne && Kept(lines) == kept;
        forall k | 0 <= k < |kept| ensures ne[k] == lines[kept[k]] {
          if k > 0 {
            var j := tail[k - 1];
            assert ne[k] == rest[k - 1] == lines[1..][j] == lines[j + 1];
            assert kept[k] == shifted[k - 1] == j + 1;
          }
        }
      } else {
        assert NonEmpty(lines) == rest && Kept(lines) == shifted;
        forall k | 0 <= k < |shifted| ensures rest[k] == lines[shifted[k]] {
          var j := tail[k];
          assert rest[k] == lines[1..][j] == lines[j + 1];
          assert shifted[k] == j + 1;
        }
      }
    }
  }

  /** The comprehension is the filter applied to the stripped lines. */
  lemma {:induction false} CleanLinesFilter(lines: seq<seq<char>>)
    ensures CleanLines(lines) == NonEmpty(StripEach(lines))
  {
    if lines != [] {
      CleanLinesFilter(lines[1..]);
      assert StripEach(lines)[1..] == StripEach(lines[1..]);
    }
  }

  /** The cleaned lines are the stripped non-empty lines, each once, in
      their original order: the k-th cleaned line is the stripped line at the
      k-th position whose stripped line is not empty. */
  lemma CleanLinesKept(lines: seq<seq<char>>)
    ensures |CleanLines(lines)| == |Kept(StripEach(lines))|
    ensures forall k | 0 <= k < |CleanLines(lines)| ::
              CleanLines(lines)[k] == Strip(lines[Kept(StripEach(lines))[k]])
    ensures forall m | 0 <= m < |lines| :: Strip(lines[m]) != [] <==> m in Kept(StripEach(lines))
  {
    CleanLinesFilter(lines);
    NonEmptyKept(StripEach(lines));
    KeptComplete(StripEach(lines));
  }

  /** Lines that are already stripped and non-empty pass unchanged. */
  lemma {:induction false} CleanLinesFixed(lines: seq<seq<char>>)
    requires forall k | 0 <= k < |lines| :: lines[k] != [] && IsStripped(lines[k])
    ensures CleanLines(lines) == lines
  {
    if lines != [] {
      StripIdempotent(lines[0]);
      CleanLinesFixed(lines[1..]);
      assert [lines[0]] + lines[1..] == lines;
    }
  }

  /** When no line is blank, nothing is dropped and every line is stripped. */
  lemma {:induction false} CleanLinesNoBlank(lines: seq<seq<char>>)
    requires forall k | 0 <= k < |lines| :: !AllSpace(lines[k])
    ensures CleanLines(lines) == StripEach(lines)
  {
    if lines != [] {
      CleanLinesNoBlank(lines[1..]);
    }
  }

  /** Nothing survives exactly when every line is whitespace only. */
  lemma {:induction false} CleanLinesEmpty(lines: seq<seq<char>>)
    ensures CleanLines(lines) == [] <==> AllBlank(lines)
  {
    if lines != [] {
      CleanLinesEmpty(lines[1..]);
      AllBlankCons(lines[0], lines[1..]);
      assert [lines[0]] + lines[1..] == lines;
    }
  }

  /** Stripping keeps a contiguous part of a line, so a line without
      boundaries or tags stays so. */
  lemma StripKeepsLine(line: seq<char>)
    requires NoLineBreak(line) && NoTag(line)
    ensures NoLineBreak(Strip(line)) && NoTag(Strip(line))
  {
    StripNoLineBreak(line);
    var i, j := StripSlice(line);
    NoTagSlice(line, i, j);
  }

  /** Cleaning keeps lines free of boundaries and tags. */
  lemma {:induction false} CleanLinesKeep(lines: seq<seq<char>>)
    requires forall k | 0 <= k < |lines| :: NoLineBreak(lines[k]) && NoTag(lines[k])
    ensures forall k | 0 <= k < |CleanLines(lines)| ::
              NoLineBreak(CleanLines(lines)[k]) && NoTag(CleanLines(lines)[k])
  {
    if lines != [] {
      StripKeepsLine(lines[0]);
      CleanLinesKeep(lines[1..]);
    }
  }

  /** Each line of a tag-free text is tag-free. */
  lemma {:induction false} SplitLinesNoTag(t: seq<char>)
    requires NoTag(t)
    ensures forall k | 0 <= k < |SplitLines(t)| :: NoTag(SplitLines(t)[k])
    decreases |t|
  {
    if t != [] {
      var k := LineEnd(t);
      NoTagSlice(t, 0, k);
      assert t[0..k] == t[..k];
      if k < |t| {
        var next := k + BoundaryLength(t, k);
        NoTagSlice(t, next, |t|);
        assert t[next..|t|] == t[next..];
        SplitLinesNoTag(t[next..]);
      }
    }
  }

  /** "\n".join of tag-free lines is tag-free. */
  lemma {:induction false} JoinNoTag(lines: seq<seq<char>>)
    requires forall k | 0 <= k < |lines| :: NoTag(lines[k])
    ensures NoTag(Join(lines))
  {
    if |lines| >= 2 {
      JoinNoTag(lines[1..]);
      NoTagNewline(lines[0], Join(lines[1..]));
    }
  }

  /** Tag removal works line by line: no tag spans a "\n", so removing the
      tags of Join(lines) is joining the lines with their tags
      removed. */
  lemma {:induction false} StripTagsJoin(lines: seq<seq<char>>, clean: seq<seq<char>>)
    requires |clean| == |lines|
    requires forall k | 0 <= k < |lines| :: StripTags(lines[k]) == clean[k]
    ensures StripTags(Join(lines)) == Join(clean)
  {
    if |lines| >= 2 {
      StripTagsJoin(lines[1..], clean[1..]);
      StripTagsNewline(lines[0], Join(lines[1..]));
    }
  }

  /** clean_lyrics(lyrics). The result holds no tag, has no blank line and
      no line with whitespace at either end: every line boundary in it is a
      single "\n" with a non-whitespace character on each side. */
  function CleanLyrics(s: seq<char>): (r: seq<char>)
    ensures NoTag(r)
    ensures TidyText(r)
    ensures r == [] || (r[0] != '\n' && r[|r| - 1] != '\n')
    ensures forall i | 0 <= i < |r| - 1 :: !(r[i] == '\n' && r[i + 1] == '\n')
  {
    var t := StripTags(s);
    var lines := CleanLines(SplitLines(t));
    StripTagsNoTag(s);
    SplitLinesNoTag(t);
    CleanLinesKeep(SplitLines(t));
    CleanLinesStripped(SplitLines(t));
    JoinNoTag(lines);
    JoinTidy(lines);
    Join(lines)
  }

  /** The lines of the result are exactly the cleaned lines of the
      tag-free text: each non-empty, stripped, in the original order. */
  lemma CleanLyricsLines(s: seq<char>)
    ensures SplitLines(CleanLyrics(s)) == CleanLines(SplitLines(StripTags(s)))
    ensures forall k | 0 <= k < |SplitLines(CleanLyrics(s))| ::
              SplitLines(CleanLyrics(s))[k] != [] && IsStripped(SplitLines(CleanLyrics(s))[k])
  {
    var t := StripTags(s);
    var lines := CleanLines(SplitLines(t));
    StripTagsNoTag(s);
    SplitLinesNoTag(t);
    CleanLinesKeep(SplitLines(t));
    CleanLinesStripped(SplitLines(t));
    SplitLinesJoin(lines);
  }

  /** Cleaning twice is cleaning once. */
  lemma CleanLyricsIdempotent(s: seq<char>)
    ensures CleanLyrics(CleanLyrics(s)) == CleanLyrics(s)
  {
    var r := CleanLyrics(s);
    var lines := CleanLines(SplitLines(StripTags(s)));
    StripTagsFixed(r);
    CleanLyricsLines(s);
    CleanLinesFixed(lines);
  }

  /** The result is empty exactly when the text, once its tags are removed,
      is whitespace only: an empty text, or one of tags, spaces and blank
      lines. */
  lemma CleanLyricsEmpty(s: seq<char>)
    ensures CleanLyrics(s) == [] <==> AllSpace(StripTags(s))
  {
    var t := StripTags(s);
    var lines := CleanLines(SplitLines(t));
    StripTagsNoTag(s);
    SplitLinesNoTag(t);
    CleanLinesKeep(SplitLines(t));
    CleanLinesStripped(SplitLines(t));
    JoinTidy(lines);
    CleanLinesEmpty(SplitLines(t));
    AllSpaceSplitLines(t);
  }

  /** A text without "[" and without blank lines comes back with each line
      stripped and the lines joined by "\n", so every other line boundary
      becomes "\n" and a boundary at the very end goes. */
  lemma CleanLyricsUntagged(s: seq<char>)
    requires '[' !in s
    requires forall k | 0 <= k < |SplitLines(s)| :: !AllSpace(SplitLines(s)[k])
    ensures CleanLyrics(s) == Join(StripEach(SplitLines(s)))
  {
    assert NoTag(s);
    StripTagsFixed(s);
    var lines := SplitLines(s);
    CleanLinesNoBlank(lines);
    assert CleanLyrics(s) == Join(CleanLines(SplitLines(StripTags(s))));
  }
}
