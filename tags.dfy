/** Removal of bracket tags such as "[Verse 1]" or "[Chorus]", which
    clean_lyrics does by replacing every match of a regular expression with
    nothing. The pattern is a "[", then a lazy run of any characters, then a
    "]". Without the DOTALL flag `.` matches
    anything but "\n", and `.*?` is lazy, so a tag runs from a "[" to the
    first "]" after it on the same line; a "[" with no such "]" is kept.
    Matches are found left to right and do not overlap. */
module Tags {

  datatype Option<T> = None | Some(value: T)

  /** No "[" is followed on the same line by a "]": the text holds nothing
      the pattern \[.*?\] matches. */
  predicate NoTag(s: seq<char>) {
    forall i, j | 0 <= i < j < |s| && s[i] == '[' && s[j] == ']' :: '\n' in s[i + 1..j]
  }

  /** Where, in the text t that follows a "[", the lazy `.*?\]` can stop:
      the index of the first "]" of t, provided no "\n" comes before it. */
  function CloseOffset(t: seq<char>): (r: Option<nat>)
    ensures r.Some? ==> r.value < |t| && t[r.value] == ']'
    ensures r.Some? ==> '\n' !in t[..r.value] && ']' !in t[..r.value]
    ensures r.None? ==> forall j | 0 <= j < |t| && t[j] == ']' :: '\n' in t[..j]
  {
    if t == [] then None
    else if t[0] == ']' then Some(0)
    else if t[0] == '\n' then
      assert forall j | 0 < j <= |t| :: t[..j][0] == '\n';
      None
    else
      match CloseOffset(t[1..])
      case Some(k) =>
        assert t[..k + 1] == [t[0]] + t[1..][..k];
        Some(k + 1)
      case None =>
        assert forall j | 1 <= j <= |t| :: t[..j] == [t[0]] + t[1..][..j - 1];
        None
  }

  /** The left-to-right scan of re.sub: at a "[" whose tag closes, drop the
      whole tag and go on after its "]"; otherwise keep the character. */
  function StripTags(s: seq<char>): (r: seq<char>)
    ensures |r| <= |s|
    decreases |s|
  {
    if s == [] then []
    else if s[0] == '[' && CloseOffset(s[1..]).Some? then
      StripTags(s[CloseOffset(s[1..]).value + 2..])
    else
      [s[0]] + StripTags(s[1..])
  }

  /** Tag removal only deletes characters: each character of the result
      comes from the input, no more often than it occurs there. */
  lemma {:induction false} StripTagsSubMultiset(s: seq<char>)
    ensures multiset(StripTags(s)) <= multiset(s)
    decreases |s|
  {
    if s != [] {
      if s[0] == '[' && CloseOffset(s[1..]).Some? {
        var k := CloseOffset(s[1..]).value;
        StripTagsSubMultiset(s[k + 2..]);
        assert s == s[..k + 2] + s[k + 2..];
      } else {
        StripTagsSubMultiset(s[1..]);
        assert s == [s[0]] + s[1..];
      }
    }
  }

  /** r is s read at the strictly increasing positions idx. */
  ghost predicate Picks(s: seq<char>, r: seq<char>, idx: seq<nat>)
  {
    && |idx| == |r|
    && (forall k | 0 <= k < |idx| :: idx[k] < |s| && r[k] == s[idx[k]])
    && (forall k, m | 0 <= k < m < |idx| :: idx[k] < idx[m])
  }

  /** Positions picked from a suffix of s, moved to positions in s. */
  lemma PicksShift(s: seq<char>, d: nat, r: seq<char>, idx: seq<nat>) returns (moved: seq<nat>)
    requires d <= |s| && Picks(s[d..], r, idx)
    ensures Picks(s, r, moved)
    ensures forall k | 0 <= k < |moved| :: d <= moved[k]
  {
    moved := seq(|idx|, k requires 0 <= k < |idx| => idx[k] + d);
  }

  /** A kept first character goes in front of positions picked after it. */
  lemma PicksCons(s: seq<char>, r: seq<char>, idx: seq<nat>)
    requires s != [] && Picks(s, r, idx)
    requires forall k | 0 <= k < |idx| :: 1 <= idx[k]
    ensures Picks(s, [s[0]] + r, [0] + idx)
  {
  }

  /** Tag removal also keeps the order of what it keeps: the result is the
      input read at strictly increasing positions. */
  lemma {:induction false} StripTagsSubsequence(s: seq<char>) returns (idx: seq<nat>)
    ensures Picks(s, StripTags(s), idx)
    decreases |s|
  {
    if s == [] {
      idx := [];
    } else if s[0] == '[' && CloseOffset(s[1..]).Some? {
      var d := CloseOffset(s[1..]).value + 2;
      var t := StripTagsSubsequence(s[d..]);
      idx := PicksShift(s, d, StripTags(s[d..]), t);
    } else {
      var t := StripTagsSubsequence(s[1..]);
      var moved := PicksShift(s, 1, StripTags(s[1..]), t);
      PicksCons(s, StripTags(s[1..]), moved);
      idx := [0] + moved;
    }
  }

  /** How NoTag extends by one character at the front. */
  lemma NoTagCons(c: char, t: seq<char>)
    ensures NoTag([c] + t) <==> NoTag(t) && (c == '[' ==> CloseOffset(t).None?)
  {
    if NoTag(t) && (c == '[' ==> CloseOffset(t).None?) {
      NoTagConsIntro(c, t);
    }
    if NoTag([c] + t) {
      NoTagConsElim(c, t);
    }
  }

  lemma NoTagConsIntro(c: char, t: seq<char>)
    requires NoTag(t) && (c == '[' ==> CloseOffset(t).None?)
    ensures NoTag([c] + t)
  {
    var s := [c] + t;
    forall i, j | 0 <= i < j < |s| && s[i] == '[' && s[j] == ']'
      ensures '\n' in s[i + 1..j]
    {
      if i == 0 {
        assert t[j - 1] == ']' && '\n' in t[..j - 1];
        assert s[1..j] == t[..j - 1];
      } else {
        assert t[i - 1] == '[' && t[j - 1] == ']' && '\n' in t[i..j - 1];
        assert s[i + 1..j] == t[i..j - 1];
      }
    }
  }

  lemma NoTagConsElim(c: char, t: seq<char>)
    requires NoTag([c] + t)
    ensures NoTag(t) && (c == '[' ==> CloseOffset(t).None?)
  {
    var s := [c] + t;
    forall i, j | 0 <= i < j < |t| && t[i] == '[' && t[j] == ']'
      ensures '\n' in t[i + 1..j]
    {
      assert s[i + 1] == t[i] && s[j + 1] == t[j];
      assert s[i + 2..j + 1] == t[i + 1..j];
    }
    CloseMakesTag(t);
  }

  /** A "[" in front of a text whose tag closes makes a tag. */
  lemma CloseMakesTag(t: seq<char>)
    ensures CloseOffset(t).Some? ==> !NoTag(['['] + t)
  {
    if CloseOffset(t).Some? {
      var k := CloseOffset(t).value;
      var s := ['['] + t;
      assert s[0] == '[' && s[k + 1] == ']';
      assert s[1..k + 1] == t[..k];
    }
  }

  /** A text y with no "]" before its first "\n" cannot close a tag opened
      in x, so the search for the close in x + y ends inside x. */
  lemma {:induction false} CloseOffsetAppend(x: seq<char>, y: seq<char>)
    requires CloseOffset(y).None?
    ensures CloseOffset(x + y) == CloseOffset(x)
  {
    if x == [] {
      assert x + y == y;
    } else {
      assert (x + y)[0] == x[0] && (x + y)[1..] == x[1..] + y;
      if x[0] != ']' && x[0] != '\n' {
        CloseOffsetAppend(x[1..], y);
      }
    }
  }

  /** Under the same condition the scan of x + y is the scan of x followed
      by the scan of y: no tag straddles the seam. */
  lemma {:induction false} StripTagsAppend(x: seq<char>, y: seq<char>)
    requires CloseOffset(y).None?
    ensures StripTags(x + y) == StripTags(x) + StripTags(y)
    decreases |x|
  {
    if x == [] {
      assert x + y == y;
    } else {
      var s := x + y;
      assert s[0] == x[0] && s[1..] == x[1..] + y;
      CloseOffsetAppend(x[1..], y);
      if x[0] == '[' && CloseOffset(x[1..]).Some? {
        var k := CloseOffset(x[1..]).value;
        assert s[k + 2..] == x[k + 2..] + y;
        StripTagsAppend(x[k + 2..], y);
      } else {
        StripTagsAppend(x[1..], y);
        assert StripTags(s) == [x[0]] + StripTags(x[1..] + y);
      }
    }
  }

  /** A tag never spans a "\n": tag removal works line by line and keeps
      every "\n". */
  lemma StripTagsNewline(a: seq<char>, b: seq<char>)
    ensures StripTags(a + ['\n'] + b) == StripTags(a) + ['\n'] + StripTags(b)
  {
    var y := ['\n'] + b;
    assert y[0] == '\n' && y[1..] == b;
    assert CloseOffset(y).None?;
    assert StripTags(y) == ['\n'] + StripTags(b);
    StripTagsAppend(a, y);
    ConcatAssoc(a, ['\n'], b);
    ConcatAssoc(StripTags(a), ['\n'], StripTags(b));
  }

  /** The first "]" after a "[" on the same line closes the tag, whatever
      other "[" lie between. */
  lemma {:induction false} CloseOffsetFirst(w: seq<char>, q: seq<char>)
    requires ']' !in w && '\n' !in w
    ensures CloseOffset(w + [']'] + q) == Some(|w|)
  {
    var t := w + [']'] + q;
    if w == [] {
      assert t == [']'] + q;
    } else {
      assert t[0] == w[0];
      assert t[1..] == w[1..] + [']'] + q;
      CloseOffsetFirst(w[1..], q);
    }
  }

  /** A tag at the front of the text is removed as a whole, "[" and "]"
      included, and the scan resumes right after it. */
  lemma StripTagsTag(w: seq<char>, q: seq<char>)
    requires ']' !in w && '\n' !in w
    ensures StripTags(['['] + w + [']'] + q) == StripTags(q)
  {
    var s := ['['] + w + [']'] + q;
    assert s[1..] == w + [']'] + q;
    CloseOffsetFirst(w, q);
    assert s[|w| + 2..] == q;
  }

  /** Text without "[" opens no tag, so the scan keeps all of it and goes
      on with what follows: characters outside a tag survive. */
  lemma {:induction false} StripTagsPlain(x: seq<char>, y: seq<char>)
    requires '[' !in x
    ensures StripTags(x + y) == x + StripTags(y)
  {
    if x != [] {
      var s := x + y;
      assert s[0] == x[0] && s[1..] == x[1..] + y;
      StripTagsPlain(x[1..], y);
      assert x == [x[0]] + x[1..];
    } else {
      assert x + y == y;
    }
  }

  /** A text without "]" holds no tag, so the scan leaves it alone. */
  lemma NoCloseNoTag(a: seq<char>)
    requires ']' !in a
    ensures NoTag(a) && StripTags(a) == a && CloseOffset(a).None?
  {
    StripTagsFixed(a);
  }

  /** A "[" whose line ahead holds no "]" opens no tag: it is kept, and
      the line ahead still holds no "]". */
  lemma StripTagsOpen(z: seq<char>)
    requires CloseOffset(z).None?
    ensures CloseOffset(['['] + z).None?
    ensures StripTags(['['] + z) == ['['] + StripTags(z)
  {
    var v := ['['] + z;
    assert v[0] == '[' && v[1..] == z;
  }

  /** Regrouping a concatenation, kept apart so that the facts around each
      use do not slow down this step. */
  lemma ConcatAssoc(x: seq<char>, y: seq<char>, z: seq<char>)
    ensures x + y + z == x + (y + z)
  {
  }

  /** A "[" with no "]" after it up to the end of the text is kept,
      together with everything after it; the text before it is cleaned as if
      it were not there. */
  lemma StripTagsUnclosedEnd(p: seq<char>, a: seq<char>)
    requires ']' !in a && '\n' !in a
    ensures StripTags(p + ['['] + a) == StripTags(p) + ['['] + a
  {
    NoCloseNoTag(a);
    StripTagsOpen(a);
    StripTagsAppend(p, ['['] + a);
    ConcatAssoc(p, ['['], a);
    ConcatAssoc(StripTags(p), ['['], a);
  }

  /** A "[" with no "]" after it on its line is kept, together with the rest
      of that line; the text before it and the lines after it are cleaned as
      if it were not there. */
  lemma StripTagsUnclosedLine(p: seq<char>, a: seq<char>, b: seq<char>)
    requires ']' !in a && '\n' !in a
    ensures StripTags(p + ['['] + a + ['\n'] + b) == StripTags(p) + ['['] + a + ['\n'] + StripTags(b)
  {
    NoCloseNoTag(a);
    var nb := ['\n'] + b;
    assert CloseOffset(nb).None?;
    CloseOffsetAppend(a, nb);
    ConcatAssoc(a, ['\n'], b);
    var z := a + nb;
    StripTagsNewline(a, b);
    assert StripTags(z) == StripTags(a) + ['\n'] + StripTags(b);
    StripTagsOpen(z);
    StripTagsAppend(p, ['['] + z);
    // p + ['['] + a + ['\n'] + b == p + (['['] + z)
    ConcatAssoc(p + ['['] + a, ['\n'], b);
    ConcatAssoc(p + ['['], a, nb);
    ConcatAssoc(p, ['['], z);
    // and the same regrouping on the right-hand side
    var sp, sb := StripTags(p), StripTags(b);
    ConcatAssoc(sp + ['['] + a, ['\n'], sb);
    ConcatAssoc(sp + ['['], a, ['\n'] + sb);
    ConcatAssoc(sp, ['['], a + (['\n'] + sb));
    ConcatAssoc(a, ['\n'], sb);
  }

  /** Removing tags from the rest of a line whose "[" stays open cannot
      bring a "]" before the line's end. */
  lemma {:induction false} StripTagsOpenLine(t: seq<char>)
    requires CloseOffset(t).None?
    ensures CloseOffset(StripTags(t)).None?
    decreases |t|
  {
    if t != [] {
      var r := StripTags(t);
      if t[0] == '\n' {
        assert r[0] == '\n';
      } else {
        StripTagsOpenLine(t[1..]);
        assert r == [t[0]] + StripTags(t[1..]);
        assert r[1..] == StripTags(t[1..]);
      }
    }
  }

  /** After tag removal no tag is left. */
  lemma {:induction false} StripTagsNoTag(s: seq<char>)
    ensures NoTag(StripTags(s))
    decreases |s|
  {
    if s == [] {
    } else if s[0] == '[' && CloseOffset(s[1..]).Some? {
      var k := CloseOffset(s[1..]).value;
      StripTagsNoTag(s[k + 2..]);
    } else {
      StripTagsNoTag(s[1..]);
      if s[0] == '[' {
        StripTagsOpenLine(s[1..]);
      }
      NoTagCons(s[0], StripTags(s[1..]));
    }
  }

  /** Tag removal changes a text exactly when the text holds a tag; in
      particular it is idempotent. */
  lemma {:induction false} StripTagsFixed(s: seq<char>)
    ensures StripTags(s) == s <==> NoTag(s)
    ensures StripTags(StripTags(s)) == StripTags(s)
    decreases |s|
  {
    StripTagsNoTag(s);
    if NoTag(s) && s != [] {
      NoTagCons(s[0], s[1..]);
      assert s == [s[0]] + s[1..];
      StripTagsFixed(s[1..]);
    }
    var r := StripTags(s);
    if r != [] {
      NoTagCons(r[0], r[1..]);
      assert r == [r[0]] + r[1..];
      StripTagsFixed(r[1..]);
    }
  }

  /** A contiguous part of a tag-free text is tag-free. */
  lemma NoTagSlice(s: seq<char>, i: nat, j: nat)
    requires NoTag(s) && i <= j <= |s|
    ensures NoTag(s[i..j])
  {
    var t := s[i..j];
    forall a, b | 0 <= a < b < |t| && t[a] == '[' && t[b] == ']'
      ensures '\n' in t[a + 1..b]
    {
      assert s[i + a] == '[' && s[i + b] == ']';
      var u, v := t[a + 1..b], s[i + a + 1..i + b];
      assert forall m | 0 <= m < |u| :: u[m] == v[m];
      assert u == v;
    }
  }

  /** Two tag-free texts joined by "\n" are tag-free. */
  lemma NoTagNewline(a: seq<char>, b: seq<char>)
    requires NoTag(a) && NoTag(b)
    ensures NoTag(a + ['\n'] + b)
  {
    StripTagsFixed(a);
    StripTagsFixed(b);
    StripTagsNewline(a, b);
    StripTagsFixed(a + ['\n'] + b);
  }
}
