/** The worked example of clean_lyrics: section headers, trailing spaces
    and blank lines all disappear. */
module LyricsExamples {
  import opened Text
  import opened Tags
  import opened Lyrics

  /** A "[" ... "]" line is a tag and nothing else. */
  lemma HeaderLine(w: seq<char>)
    requires ']' !in w && '\n' !in w
    ensures StripTags(['['] + w + [']']) == []
  {
    StripTagsTag(w, []);
    assert ['['] + w + [']'] + [] == ['['] + w + [']'];
  }

  /** A whitespace-only line is dropped. */
  lemma CleanLinesDrop(line: seq<char>, rest: seq<seq<char>>)
    requires AllSpace(line)
    ensures CleanLines([line] + rest) == CleanLines(rest)
  {
    assert ([line] + rest)[1..] == rest;
  }

  /** Any other line is kept, stripped. */
  lemma CleanLinesTake(line: seq<char>, rest: seq<seq<char>>)
    requires !AllSpace(line)
    ensures CleanLines([line] + rest) == [Strip(line)] + CleanLines(rest)
  {
    assert ([line] + rest)[1..] == rest;
  }

  /** The six lines of the example, after tag removal: two text lines
      among four whitespace-only ones. Only the text lines survive,
      stripped. */
  lemma CleanSixLines(b1: seq<char>, h: seq<char>, b2: seq<char>, b3: seq<char>, b4: seq<char>, g: seq<char>)
    requires AllSpace(b1) && AllSpace(b2) && AllSpace(b3) && AllSpace(b4)
    requires !AllSpace(h) && !AllSpace(g)
    ensures CleanLines([b1, h, b2, b3, b4, g]) == [Strip(h), Strip(g)]
  {
    var l5 := [g] + [];
    var l4 := [b4] + l5;
    var l3 := [b3] + l4;
    var l2 := [b2] + l3;
    var l1 := [h] + l2;
    var l0 := [b1] + l1;
    CleanLinesTake(g, []);
    CleanLinesDrop(b4, l5);
    CleanLinesDrop(b3, l4);
    CleanLinesDrop(b2, l3);
    CleanLinesTake(h, l2);
    CleanLinesDrop(b1, l1);
    SixDisplay(b1, h, b2, b3, b4, g);
  }

  /** Six one-element sequences joined together are the six-element
      display; stated generically so that no fact about the elements slows
      the step down. */
  lemma SixDisplay<T>(a: T, b: T, c: T, d: T, e: T, f: T)
    ensures [a] + ([b] + ([c] + ([d] + ([e] + ([f] + []))))) == [a, b, c, d, e, f]
  {
  }

  /** "\n".join of one line followed by at least one more. */
  lemma JoinCons(x: seq<char>, rest: seq<seq<char>>)
    requires rest != []
    ensures Join([x] + rest) == x + "\n" + Join(rest)
  {
    assert ([x] + rest)[1..] == rest;
  }

  /** "\n".join of six lines, written out. */
  lemma JoinSix(x0: seq<char>, x1: seq<char>, x2: seq<char>, x3: seq<char>, x4: seq<char>, x5: seq<char>)
    ensures Join([x0, x1, x2, x3, x4, x5])
         == x0 + "\n" + x1 + "\n" + x2 + "\n" + x3 + "\n" + x4 + "\n" + x5
  {
    var l5 := [x5] + [];
    var l4 := [x4] + l5;
    var l3 := [x3] + l4;
    var l2 := [x2] + l3;
    var l1 := [x1] + l2;
    var l0 := [x0] + l1;
    JoinCons(x4, l5);
    JoinCons(x3, l4);
    JoinCons(x2, l3);
    JoinCons(x1, l2);
    JoinCons(x0, l1);
    SixDisplay(x0, x1, x2, x3, x4, x5);
  }

  /** A lyric of the form "[c]\nh\n\nsp\n[v]\ng", with headers c and v, a
      whitespace-only line sp and text lines h and g, none holding "]" or a
      line boundary, cleans to h and g stripped and joined by "\n". */
  lemma HeadersAndBlanks(c: seq<char>, h: seq<char>, sp: seq<char>, v: seq<char>, g: seq<char>)
    requires ']' !in c && '\n' !in c && ']' !in v && '\n' !in v
    requires ']' !in h && ']' !in sp && ']' !in g
    requires NoLineBreak(h) && NoLineBreak(sp) && NoLineBreak(g)
    requires AllSpace(sp) && !AllSpace(h) && !AllSpace(g)
    ensures CleanLyrics(Join(["[" + c + "]", h, "", sp, "[" + v + "]", g]))
         == Strip(h) + "\n" + Strip(g)
  {
    var lines := ["[" + c + "]", h, [], sp, "[" + v + "]", g];
    var clean := [[], h, [], sp, [], g];
    forall k | 0 <= k < 6
      ensures StripTags(lines[k]) == clean[k] && NoLineBreak(clean[k])
    {
      if k == 0 {
        HeaderLine(c);
      } else if k == 4 {
        HeaderLine(v);
      } else if k == 2 {
        assert lines[k] == [] && clean[k] == [];
      } else {
        assert lines[k] == clean[k] && ']' !in clean[k] && NoLineBreak(clean[k]);
        NoCloseNoTag(clean[k]);
      }
    }
    StripTagsJoin(lines, clean);
    SplitLinesJoin(clean);
    CleanSixLines([], h, [], sp, [], g);
    assert Join([Strip(h), Strip(g)]) == Strip(h) + "\n" + Join([Strip(g)]);
  }

  /** Text in front of a tag stays, the tag goes. */
  lemma TextBeforeTag()
    ensures StripTags("x[a]") == "x"
  {
    StripTagsPlain("x", "[a]");
    StripTagsTag("a", []);
    assert ['['] + "a" + [']'] + [] == "[a]";
    assert "x" + "[a]" == "x[a]";
  }

  /** Two clean lines split by "\r\n" come out split by "\n". */
  lemma CrLfLines(a: seq<char>, b: seq<char>)
    requires a != [] && b != [] && IsStripped(a) && IsStripped(b)
    requires NoLineBreak(a) && NoLineBreak(b) && '[' !in a && '[' !in b
    ensures CleanLyrics(a + "\r\n" + b) == a + "\n" + b
  {
    var s := a + "\r\n" + b;
    SplitLinesBreak(a, "\r\n", b);
    SplitLinesLast(b);
    assert SplitLines(s) == [a, b];
    assert !IsSpace(a[0]) && !IsSpace(b[0]);
    assert '[' !in s;
    CleanLyricsUntagged(s);
    StripStripped(a);
    StripStripped(b);
    assert StripEach([a, b]) == [a, b];
    assert Join([a, b]) == a + "\n" + Join([b]);
  }

  /** A clean line followed by one "\n" loses the "\n". */
  lemma EndBreak(a: seq<char>)
    requires a != [] && IsStripped(a) && NoLineBreak(a) && '[' !in a
    ensures CleanLyrics(a + "\n") == a
  {
    SplitLinesBreak(a, "\n", []);
    SplitLinesLast([]);
    assert a + "\n" + [] == a + "\n";
    assert SplitLines(a + "\n") == [a];
    assert !IsSpace(a[0]);
    assert '[' !in a + "\n";
    CleanLyricsUntagged(a + "\n");
    StripStripped(a);
    assert StripEach([a]) == [a];
  }

  /** The lines "a" and "b" are clean, and the texts of the boundary
      examples spelled out. */
  lemma BoundaryStrings()
    ensures IsStripped("a") && NoLineBreak("a") && '[' !in "a"
    ensures IsStripped("b") && NoLineBreak("b") && '[' !in "b"
    ensures "a" + "\r\n" + "b" == "a\r\nb" && "a" + "\n" + "b" == "a\nb"
    ensures "a" + "\n" == "a\n"
  {
  }

  /** A "\r\n" comes out as "\n". */
  lemma CrLfExample()
    ensures CleanLyrics("a\r\nb") == "a\nb"
  {
    BoundaryStrings();
    CrLfLines("a", "b");
  }

  /** A boundary at the very end goes. */
  lemma EndBreakExample()
    ensures CleanLyrics("a\n") == "a"
  {
    BoundaryStrings();
    EndBreak("a");
  }

  lemma HelloStrip()
    ensures Strip("Hello world  ") == "Hello world"
  {
    StripExact([], "Hello world", "  ");
    assert [] + "Hello world" + "  " == "Hello world  ";
  }

  /** The text lines hold neither "]" nor a line boundary, and only the
      third one is whitespace only. */
  lemma ExampleLines()
    ensures ']' !in "Chorus" && '\n' !in "Chorus" && ']' !in "Verse" && '\n' !in "Verse"
    ensures ']' !in "Hello world  " && ']' !in "   " && ']' !in "Goodbye"
    ensures NoLineBreak("Hello world  ") && NoLineBreak("   ") && NoLineBreak("Goodbye")
    ensures AllSpace("   ") && !AllSpace("Hello world  ") && !AllSpace("Goodbye")
  {
    assert !IsSpace("Hello world  "[0]) && !IsSpace("Goodbye"[0]);
  }

  /** The example's input and output, each spelled out line by line. */
  lemma ExampleStrings()
    ensures "[Chorus]" + "\n" + "Hello world  " + "\n" + "" + "\n" + "   " + "\n" + "[Verse]" + "\n" + "Goodbye"
         == "[Chorus]\nHello world  \n\n   \n[Verse]\nGoodbye"
    ensures "Hello world" + "\n" + "Goodbye" == "Hello world\nGoodbye"
  {
  }

  /** The example, its input given as its six lines joined by "\n". */
  lemma ChorusVerseLines()
    ensures CleanLyrics(Join(["[Chorus]", "Hello world  ", "", "   ", "[Verse]", "Goodbye"]))
         == "Hello world\nGoodbye"
  {
    ExampleLines();
    HelloStrip();
    StripStripped("Goodbye");
    assert "[" + "Chorus" + "]" == "[Chorus]";
    assert "[" + "Verse" + "]" == "[Verse]";
    HeadersAndBlanks("Chorus", "Hello world  ", "   ", "Verse", "Goodbye");
    assert ["[" + "Chorus" + "]", "Hello world  ", "", "   ", "[" + "Verse" + "]", "Goodbye"]
        == ["[Chorus]", "Hello world  ", "", "   ", "[Verse]", "Goodbye"];
    assert CleanLyrics(Join(["[Chorus]", "Hello world  ", "", "   ", "[Verse]", "Goodbye"]))
        == Strip("Hello world  ") + "\n" + Strip("Goodbye");
    ExampleStrings();
  }

  /** The section headers, the trailing spaces and the two blank lines of
      the example all go. */
  lemma ChorusVerse()
    ensures CleanLyrics("[Chorus]\nHello world  \n\n   \n[Verse]\nGoodbye") == "Hello world\nGoodbye"
  {
    JoinSix("[Chorus]", "Hello world  ", "", "   ", "[Verse]", "Goodbye");
    ExampleStrings();
    ChorusVerseLines();
  }
}
