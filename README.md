# clean_lyrics, modelled and proved in Dafny

The lyrics visualizer fetches a song's lyrics and cleans them before it draws
a word cloud. The cleaning is `clean_lyrics` (`app.py`, lines 30-33), and
this project models that function and proves what it guarantees. It runs in
three steps:

1. A regular-expression substitution removes the bracket tags such as
   `[Verse 1]` or `[Chorus]`.
2. A list comprehension splits what is left into lines with `splitlines`,
   strips each line, and drops the lines that end up empty.
3. The surviving lines are joined back together with `"\n"` between them.

The function is pure, so the model is made of functions and lemmas. It has
four modules:

- `Text` (`text.dfy`) models the Python string operations used in steps 2
  and 3.
  - `IsSpace` is exactly the character set of `str.isspace()`: general
    category Zs, or bidirectional class WS, B or S.
  - `IsLineBreak` is exactly the set of boundary characters of
    `str.splitlines()`.
  - `SplitLines` treats `"\r\n"` as one boundary (`BoundaryLength`), and a
    boundary at the very end does not start an empty last line.
  - `Strip`, `SplitLines` and `Join` model `str.strip()`,
    `str.splitlines()` and `"\n".join`.
- `Tags` (`tags.dfy`) models the regex substitution of step 1 as a left to
  right scan, `StripTags`.
  - The pattern is compiled without DOTALL, so `.` matches anything except
    `"\n"`.
  - The lazy `.*?` makes a tag run from a `[` to the first `]` after it on
    the same line. `CloseOffset` finds that `]`.
  - A `[` with no such `]` is kept, and matches do not overlap.
  - So a `"\r"` or another line boundary other than `"\n"` can sit inside a
    tag, exactly as in the regex.
- `Lyrics` (`lyrics.dfy`) composes the three steps as `CleanLyrics` and
  proves the main properties:
  - No tag is left.
  - No line is blank or has whitespace at either end, and the text never
    starts or ends with `"\n"` and never holds `"\n\n"`.
  - The output lines are exactly the non-empty stripped lines, in their
    original order.
  - Cleaning is idempotent.
  - The output is empty exactly when the input is only tags and whitespace.
  - Input without `[` or blank lines comes back as its lines, each
    stripped, joined by `"\n"`: a `"\r\n"` or any other boundary becomes
    `"\n"`, and a boundary at the very end is dropped.
- `LyricsExamples` (`examples.dfy`) proves the worked example:
  `"[Chorus]\nHello world  \n\n   \n[Verse]\nGoodbye"` cleans to
  `"Hello world\nGoodbye"`.

The model follows the code where a looser description of "remove every `[`
... `]` span" would differ. A `[` whose next `]` lies on a later line opens
no tag: `StripTagsUnclosedLine` shows it stays, and so does the rest of its
line.

## Model

| member | source | states |
|---|---|---|
| Text.IsSpace | app.py:32 | the whitespace that `strip` removes: exactly the characters of general category Zs or bidirectional class WS, B or S (a definition, no contract) |
| Text.IsLineBreak | app.py:32 | every line boundary of `splitlines` is also whitespace for `strip` |
| Text.LeadingSpace | app.py:32 | counts the whitespace prefix: all of it is whitespace and the next character is not |
| Text.TrailingSpace | app.py:32 | counts the whitespace suffix: all of it is whitespace and the character before it is not |
| Text.Strip | app.py:32 | `line.strip()` neither starts nor ends with whitespace, and it is empty exactly when the line is whitespace only |
| Text.StripExact | app.py:32 | stripping whitespace-only text on both sides of a stripped middle part gives exactly that part |
| Text.StripSlice | app.py:32 | `strip` keeps one contiguous slice of the line and removes only whitespace before and after it |
| Text.StripStripped | app.py:32 | a text that is already stripped is left unchanged |
| Text.StripIdempotent | app.py:32 | `strip` changes a text exactly when it is not stripped, and stripping twice is stripping once |
| Text.StripNoLineBreak | app.py:32 | stripping a line adds no line boundary |
| Text.LineEnd | app.py:32 | gives the first line boundary: nothing before it is a boundary |
| Text.BoundaryLength | app.py:32 | a boundary is one or two characters within the text, and it is two exactly when it is `"\r\n"` |
| Text.SplitLines | app.py:32 | `splitlines()` gives lines that hold no boundary, and no lines exactly for the empty text |
| Text.LineEndExact | app.py:32 | the first line ends exactly where a boundary-free prefix meets a boundary or the end of the text |
| Text.SplitLinesLast | app.py:32 | a boundary-free text is one line, or no line when it is empty |
| Text.SplitLinesBreak | app.py:32 | a boundary-free line followed by one boundary (a `"\r\n"` pair counts as one) starts the list of lines of the text, which goes on with the lines of the rest |
| Text.Join | app.py:33 | `"\n".join`: the lines with one `"\n"` between each two (a definition, no contract; `SplitLinesJoin` and `JoinTidy` state its properties) |
| Text.AllSpaceSplitLines | app.py:32 | a text is whitespace only exactly when every one of its lines is |
| Text.SplitLinesJoin | app.py:32-33 | splitting the `"\n"`-join of boundary-free lines, the last one non-empty, gives the same lines back |
| Text.JoinTidy | app.py:33 | joining non-empty stripped boundary-free lines gives text that is empty only for no lines, and whose only boundaries are single `"\n"` with non-whitespace on both sides |
| Tags.CloseOffset | app.py:31 | the lazy `.*?\]` after a `[` stops at the first `]` with no `"\n"` before it; when there is none, every `]` ahead is preceded by a `"\n"` |
| Tags.StripTags | app.py:31 | tag removal never lengthens the text |
| Tags.StripTagsSubMultiset | app.py:31 | tag removal only deletes characters: the result's characters form a sub-multiset of the input's |
| Tags.StripTagsSubsequence | app.py:31 | tag removal only deletes characters and keeps the rest in order: the result is the input read at strictly increasing positions |
| Tags.NoTagCons | app.py:31 | a text with one more character at the front is tag-free exactly when the rest is, and a leading `[` closes no tag |
| Tags.CloseOffsetAppend | app.py:31 | text with no `]` before its first `"\n"` cannot close a tag opened before it |
| Tags.StripTagsAppend | app.py:31 | under that condition removing tags from two texts joined together is removing them from each text |
| Tags.StripTagsNewline | app.py:31 | no tag spans a `"\n"`: tags are removed line by line and every `"\n"` stays |
| Tags.CloseOffsetFirst | app.py:31 | the first `]` after a `[` on its line closes the tag, whatever other `[` lie between |
| Tags.StripTagsTag | app.py:31 | a leading tag is removed whole, both brackets included, and the scan resumes after its `]` |
| Tags.StripTagsPlain | app.py:31 | text with no `[` is kept whole in front of whatever tag removal makes of the rest, so characters outside a matched span survive |
| Tags.NoCloseNoTag | app.py:31 | a text with no `]` holds no tag and is left unchanged |
| Tags.StripTagsOpen | app.py:31 | a `[` whose line ahead holds no `]` is kept |
| Tags.StripTagsUnclosedEnd | app.py:31 | an unclosed `[` at the end is kept with everything after it, and the text before it is cleaned as usual |
| Tags.StripTagsUnclosedLine | app.py:31 | an unclosed `[` is kept with the rest of its line, and the text before it and the lines after it are cleaned as usual |
| Tags.StripTagsOpenLine | app.py:31 | removing tags from the rest of a line cannot bring a `]` forward to close an open `[` |
| Tags.StripTagsNoTag | app.py:31 | after tag removal no `[` is followed by a `]` on the same line |
| Tags.StripTagsFixed | app.py:31 | tag removal changes a text exactly when it holds a tag, and it is idempotent |
| Tags.NoTagSlice | app.py:31 | any contiguous part of a tag-free text is tag-free |
| Tags.NoTagNewline | app.py:31-33 | two tag-free texts joined by `"\n"` are tag-free |
| Lyrics.CleanLines | app.py:32 | the comprehension keeps at most as many lines as it is given |
| Lyrics.CleanLinesStripped | app.py:32 | every kept line is non-empty and stripped |
| Lyrics.StripEach | app.py:32 | strips every line and drops none |
| Lyrics.NonEmpty | app.py:32 | the non-empty lines in their order; applied to the already stripped lines it is the filter `if line.strip()` (a definition, no contract; `CleanLinesFilter` and `NonEmptyKept` state what it keeps) |
| Lyrics.Kept | app.py:32 | lists positions of non-empty lines only |
| Lyrics.KeptOrdered | app.py:32 | those positions are strictly increasing, so the lines keep their order |
| Lyrics.KeptComplete | app.py:32 | every non-empty line's position is listed |
| Lyrics.NonEmptyKept | app.py:32 | the filter `if line` returns exactly the lines at those positions |
| Lyrics.CleanLinesFilter | app.py:32 | the comprehension is the filter applied to the stripped lines |
| Lyrics.CleanLinesKept | app.py:32 | the k-th output line is the stripped k-th line whose stripped form is non-empty, and a line survives exactly when its stripped form is non-empty |
| Lyrics.CleanLinesFixed | app.py:32 | non-empty stripped lines pass unchanged |
| Lyrics.CleanLinesNoBlank | app.py:32 | when no line is whitespace only, every line is kept and stripped |
| Lyrics.CleanLinesEmpty | app.py:32 | no line survives exactly when every line is whitespace only |
| Lyrics.StripKeepsLine | app.py:31-32 | stripping keeps a line free of boundaries and tags |
| Lyrics.CleanLinesKeep | app.py:31-32 | the comprehension keeps lines free of boundaries and tags |
| Lyrics.SplitLinesNoTag | app.py:31-32 | every line of a tag-free text is tag-free |
| Lyrics.JoinNoTag | app.py:31-33 | the `"\n"`-join of tag-free lines is tag-free |
| Lyrics.StripTagsJoin | app.py:31-33 | removing tags from joined lines is joining the lines with their tags removed |
| Lyrics.CleanLyrics | app.py:30-33 | the result holds no tag, its only boundaries are single `"\n"` between non-whitespace characters, it does not start or end with `"\n"`, and it never holds `"\n\n"` |
| Lyrics.CleanLyricsLines | app.py:30-33 | the result's lines are exactly the cleaned lines of the tag-free text, each non-empty and stripped |
| Lyrics.CleanLyricsIdempotent | app.py:30-33 | cleaning twice is cleaning once |
| Lyrics.CleanLyricsEmpty | app.py:30-33 | the result is empty exactly when the input, once its tags are removed, is whitespace only, which includes empty input |
| Lyrics.CleanLyricsUntagged | app.py:30-33 | input without `[` or blank lines comes back with each line stripped and the lines joined by `"\n"` |
| LyricsExamples.HeaderLine | app.py:31 | a line made of one header such as `[Chorus]` disappears |
| LyricsExamples.CleanSixLines | app.py:32 | out of four whitespace-only lines and two text lines only the text lines survive, stripped |
| LyricsExamples.HeadersAndBlanks | app.py:30-33 | `"[c]\nh\n\nsp\n[v]\ng"` with headers c and v, blank sp and text lines h and g cleans to h and g stripped and joined by `"\n"` |
| LyricsExamples.TextBeforeTag | app.py:31 | `"x[a]"` loses its tag and keeps the `x` before it |
| LyricsExamples.CrLfLines | app.py:32-33 | two clean lines split by `"\r\n"` come out split by `"\n"` |
| LyricsExamples.EndBreak | app.py:32-33 | a clean line followed by one `"\n"` comes out without it |
| LyricsExamples.CrLfExample | app.py:30-33 | `"a\r\nb"` cleans to `"a\nb"` |
| LyricsExamples.EndBreakExample | app.py:30-33 | `"a\n"` cleans to `"a"` |
| LyricsExamples.JoinSix | app.py:33 | joining six lines puts one `"\n"` between each two of them |
| LyricsExamples.ChorusVerseLines | app.py:30-33 | the example's six lines, joined by `"\n"`, clean to `"Hello world\nGoodbye"` |
| LyricsExamples.ChorusVerse | app.py:30-33 | `"[Chorus]\nHello world  \n\n   \n[Verse]\nGoodbye"`, written as one literal, cleans to `"Hello world\nGoodbye"` |

## Left out

- The Streamlit page setup, title and input field (app.py:7-10, 35-39, 45-46) are UI only and hold no logic.
- Loading the Genius token from `st.secrets` and its error message (app.py:12-19) is configuration and I/O.
- The `lyricsgenius` client and `search_song` (app.py:21-27, 41-42) are network calls into code that is not part of this model.
- The word cloud and the matplotlib figure (app.py:48-53) call third-party layout and rendering code.
- The "no lyrics" and exception messages (app.py:54-58) are UI error reporting around the network call.
- Other variants of the tool have a search over hits for an artist match, a static fallback table and a check before rendering. They are not in `app.py` and are not part of this model.
- Python strings can hold lone surrogates, but Dafny's `char` is a Unicode scalar value, so those characters are not modelled. Every other character is modelled with its exact `isspace` and `splitlines` membership.
- `re.sub` is modelled for this one pattern as a scan, not as a general regular-expression engine.
