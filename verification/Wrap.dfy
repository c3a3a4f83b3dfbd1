// Word wrapping of transcript text to the terminal width.
module Wrap {
  import opened Common
  import opened Text

  const MIN_WIDTH := 8

  /** The columns left beside an indent, and never fewer than eight. */
  function Width(columns: nat, indent: nat): (w: nat)
    ensures w >= 8 && w >= columns - indent && (w == 8 || w == columns - indent)
  {
    var left := if columns >= indent then columns - indent else 0;
    if left > MIN_WIDTH then left else MIN_WIDTH
  }

  // ---------- words ----------

  /** The position of the first space, or the length. */
  function SpaceAt(s: string): (n: nat)
    ensures n <= |s|
  {
    if s == "" || s[0] == ' ' then 0 else SpaceAt(s[1..]) + 1
  }

  /** The pieces between spaces; n spaces make n + 1 of them. */
  function Words(s: string): seq<string>
    decreases |s|
  {
    var n := SpaceAt(s);
    if n == |s| then [s] else [s[..n]] + Words(s[n + 1..])
  }

  function Spaced(words: seq<string>): string {
    if words == [] then "" else if |words| == 1 then words[0] else words[0] + " " + Spaced(words[1..])
  }

  lemma {:induction false} SpaceAtIs(s: string)
    ensures ' ' !in s[..SpaceAt(s)] && (SpaceAt(s) < |s| ==> s[SpaceAt(s)] == ' ')
  {
    if s != "" && s[0] != ' ' {
      SpaceAtIs(s[1..]);
      assert s[..SpaceAt(s)] == [s[0]] + s[1..][..SpaceAt(s[1..])];
    }
  }

  lemma {:induction false} SpaceAfter(a: string, b: string)
    requires ' ' !in a && (b == "" || b[0] == ' ')
    ensures SpaceAt(a + b) == |a|
  {
    if a == "" {
      EmptyConcat(b);
    } else {
      ConcatTail(a, b);
      SpaceAfter(a[1..], b);
    }
  }

  /** The pieces have no space in them, and joined by spaces give the string back. */
  lemma {:induction false} WordsOf(s: string)
    ensures Words(s) != [] && Spaced(Words(s)) == s
    ensures forall w <- Words(s) :: ' ' !in w
    decreases |s|
  {
    var n := SpaceAt(s);
    SpaceAtIs(s);
    hide SpaceAt;
    if n < |s| {
      WordsOf(s[n + 1..]);
      assert s == s[..n] + " " + s[n + 1..];
      assert Words(s)[1..] == Words(s[n + 1..]);
    } else {
      assert s[..n] == s;
    }
  }

  lemma NoSpaceWords(a: string)
    requires ' ' !in a
    ensures Words(a) == [a]
  {
    EmptyConcat(a);
    SpaceAfter(a, "");
  }

  lemma FirstPiece(head: string, tail: string)
    requires ' ' !in head
    ensures Words(head + " " + tail) == [head] + Words(tail)
  {
    var s := head + " " + tail;
    assert s == head + (" " + tail);
    SpaceAfter(head, " " + tail);
    assert s[..|head|] == head && s[|head| + 1..] == tail;
  }

  lemma {:induction false} WordsConcat(a: string, b: string)
    ensures Words(a + " " + b) == Words(a) + Words(b)
    decreases |a|
  {
    var n := SpaceAt(a);
    SpaceAtIs(a);
    hide SpaceAt, Words;
    if n < |a| {
      var head, rest := a[..n], a[n + 1..];
      WordsConcat(rest, b);
      FirstPiece(head, rest);
      FirstPiece(head, rest + " " + b);
      assert a == head + " " + rest;
      assert a + " " + b == head + " " + (rest + " " + b);
      Assoc([head], Words(rest), Words(b));
    } else {
      assert a[..n] == a;
      FirstPiece(a, b);
      NoSpaceWords(a);
    }
  }

  // ---------- the specification ----------

  /** The lines finished so far, and the one being filled. */
  datatype Page = Page(full: seq<string>, line: string)

  function PutChar(p: Page, c: char, width: nat): Page {
    if |p.line| == width then Page(p.full + [p.line], [c]) else Page(p.full, p.line + [c])
  }

  function PutChars(p: Page, word: string, width: nat): Page {
    if word == "" then p else PutChar(PutChars(p, word[..|word| - 1], width), word[|word| - 1], width)
  }

  /** The page with a word on it: on a new line if it does not fit, and broken if it fits on none. */
  function PutWord(p: Page, word: string, width: nat): Page {
    var begun := if |p.line| > 0 && |p.line| + 1 + |word| > width then Page(p.full + [p.line], "") else p;
    var spaced := if |begun.line| > 0 then Page(begun.full, begun.line + " ") else begun;
    if |word| > width then PutChars(spaced, word, width) else Page(spaced.full, spaced.line + word)
  }

  function PutWords(words: seq<string>, width: nat): Page {
    if words == [] then Page([], "") else PutWord(PutWords(words[..|words| - 1], width), words[|words| - 1], width)
  }

  function WrapLine(raw: string, width: nat): seq<string> {
    if |raw| <= width then [raw]
    else
      var p := PutWords(Words(raw), width);
      p.full + [p.line]
  }

  function WrapLines(lines: seq<string>, width: nat): seq<string> {
    if lines == [] then [] else WrapLines(lines[..|lines| - 1], width) + WrapLine(lines[|lines| - 1], width)
  }

  // ---------- no line is too long ----------

  ghost predicate Fits(lines: seq<string>, width: nat) {
    forall line <- lines :: |line| <= width
  }

  ghost predicate PageFits(p: Page, width: nat) {
    Fits(p.full, width) && |p.line| <= width
  }

  lemma {:induction false} CharsFit(p: Page, word: string, width: nat)
    requires PageFits(p, width) && width > 0
    ensures PageFits(PutChars(p, word, width), width)
  {
    if word != "" {
      CharsFit(p, word[..|word| - 1], width);
    }
  }

  lemma WordFits(p: Page, word: string, width: nat)
    requires PageFits(p, width) && width > 0
    ensures PageFits(PutWord(p, word, width), width)
  {
    var begun := if |p.line| > 0 && |p.line| + 1 + |word| > width then Page(p.full + [p.line], "") else p;
    if |word| > width {
      CharsFit(begun, word, width);
    }
  }

  lemma {:induction false} WordsFit(words: seq<string>, width: nat)
    requires width > 0
    ensures PageFits(PutWords(words, width), width)
  {
    if words != [] {
      WordsFit(words[..|words| - 1], width);
      WordFits(PutWords(words[..|words| - 1], width), words[|words| - 1], width);
    }
  }

  /** No line of a wrapped text is longer than the width. */
  lemma {:induction false} WrappedFits(lines: seq<string>, width: nat)
    requires width > 0
    ensures Fits(WrapLines(lines, width), width)
  {
    if lines != [] {
      WrappedFits(lines[..|lines| - 1], width);
      WordsFit(Words(lines[|lines| - 1]), width);
    }
  }

  // ---------- every character other than a space is kept, in order ----------

  function NoSpaces(s: string): string {
    if s == "" then "" else NoSpaces(s[..|s| - 1]) + (if s[|s| - 1] == ' ' then "" else [s[|s| - 1]])
  }

  function Flat(lines: seq<string>): string {
    if lines == [] then "" else Flat(lines[..|lines| - 1]) + lines[|lines| - 1]
  }

  lemma {:induction false} NoSpacesConcat(a: string, b: string)
    ensures NoSpaces(a + b) == NoSpaces(a) + NoSpaces(b)
  {
    if b == "" {
      EmptyConcat(a);
      EmptyConcat(NoSpaces(a));
    } else {
      var init, last := b[..|b| - 1], b[|b| - 1];
      assert (a + b)[..|a + b| - 1] == a + init;
      NoSpacesConcat(a, init);
      Assoc(NoSpaces(a), NoSpaces(init), if last == ' ' then "" else [last]);
    }
  }

  lemma FlatAppend(lines: seq<string>, line: string)
    ensures Flat(lines + [line]) == Flat(lines) + line
  {
    assert (lines + [line])[..|lines|] == lines;
  }

  /** The characters on a page. */
  function Content(p: Page): string {
    Flat(p.full) + p.line
  }

  lemma ContentBreak(p: Page)
    ensures Content(Page(p.full + [p.line], "")) == Content(p)
  {
    FlatAppend(p.full, p.line);
    EmptyConcat(Content(p));
  }

  lemma ContentAdd(full: seq<string>, line: string, more: string)
    ensures Content(Page(full, line + more)) == Content(Page(full, line)) + more
  {
    Assoc(Flat(full), line, more);
  }

  lemma {:induction false} CharsContent(p: Page, word: string, width: nat)
    ensures Content(PutChars(p, word, width)) == Content(p) + word
  {
    if word == "" {
      EmptyConcat(Content(p));
    } else {
      var init, last := word[..|word| - 1], word[|word| - 1];
      var q := PutChars(p, init, width);
      CharsContent(p, init, width);
      SplitLast(word);
      Assoc(Content(p), init, [last]);
      hide Content;
      ContentBreak(q);
      ContentAdd(q.full, q.line, [last]);
      ContentAdd(q.full + [q.line], "", [last]);
      EmptyConcat([last]);
    }
  }

  lemma WordContent(p: Page, word: string, width: nat)
    ensures NoSpaces(Content(PutWord(p, word, width))) == NoSpaces(Content(p)) + NoSpaces(word)
  {
    hide Content, NoSpaces, PutChars;
    var begun := if |p.line| > 0 && |p.line| + 1 + |word| > width then Page(p.full + [p.line], "") else p;
    ContentBreak(p);
    var spaced := if |begun.line| > 0 then Page(begun.full, begun.line + " ") else begun;
    ContentAdd(begun.full, begun.line, " ");
    NoSpacesConcat(Content(begun), " ");
    SpaceIsNone();
    EmptyConcat(NoSpaces(Content(begun)));
    CharsContent(spaced, word, width);
    ContentAdd(spaced.full, spaced.line, word);
    NoSpacesConcat(Content(spaced), word);
  }

  lemma SpaceIsNone()
    ensures NoSpaces(" ") == "" && NoSpaces("") == ""
  {
    assert " "[..0] == "";
  }

  lemma {:induction false} WordsContent(words: seq<string>, width: nat)
    ensures NoSpaces(Content(PutWords(words, width))) == NoSpaces(Flat(words))
  {
    if words != [] {
      var init, last := words[..|words| - 1], words[|words| - 1];
      WordsContent(init, width);
      WordContent(PutWords(init, width), last, width);
      NoSpacesConcat(Flat(init), last);
    }
  }

  lemma {:induction false} SpacedContent(words: seq<string>)
    ensures NoSpaces(Spaced(words)) == NoSpaces(Flat(words))
  {
    hide NoSpaces;
    if |words| == 1 {
      assert words[..0] == [] && Flat(words) == "" + words[0];
      EmptyConcat(words[0]);
    } else if |words| > 1 {
      var rest := words[1..];
      SpacedContent(rest);
      FlatHead(words);
      NoSpacesConcat(words[0] + " ", Spaced(rest));
      NoSpacesConcat(words[0], " ");
      NoSpacesConcat(words[0], Flat(rest));
      SpaceIsNone();
      EmptyConcat(NoSpaces(words[0]));
    }
  }

  lemma {:induction false} FlatHead(words: seq<string>)
    requires words != []
    ensures Flat(words) == words[0] + Flat(words[1..])
  {
    if |words| == 1 {
      assert words[..0] == [];
      EmptyConcat(words[0]);
    } else {
      var init := words[..|words| - 1];
      FlatHead(init);
      assert words[1..][..|words| - 2] == init[1..];
      Assoc(words[0], Flat(init[1..]), words[|words| - 1]);
    }
  }

  /** Wrapping a line keeps its characters other than spaces, all of them and in order. */
  lemma WrapKeepsText(raw: string, width: nat)
    ensures NoSpaces(Flat(WrapLine(raw, width))) == NoSpaces(raw)
  {
    if |raw| <= width {
      FlatAppend([], raw);
      EmptyConcat(raw);
      EmptyConcat([raw]);
    } else {
      var p := PutWords(Words(raw), width);
      WordsContent(Words(raw), width);
      WordsOf(raw);
      SpacedContent(Words(raw));
      FlatAppend(p.full, p.line);
    }
  }

  // ---------- only spaces at a break are lost ----------

  /** The lines put back in order, each after its gap. */
  function Woven(gaps: seq<string>, lines: seq<string>): string
    requires |gaps| == |lines|
  {
    if lines == [] then "" else Woven(gaps[..|gaps| - 1], lines[..|lines| - 1]) + gaps[|gaps| - 1] + lines[|lines| - 1]
  }

  predicate AllSpaces(s: string) {
    forall c <- s :: c == ' '
  }

  /** The lines are all of `raw`, in order, but for spaces between them. */
  ghost predicate Covers(gaps: seq<string>, lines: seq<string>, raw: string) {
    |gaps| == |lines| && (forall g <- gaps :: AllSpaces(g)) && Woven(gaps, lines) == raw
  }

  ghost predicate Covered(lines: seq<string>, raw: string) {
    exists gaps :: Covers(gaps, lines, raw)
  }

  lemma WovenAppend(gaps: seq<string>, lines: seq<string>, gap: string, line: string)
    requires |gaps| == |lines|
    ensures Woven(gaps + [gap], lines + [line]) == Woven(gaps, lines) + gap + line
  {
    assert (gaps + [gap])[..|gaps|] == gaps && (lines + [line])[..|lines|] == lines;
  }

  lemma CoversAppend(gaps: seq<string>, lines: seq<string>, raw: string, gap: string, line: string)
    requires Covers(gaps, lines, raw) && AllSpaces(gap)
    ensures Covers(gaps + [gap], lines + [line], raw + gap + line)
  {
    WovenAppend(gaps, lines, gap, line);
  }

  /** A page that covers a text: its full lines cover `before`, and the line being filled comes after `gap`. */
  ghost predicate PageCovers(gaps: seq<string>, before: string, gap: string, p: Page, raw: string) {
    Covers(gaps, p.full, before) && AllSpaces(gap) && before + gap + p.line == raw
  }

  lemma PageBroken(gaps: seq<string>, before: string, gap: string, p: Page, raw: string)
    requires PageCovers(gaps, before, gap, p, raw)
    ensures PageCovers(gaps + [gap], raw, "", Page(p.full + [p.line], ""), raw)
  {
    CoversAppend(gaps, p.full, before, gap, p.line);
    EmptyConcat(raw);
  }

  lemma PageMore(gaps: seq<string>, before: string, gap: string, p: Page, raw: string, more: string)
    requires PageCovers(gaps, before, gap, p, raw)
    ensures PageCovers(gaps, before, gap, Page(p.full, p.line + more), raw + more)
  {
    Assoc(before + gap, p.line, more);
  }

  lemma PageSpace(gaps: seq<string>, before: string, gap: string, p: Page, raw: string)
    requires PageCovers(gaps, before, gap, p, raw) && p.line == ""
    ensures PageCovers(gaps, before, gap + " ", p, raw + " ")
  {
    Assoc(before, gap, " ");
    EmptyConcat(before + gap);
    EmptyConcat(before + gap + " ");
  }

  lemma {:induction false} CharsCover(gaps: seq<string>, before: string, gap: string, p: Page, raw: string, word: string, width: nat)
      returns (gaps': seq<string>, before': string, gap': string)
    requires PageCovers(gaps, before, gap, p, raw)
    ensures PageCovers(gaps', before', gap', PutChars(p, word, width), raw + word)
  {
    gaps', before', gap' := gaps, before, gap;
    if word == "" {
      EmptyConcat(raw);
    } else {
      var init, last := word[..|word| - 1], word[|word| - 1];
      SplitLast(word);
      gaps', before', gap' := CharsCover(gaps, before, gap, p, raw, init, width);
      Assoc(raw, init, [last]);
      hide PageCovers;
      var q := PutChars(p, init, width);
      if |q.line| == width {
        PageBroken(gaps', before', gap', q, raw + init);
        gaps', before', gap' := gaps' + [gap'], raw + init, "";
        EmptyConcat([last]);
        PageMore(gaps', before', gap', Page(q.full + [q.line], ""), raw + init, [last]);
      } else {
        PageMore(gaps', before', gap', q, raw + init, [last]);
      }
    }
  }

  /** A word on the page covers the space before it too. */
  lemma WordCovers(gaps: seq<string>, before: string, gap: string, p: Page, raw: string, word: string, width: nat)
      returns (gaps': seq<string>, before': string, gap': string)
    requires PageCovers(gaps, before, gap, p, raw)
    ensures PageCovers(gaps', before', gap', PutWord(p, word, width), raw + " " + word)
  {
    hide PageCovers;
    gaps', before', gap' := gaps, before, gap;
    var begun := p;
    if |p.line| > 0 && |p.line| + 1 + |word| > width {
      PageBroken(gaps, before, gap, p, raw);
      begun := Page(p.full + [p.line], "");
      gaps', before', gap' := gaps + [gap], raw, "";
    }
    var spaced := begun;
    if |begun.line| > 0 {
      PageMore(gaps', before', gap', begun, raw, " ");
      spaced := Page(begun.full, begun.line + " ");
    } else {
      PageSpace(gaps', before', gap', begun, raw);
      gap' := gap' + " ";
    }
    if |word| > width {
      gaps', before', gap' := CharsCover(gaps', before', gap', spaced, raw + " ", word, width);
    } else {
      PageMore(gaps', before', gap', spaced, raw + " ", word);
    }
  }

  lemma {:induction false} SpacedLast(words: seq<string>, last: string)
    requires words != []
    ensures Spaced(words + [last]) == Spaced(words) + " " + last
  {
    if |words| > 1 {
      SpacedLast(words[1..], last);
      ConcatTail(words, [last]);
      Assoc(words[0] + " ", Spaced(words[1..]), " ");
      Assoc(words[0] + " ", Spaced(words[1..]) + " ", last);
    }
  }

  lemma FirstWordCovers(word: string, width: nat) returns (gaps: seq<string>, before: string, gap: string)
    ensures PageCovers(gaps, before, gap, PutWords([word], width), word)
  {
    gaps, before, gap := [], "", "";
    assert [word][..0] == [];
    EmptyConcat(word);
    if |word| > width {
      gaps, before, gap := CharsCover([], "", "", Page([], ""), "", word, width);
    }
  }

  lemma {:induction false} WordsCover(words: seq<string>, width: nat) returns (gaps: seq<string>, before: string, gap: string)
    requires words != []
    ensures PageCovers(gaps, before, gap, PutWords(words, width), Spaced(words))
  {
    if |words| == 1 {
      assert words == [words[0]];
      gaps, before, gap := FirstWordCovers(words[0], width);
    } else {
      var init, last := words[..|words| - 1], words[|words| - 1];
      gaps, before, gap := WordsCover(init, width);
      SplitLast(words);
      SpacedLast(init, last);
      hide PageCovers, PutWord, Spaced;
      gaps, before, gap := WordCovers(gaps, before, gap, PutWords(init, width), Spaced(init), last, width);
    }
  }

  /** A line that fits is kept as it is, indentation and all; a longer one is kept but for spaces where
      it is broken. */
  lemma WrapCovers(raw: string, width: nat) returns (gaps: seq<string>)
    ensures |raw| <= width ==> WrapLine(raw, width) == [raw]
    ensures Covers(gaps, WrapLine(raw, width), raw)
  {
    var before, gap;
    if |raw| <= width {
      gaps := [""];
      WovenAppend([], [], "", raw);
      EmptyConcat(raw);
      EmptyConcat([raw]);
      EmptyConcat([""]);
    } else {
      WordsOf(raw);
      gaps, before, gap := WordsCover(Words(raw), width);
      var p := PutWords(Words(raw), width);
      hide Words, PutWords, Spaced;
      CoversAppend(gaps, p.full, before, gap, p.line);
      gaps := gaps + [gap];
    }
  }

  function Joined(parts: seq<seq<string>>): seq<string> {
    if parts == [] then [] else Joined(parts[..|parts| - 1]) + parts[|parts| - 1]
  }

  /** The lines cover one line of the text, and are that line alone when it fits. */
  ghost predicate WrapOf(part: seq<string>, raw: string, width: nat) {
    Covered(part, raw) && (|raw| <= width ==> part == [raw])
  }

  lemma OneMoreWrapped(before: seq<seq<string>>, init: seq<string>, part: seq<string>, last: string, width: nat)
    requires |before| == |init| && WrapOf(part, last, width)
    requires forall i :: 0 <= i < |init| ==> WrapOf(before[i], init[i], width)
    ensures forall i :: 0 <= i < |init| + 1 ==> WrapOf((before + [part])[i], (init + [last])[i], width)
  {
    hide WrapOf;
  }

  /** A text is wrapped line by line: each of its lines has lines of its own. */
  lemma {:induction false} WrapLinesCover(lines: seq<string>, width: nat) returns (parts: seq<seq<string>>)
    ensures |parts| == |lines| && Joined(parts) == WrapLines(lines, width)
    ensures forall i :: 0 <= i < |lines| ==> WrapOf(parts[i], lines[i], width)
  {
    if lines == [] {
      parts := [];
    } else {
      var init, last := lines[..|lines| - 1], lines[|lines| - 1];
      var before := WrapLinesCover(init, width);
      var gaps := WrapCovers(last, width);
      assert WrapOf(WrapLine(last, width), last, width);
      parts := before + [WrapLine(last, width)];
      assert parts[..|before|] == before;
      SplitLast(lines);
      hide WrapLine, WrapOf;
      OneMoreWrapped(before, init, WrapLine(last, width), last, width);
    }
  }

  // ---------- words that fit are never broken ----------

  function NonEmpty(words: seq<string>): seq<string> {
    if words == [] then []
    else NonEmpty(words[..|words| - 1]) + (if words[|words| - 1] == "" then [] else [words[|words| - 1]])
  }

  lemma {:induction false} NonEmptyConcat(a: seq<string>, b: seq<string>)
    ensures NonEmpty(a + b) == NonEmpty(a) + NonEmpty(b)
  {
    if b == [] {
      EmptyConcat(a);
      EmptyConcat(NonEmpty(a));
    } else {
      var init, last := b[..|b| - 1], b[|b| - 1];
      assert (a + b)[..|a + b| - 1] == a + init;
      NonEmptyConcat(a, init);
      Assoc(NonEmpty(a), NonEmpty(init), if last == "" then [] else [last]);
    }
  }

  /** The words on a number of lines, without the empty ones. */
  function WordsIn(lines: seq<string>): seq<string> {
    if lines == [] then [] else WordsIn(lines[..|lines| - 1]) + NonEmpty(Words(lines[|lines| - 1]))
  }

  lemma WordsInAppend(lines: seq<string>, line: string)
    ensures WordsIn(lines + [line]) == WordsIn(lines) + NonEmpty(Words(line))
  {
    assert (lines + [line])[..|lines|] == lines;
  }

  function PageWords(p: Page): seq<string> {
    WordsIn(p.full) + NonEmpty(Words(p.line))
  }

  lemma OneWord(word: string)
    requires ' ' !in word
    ensures NonEmpty(Words(word)) == NonEmpty([word])
  {
    NoSpaceWords(word);
  }

  lemma PageBreakWords(p: Page)
    ensures PageWords(Page(p.full + [p.line], "")) == PageWords(p)
  {
    WordsInAppend(p.full, p.line);
    NoSpaceWords("");
    assert NonEmpty([""]) == [];
    EmptyConcat(PageWords(p));
  }

  lemma FittingWord(p: Page, word: string, width: nat)
    requires |word| <= width && ' ' !in word
    ensures PageWords(PutWord(p, word, width)) == PageWords(p) + NonEmpty([word])
  {
    PageBreakWords(p);
    OneWord(word);
    OneWord("");
    assert NonEmpty([""]) == [];
    var begun := if |p.line| > 0 && |p.line| + 1 + |word| > width then Page(p.full + [p.line], "") else p;
    hide Words, NonEmpty, WordsIn;
    if |begun.line| > 0 {
      WordsConcat(begun.line, word);
      NonEmptyConcat(Words(begun.line), Words(word));
      Assoc(WordsIn(begun.full), NonEmpty(Words(begun.line)), NonEmpty(Words(word)));
    } else {
      EmptyConcat(word);
      EmptyConcat(WordsIn(begun.full));
    }
  }

  lemma {:induction false} FittingWords(words: seq<string>, width: nat)
    requires forall w <- words :: |w| <= width && ' ' !in w
    ensures PageWords(PutWords(words, width)) == NonEmpty(words)
  {
    if words == [] {
      OneWord("");
      assert NonEmpty([""]) == [];
    } else {
      var init, last := words[..|words| - 1], words[|words| - 1];
      FittingWords(init, width);
      FittingWord(PutWords(init, width), last, width);
      assert last in words;
      assert NonEmpty([last]) == if last == "" then [] else [last];
    }
  }

  /** When every word fits in the width, the wrapped lines hold exactly the line's words, in order. */
  lemma WrapKeepsWords(raw: string, width: nat)
    requires forall w <- Words(raw) :: |w| <= width
    ensures WordsIn(WrapLine(raw, width)) == NonEmpty(Words(raw))
  {
    if |raw| <= width {
      WordsInAppend([], raw);
      EmptyConcat([raw]);
      EmptyConcat(NonEmpty(Words(raw)));
    } else {
      var p := PutWords(Words(raw), width);
      WordsOf(raw);
      FittingWords(Words(raw), width);
      WordsInAppend(p.full, p.line);
    }
  }

  // ---------- lines are broken only where they must be ----------

  /** No line could have taken the first word of the next one. */
  ghost predicate Tight(lines: seq<string>, width: nat) {
    forall i :: 0 <= i < |lines| - 1 ==> |lines[i]| + 1 + SpaceAt(lines[i + 1]) > width
  }

  lemma {:induction false} FirstWordGrows(line: string, more: string)
    ensures SpaceAt(line + more) >= SpaceAt(line)
    ensures ' ' !in line + more ==> SpaceAt(line + more) == |line + more|
  {
    if line + more != "" {
      if line == "" {
        EmptyConcat(more);
        SpaceAtIs(more);
        if SpaceAt(more) < |more| {
          assert more[SpaceAt(more)] in more;
        }
      } else {
        ConcatTail(line, more);
        FirstWordGrows(line[1..], more);
      }
    }
  }

  lemma TightGrows(full: seq<string>, line: string, more: string, width: nat)
    requires Tight(full + [line], width)
    ensures Tight(full + [line + more], width)
  {
    FirstWordGrows(line, more);
    var a, b := full + [line], full + [line + more];
    forall i | 0 <= i < |b| - 1
      ensures |b[i]| + 1 + SpaceAt(b[i + 1]) > width
    {
      assert |a[i]| + 1 + SpaceAt(a[i + 1]) > width;
    }
  }

  lemma TightBreak(full: seq<string>, line: string, next: string, width: nat)
    requires Tight(full + [line], width) && |line| + 1 + SpaceAt(next) > width
    ensures Tight(full + [line] + [next], width)
  {
    var a, b := full + [line], full + [line] + [next];
    forall i | 0 <= i < |b| - 1
      ensures |b[i]| + 1 + SpaceAt(b[i + 1]) > width
    {
      if i < |a| - 1 {
        assert |a[i]| + 1 + SpaceAt(a[i + 1]) > width;
      }
    }
  }

  /** Filling lines with the characters of a long word, from a line too short to break before. */
  lemma {:induction false} CharsTight(full: seq<string>, line: string, word: string, n: nat, width: nat)
    requires Tight(full + [line], width) && n <= |word| && |word| > width > 0 && ' ' !in word
    ensures var p := PutChars(Page(full + [line], ""), word[..n], width);
            if n <= width then p == Page(full + [line], word[..n]) else Tight(p.full + [p.line], width) && p.line != ""
  {
    if n > 0 {
      var prefix := word[..n];
      assert prefix[..n - 1] == word[..n - 1] && prefix == word[..n - 1] + [word[n - 1]];
      CharsTight(full, line, word, n - 1, width);
      var p := PutChars(Page(full + [line], ""), word[..n - 1], width);
      if n == width + 1 {
        EmptyConcat(word[..width]);
        FirstWordGrows(word[..width], "");
        TightBreak(full, line, word[..width], width);
        TightBreak(full + [line], word[..width], [word[n - 1]], width);
      } else if n > width + 1 {
        if |p.line| == width {
          TightBreak(p.full, p.line, [word[n - 1]], width);
        } else {
          TightGrows(p.full, p.line, [word[n - 1]], width);
        }
      }
    }
  }

  lemma {:induction false} MoreCharsTight(p: Page, word: string, width: nat)
    requires Tight(p.full + [p.line], width)
    ensures var q := PutChars(p, word, width); Tight(q.full + [q.line], width)
  {
    if word != "" {
      var init, last := word[..|word| - 1], word[|word| - 1];
      MoreCharsTight(p, init, width);
      var q := PutChars(p, init, width);
      if |q.line| == width {
        TightBreak(q.full, q.line, [last], width);
      } else {
        TightGrows(q.full, q.line, [last], width);
      }
    }
  }

  lemma WordTight(p: Page, word: string, width: nat)
    requires Tight(p.full + [p.line], width) && width > 0 && ' ' !in word
    ensures var q := PutWord(p, word, width); Tight(q.full + [q.line], width)
  {
    hide Tight, SpaceAt;
    if |p.line| > 0 && |p.line| + 1 + |word| > width {
      if |word| > width {
        CharsTight(p.full, p.line, word, |word|, width);
        assert word[..|word|] == word;
      } else {
        EmptyConcat(word);
        FirstWordGrows(word, "");
        TightBreak(p.full, p.line, word, width);
      }
    } else {
      if |p.line| > 0 {
        TightGrows(p.full, p.line, " ", width);
      }
      var spaced := if |p.line| > 0 then Page(p.full, p.line + " ") else p;
      if |word| > width {
        MoreCharsTight(spaced, word, width);
      } else {
        TightGrows(spaced.full, spaced.line, word, width);
      }
    }
  }

  lemma {:induction false} WordsTight(words: seq<string>, width: nat)
    requires width > 0 && forall w <- words :: ' ' !in w
    ensures var p := PutWords(words, width); Tight(p.full + [p.line], width)
  {
    if words != [] {
      var init, last := words[..|words| - 1], words[|words| - 1];
      WordsTight(init, width);
      assert last in words;
      WordTight(PutWords(init, width), last, width);
    }
  }

  /** A wrapped line is broken only where the next word, or what fits of it, would not fit. */
  lemma WrapIsTight(raw: string, width: nat)
    requires width > 0
    ensures Tight(WrapLine(raw, width), width)
  {
    WordsOf(raw);
    WordsTight(Words(raw), width);
  }

  // ---------- the wrapper ----------

  /** Add a word longer than the width character by character, starting new lines as they fill. */
  method BreakWord(word: string, width: nat, full: seq<string>, line: string) returns (out: seq<string>, last: string)
    ensures Page(out, last) == PutChars(Page(full, line), word, width)
  {
    out, last := full, line;
    var count := |line|;
    var n := 0;
    assert word[..0] == "";
    while n < |word|
      invariant n <= |word| && count == |last|
      invariant Page(out, last) == PutChars(Page(full, line), word[..n], width)
    {
      assert word[..n + 1][..n] == word[..n];
      if count == width {
        out := out + [last];
        last, count := "", 0;
        EmptyConcat([word[n]]);
      }
      last := last + [word[n]];
      count := count + 1;
      n := n + 1;
    }
    assert word[..n] == word;
  }

  /** Wrap one line that is too long, word by word. */
  method WrapLong(raw: string, width: nat) returns (out: seq<string>)
    requires |raw| > width
    ensures out == WrapLine(raw, width)
  {
    var words := Words(raw);
    out := [];
    var line, count := "", 0;
    assert words[..0] == [];
    for k := 0 to |words|
      invariant count == |line| && Page(out, line) == PutWords(words[..k], width)
    {
      var word := words[k];
      assert words[..k + 1][..k] == words[..k];
      ghost var before := Page(out, line);
      if count > 0 && count + 1 + |word| > width {
        out := out + [line];
        line, count := "", 0;
      }
      if count > 0 {
        line := line + " ";
        count := count + 1;
      }
      if |word| > width {
        out, line := BreakWord(word, width, out, line);
        count := |line|;
      } else {
        line := line + word;
        count := count + |word|;
      }
      assert Page(out, line) == PutWord(before, word, width);
    }
    assert words[..|words|] == words;
    out := out + [line];
  }

  /** Wrap a text to the width left beside an indent; an empty text is one empty line. */
  method Wrapped(columns: nat, text: string, indent: nat) returns (out: seq<string>)
    ensures var all := WrapLines(Lines(text), Width(columns, indent)); out == if all == [] then [""] else all
    ensures Fits(out, Width(columns, indent))
  {
    var left := if columns >= indent then columns - indent else 0;
    var width := if left > MIN_WIDTH then left else MIN_WIDTH;
    var lines := Lines(text);
    hide Lines, PutWords, Words;
    out := [];
    assert lines[..0] == [];
    for i := 0 to |lines|
      invariant out == WrapLines(lines[..i], width)
    {
      var raw := lines[i];
      assert lines[..i + 1][..i] == lines[..i];
      if |raw| <= width {
        out := out + [raw];
      } else {
        var wrapped := WrapLong(raw, width);
        out := out + wrapped;
      }
    }
    assert lines[..|lines|] == lines;
    WrappedFits(lines, width);
    if out == [] {
      out := [""];
    }
  }
}
