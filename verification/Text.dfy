// Lines of a text, as the terminal scanners and the word wrapper read them.
module Text {
  import opened Common

  function WithoutReturn(line: string): string {
    if line != "" && line[|line| - 1] == '\r' then line[..|line| - 1] else line
  }

  /** The position of the first newline, or the length. */
  function LineEnd(text: string): (n: nat)
    ensures n <= |text| && '\n' !in text[..n] && (n < |text| ==> text[n] == '\n')
  {
    if text == "" || text[0] == '\n' then 0
    else
      assert forall n: nat :: n <= |text| - 1 ==> text[..n + 1] == [text[0]] + text[1..][..n];
      LineEnd(text[1..]) + 1
  }

  /** The lines of a text: each ends at a newline, or a carriage return and a newline, and a text
      that ends in one has no empty line after it. */
  function Lines(text: string): seq<string>
    decreases |text|
  {
    if text == "" then []
    else
      var n := LineEnd(text);
      if n == |text| then [text] else [WithoutReturn(text[..n])] + Lines(text[n + 1..])
  }

  /** Lines put back together, each with its newline. */
  function Unlines(lines: seq<string>): string {
    if lines == [] then "" else lines[0] + "\n" + Unlines(lines[1..])
  }

  /** What splitting keeps of a text: all of it, with its final newline. */
  function Ended(text: string): string {
    if text == "" || text[|text| - 1] == '\n' then text else text + "\n"
  }

  lemma EndedAfter(line: string, rest: string)
    ensures Ended(line + "\n" + rest) == line + "\n" + Ended(rest)
  {
    var text := line + "\n" + rest;
    if rest == "" {
      assert text == line + "\n";
    } else {
      assert text[|text| - 1] == rest[|rest| - 1];
      assert text + "\n" == line + "\n" + (rest + "\n");
    }
  }

  lemma FirstLine(text: string, n: nat)
    requires n < |text| && text[n] == '\n' && '\n' !in text[..n]
    ensures text == text[..n] + "\n" + text[n + 1..]
    ensures '\n' !in WithoutReturn(text[..n])
    ensures '\r' !in text ==> WithoutReturn(text[..n]) == text[..n] && '\r' !in text[n + 1..]
  {
    assert forall c <- text[..n] :: c in text;
    assert forall c <- text[n + 1..] :: c in text;
  }

  /** Splitting a text without carriage returns loses nothing but a missing final newline. */
  lemma {:induction false} LinesOfText(text: string)
    ensures forall line <- Lines(text) :: '\n' !in line
    ensures '\r' !in text ==> Unlines(Lines(text)) == Ended(text)
    decreases |text|
  {
    if text != "" {
      var n := LineEnd(text);
      hide LineEnd, WithoutReturn;
      if n < |text| {
        var line, rest := text[..n], text[n + 1..];
        LinesOfText(rest);
        FirstLine(text, n);
        EndedAfter(line, rest);
        hide Ended;
        assert Lines(text) == [WithoutReturn(line)] + Lines(rest);
        assert Unlines(Lines(text)) == WithoutReturn(line) + "\n" + Unlines(Lines(rest));
      } else {
        assert text[..n] == text;
        assert Unlines([text]) == text + "\n" + Unlines([]);
      }
    }
  }

  lemma {:induction false} LineEndAfter(line: string, rest: string)
    requires '\n' !in line
    ensures LineEnd(line + "\n" + rest) == |line|
    ensures (line + "\n" + rest)[..|line|] == line && (line + "\n" + rest)[|line| + 1..] == rest
  {
    if line != "" {
      assert (line + "\n" + rest)[1..] == line[1..] + "\n" + rest;
      LineEndAfter(line[1..], rest);
    }
  }

  /** Lines without newlines, and not ending in a carriage return, come back from their text. */
  lemma {:induction false} LinesOfUnlines(lines: seq<string>)
    requires forall line <- lines :: '\n' !in line && (line != "" ==> line[|line| - 1] != '\r')
    ensures Lines(Unlines(lines)) == lines
  {
    if lines != [] {
      LinesOfUnlines(lines[1..]);
      var rest := Unlines(lines[1..]);
      LineEndAfter(lines[0], rest);
      assert WithoutReturn(lines[0]) == lines[0];
      hide LineEnd, Unlines, WithoutReturn;
      assert Lines(lines[0] + "\n" + rest) == [lines[0]] + Lines(rest);
    }
  }

  lemma {:induction false} NoLineEnd(a: string)
    requires '\n' !in a
    ensures LineEnd(a) == |a|
  {
    if a != "" {
      NoLineEnd(a[1..]);
    }
  }

  /** A line ends at its first newline, and a carriage return right before that goes with it; without
      a newline the text is one line, if there is any. */
  lemma LinesEnd(a: string, b: string)
    requires '\n' !in a
    ensures Lines(a) == if a == "" then [] else [a]
    ensures Lines(a + "\r\n" + b) == [a] + Lines(b)
    ensures a == "" || a[|a| - 1] != '\r' ==> Lines(a + "\n" + b) == [a] + Lines(b)
  {
    var cr := a + "\r";
    assert a + "\r\n" + b == cr + "\n" + b && cr[..|a|] == a;
    LineEndAfter(a, b);
    LineEndAfter(cr, b);
    NoLineEnd(a);
    hide LineEnd;
    assert Lines(cr + "\n" + b) == [WithoutReturn(cr)] + Lines(b);
    assert Lines(a + "\n" + b) == [WithoutReturn(a)] + Lines(b);
  }
}
