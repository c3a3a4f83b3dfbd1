// The hand-written scanners that read an agent's terminal screen.
module Scanners {
  import opened Common
  import opened Text

  // ---------- live timers: \(\d+m \d+s or \(\d+s\b ----------

  /** An opening parenthesis at `i` and at least one digit after it, up to position `j`. */
  predicate OpensDigits(b: string, i: nat, j: nat) {
    i + 1 < j < |b| && b[i] == '(' && forall k :: i < k < j ==> IsDigit(b[k])
  }

  predicate MinutesTimer(b: string, i: nat, j: nat, k: nat) {
    && OpensDigits(b, i, j) && b[j] == 'm' && j + 2 < k < |b| && b[j + 1] == ' '
    && (forall n :: j + 2 <= n < k ==> IsDigit(b[n])) && b[k] == 's'
  }

  predicate SecondsTimer(b: string, i: nat, j: nat, alnum: char -> bool) {
    OpensDigits(b, i, j) && b[j] == 's' && (j + 1 == |b| || !(alnum(b[j + 1]) || b[j + 1] == '_'))
  }

  ghost predicate TimerAt(b: string, i: nat, alnum: char -> bool) {
    (exists j, k :: MinutesTimer(b, i, j, k)) || (exists j :: SecondsTimer(b, i, j, alnum))
  }

  /** No timer opens at `i` when none continues its longest run of digits. */
  lemma NoTimerAt(b: string, i: nat, j: nat, alnum: char -> bool)
    requires i < j <= |b| && (forall n :: i < n < j ==> IsDigit(b[n])) && (j < |b| ==> !IsDigit(b[j]))
    requires !SecondsTimer(b, i, j, alnum) && forall k :: !MinutesTimer(b, i, j, k)
    ensures !TimerAt(b, i, alnum)
  {
    forall j', k
      ensures !MinutesTimer(b, i, j', k)
    {
    }
    forall j'
      ensures !SecondsTimer(b, i, j', alnum)
    {
    }
  }

  /** Whether a timer occurs. */
  method HasLiveTimer(b: string, alnum: char -> bool) returns (r: bool)
    ensures r <==> exists i :: TimerAt(b, i, alnum)
  {
    var i := 0;
    while i < |b|
      invariant forall n :: 0 <= n < i ==> !TimerAt(b, n, alnum)
    {
      if b[i] != '(' {
        i := i + 1;
        continue;
      }
      var j := i + 1;
      var d0 := j;
      while j < |b| && IsDigit(b[j])
        invariant i < j <= |b| && forall n :: i < n < j ==> IsDigit(b[n])
      {
        j := j + 1;
      }
      if j > d0 && j < |b| {
        if b[j] == 'm' && j + 1 < |b| && b[j + 1] == ' ' {
          var k := j + 2;
          var d1 := k;
          while k < |b| && IsDigit(b[k])
            invariant j + 2 <= k <= |b| && forall n :: j + 2 <= n < k ==> IsDigit(b[n])
          {
            k := k + 1;
          }
          if k > d1 && k < |b| && b[k] == 's' {
            assert MinutesTimer(b, i, j, k) && TimerAt(b, i, alnum);
            return true;
          }
          assert forall k' :: MinutesTimer(b, i, j, k') ==> k' == k;
        } else if b[j] == 's' {
          var boundary := j + 1 >= |b| || (!alnum(b[j + 1]) && b[j + 1] != '_');
          if boundary {
            assert SecondsTimer(b, i, j, alnum) && TimerAt(b, i, alnum);
            return true;
          }
        }
      }
      NoTimerAt(b, i, j, alnum);
      forall n | i < n < j
        ensures !TimerAt(b, n, alnum)
      {
        assert b[n] != '(';
      }
      i := if j > i + 1 then j else i + 1;
    }
    r := false;
  }

  // ---------- pointer menus ----------

  const CARET: char := '\U{276F}'

  predicate IsPointer(c: char) {
    c == CARET || c == '>'
  }

  function TrimStart(s: string): (r: string)
    ensures |r| <= |s| && r == s[|s| - |r|..] && IsBlank(s[..|s| - |r|])
    ensures r == "" || !IsWhitespace(r[0])
  {
    if s != "" && IsWhitespace(s[0]) then
      var r := TrimStart(s[1..]);
      assert s[..|s| - |r|] == [s[0]] + s[1..][..|s| - 1 - |r|];
      r
    else s
  }

  /** How many ASCII digits the string starts with. */
  function LeadingDigits(s: string): (n: nat)
    ensures n <= |s| && (forall k :: 0 <= k < n ==> IsDigit(s[k])) && (n < |s| ==> !IsDigit(s[n]))
  {
    if s == "" || !IsDigit(s[0]) then 0 else LeadingDigits(s[1..]) + 1
  }

  /** A numbered menu line: indent, perhaps a pointer, "N." or "N)", then a label that is not blank. */
  function ParseOption(line: string): Option<(bool, nat)> {
    var s := TrimStart(line);
    var pointed := s != "" && IsPointer(s[0]);
    ParseNumber(if pointed then TrimStart(s[1..]) else s, pointed)
  }

  function ParseNumber(s: string, pointed: bool): Option<(bool, nat)> {
    var digits := LeadingDigits(s);
    var rest := s[digits..];
    if digits == 0 || rest == "" || (rest[0] != '.' && rest[0] != ')') then None
    else
      var after := rest[1..];
      if after == "" || !IsWhitespace(after[0]) || IsBlank(after) || DecimalValue(s[..digits]) > MAX_U32 then None
      else Some((pointed, DecimalValue(s[..digits])))
  }

  /** The parts of an option line. */
  ghost predicate OptionParts(line: string, indent: string, pointer: string, digits: string, close: char, caption: string) {
    && IsBlank(indent) && line == indent + pointer + digits + [close] + caption
    && (pointer == "" || (IsPointer(pointer[0]) && IsBlank(pointer[1..])))
    && digits != "" && (forall c <- digits :: IsDigit(c)) && DecimalValue(digits) <= MAX_U32
    && (close == '.' || close == ')')
    && caption != "" && IsWhitespace(caption[0]) && !IsBlank(caption)
  }

  lemma {:induction false} TrimmedAfter(blank: string, s: string)
    requires IsBlank(blank) && (s == "" || !IsWhitespace(s[0]))
    ensures TrimStart(blank + s) == s
  {
    if blank == "" {
      EmptyConcat(s);
    } else {
      ConcatTail(blank, s);
      TrimmedAfter(blank[1..], s);
    }
  }

  lemma {:induction false} LeadingExactly(digits: string, rest: string)
    requires (forall c <- digits :: IsDigit(c)) && (rest == "" || !IsDigit(rest[0]))
    ensures LeadingDigits(digits + rest) == |digits|
  {
    if digits == "" {
      EmptyConcat(rest);
    } else {
      ConcatTail(digits, rest);
      LeadingExactly(digits[1..], rest);
    }
  }

  lemma NumberParsed(digits: string, close: char, caption: string, pointed: bool)
    requires digits != "" && (forall c <- digits :: IsDigit(c)) && DecimalValue(digits) <= MAX_U32
    requires (close == '.' || close == ')') && caption != "" && IsWhitespace(caption[0]) && !IsBlank(caption)
    ensures ParseNumber(digits + [close] + caption, pointed) == Some((pointed, DecimalValue(digits)))
  {
    var s := digits + ([close] + caption);
    Assoc(digits, [close], caption);
    LeadingExactly(digits, [close] + caption);
    assert s[..|digits|] == digits && s[|digits|..] == [close] + caption && ([close] + caption)[1..] == caption;
  }

  /** Every line made of the parts of an option is read as one, with its pointer and its number. */
  lemma OptionRead(line: string, indent: string, pointer: string, digits: string, close: char, caption: string)
    requires OptionParts(line, indent, pointer, digits, close, caption)
    ensures ParseOption(line) == Some((pointer != "", DecimalValue(digits)))
  {
    hide TrimStart, ParseNumber, DecimalValue, LeadingDigits;
    var number := digits + [close] + caption;
    NumberParsed(digits, close, caption, pointer != "");
    NumberFirst(digits, close, caption);
    Regroup(indent, pointer, digits, close, caption);
    if pointer == "" {
      EmptyConcat(number);
      TrimmedAfter(indent, number);
    } else {
      ConcatTail(pointer, number);
      TrimmedAfter(indent, pointer + number);
      TrimmedAfter(pointer[1..], number);
    }
  }

  lemma NumberFirst(digits: string, close: char, caption: string)
    requires digits != "" && forall c <- digits :: IsDigit(c)
    ensures var number := digits + [close] + caption;
            number != "" && !IsWhitespace(number[0]) && !IsPointer(number[0])
  {
    assert digits[0] in digits;
  }

  lemma Regroup(indent: string, pointer: string, digits: string, close: char, caption: string)
    ensures indent + pointer + digits + [close] + caption == indent + (pointer + (digits + [close] + caption))
  {
    Assoc(indent, pointer, digits);
    Assoc(indent, pointer + digits, [close]);
    Assoc(indent, pointer + digits + [close], caption);
    Assoc(pointer, digits, [close]);
    Assoc(pointer, digits + [close], caption);
  }

  lemma NumberHasParts(s: string, pointed: bool) returns (digits: string, close: char, caption: string)
    requires ParseNumber(s, pointed).Some?
    ensures OptionParts(s, "", "", digits, close, caption) && s == digits + [close] + caption
    ensures ParseNumber(s, pointed) == Some((pointed, DecimalValue(digits)))
  {
    var n := LeadingDigits(s);
    digits, close, caption := s[..n], s[n], s[n + 1..];
    assert s[n..][1..] == caption;
    assert s == digits + [close] + caption;
    EmptyConcat(digits);
  }

  lemma CutFront(s: string, r: string)
    requires |r| <= |s| && r == s[|s| - |r|..]
    ensures s == s[..|s| - |r|] + r
  {
  }

  /** And every line read as an option is made of such parts. */
  lemma OptionHasParts(line: string) returns (indent: string, pointer: string, digits: string, close: char, caption: string)
    requires ParseOption(line).Some?
    ensures OptionParts(line, indent, pointer, digits, close, caption)
    ensures ParseOption(line) == Some((pointer != "", DecimalValue(digits)))
  {
    hide TrimStart, ParseNumber, DecimalValue, LeadingDigits;
    var s := TrimStart(line);
    indent := line[..|line| - |s|];
    CutFront(line, s);
    if s != "" && IsPointer(s[0]) {
      var number := TrimStart(s[1..]);
      digits, close, caption := NumberHasParts(number, true);
      pointer := [s[0]] + s[1..][..|s| - 1 - |number|];
      CutFront(s[1..], number);
      HeadJoins(s, s[1..][..|s| - 1 - |number|], number);
      Regroup(indent, pointer, digits, close, caption);
    } else {
      digits, close, caption := NumberHasParts(s, false);
      pointer := "";
      EmptyConcat(s);
      Regroup(indent, pointer, digits, close, caption);
    }
  }

  lemma HeadJoins(s: string, blank: string, number: string)
    requires s != "" && s[1..] == blank + number
    ensures s == [s[0]] + blank + number && ([s[0]] + blank)[1..] == blank
  {
  }

  /** Lines `i` up to `j` are options numbered from 1. */
  ghost predicate Numbered(lines: seq<string>, i: nat, j: nat) {
    i <= j <= |lines| && forall k :: i <= k < j ==> ParseOption(lines[k]).Some? && ParseOption(lines[k]).value.1 == k - i + 1
  }

  predicate PointedAt(line: string) {
    ParseOption(line).Some? && ParseOption(line).value.0
  }

  /** At least two lines numbered from 1, one of them pointed at. */
  ghost predicate MenuAt(lines: seq<string>, i: nat, j: nat) {
    Numbered(lines, i, j) && j - i >= 2 && exists k :: i <= k < j && PointedAt(lines[k])
  }

  ghost predicate HasMenu(lines: seq<string>) {
    exists i, j :: MenuAt(lines, i, j)
  }

  /** A menu inside or across a longest numbered run is part of it from its start. */
  lemma RunHasNoMenu(lines: seq<string>, i: nat, j: nat, n: nat, m: nat)
    requires Numbered(lines, i, j) && !MenuAt(lines, i, j)
    requires j == |lines| || ParseOption(lines[j]).None? || ParseOption(lines[j]).value.1 != j - i + 1
    requires i <= n < (if j > i then j else i + 1)
    ensures !MenuAt(lines, n, m)
  {
    hide ParseOption;
    if n < |lines| {
      var first := lines[n];
    }
  }

  method HasPointerMenu(text: string) returns (r: bool)
    ensures r <==> HasMenu(Lines(text))
  {
    var lines := Lines(text);
    hide ParseOption, Lines;
    var i := 0;
    while i < |lines|
      invariant forall n, m :: 0 <= n < i ==> !MenuAt(lines, n, m)
    {
      var j, expected, pointed := i, 1, false;
      while j < |lines|
        invariant i <= j && Numbered(lines, i, j) && expected == j - i + 1
        invariant pointed <==> exists k :: i <= k < j && PointedAt(lines[k])
      {
        var option := ParseOption(lines[j]);
        if option.None? || option.value.1 != expected {
          break;
        }
        assert PointedAt(lines[j]) == option.value.0;
        pointed := pointed || option.value.0;
        expected := expected + 1;
        j := j + 1;
      }
      if j - i >= 2 && pointed {
        assert MenuAt(lines, i, j);
        return true;
      }
      forall n, m | i <= n < (if j > i then j else i + 1)
        ensures !MenuAt(lines, n, m)
      {
        RunHasNoMenu(lines, i, j, n, m);
      }
      i := if j > i then j else i + 1;
    }
    r := false;
  }

  // ---------- whole words ----------

  type Byte = b: int | 0 <= b < 256

  predicate WordByte(b: Byte) {
    || '0' as int <= b <= '9' as int || 'a' as int <= b <= 'z' as int || 'A' as int <= b <= 'Z' as int
    || b == '_' as int
  }

  predicate OccursAt(h: seq<Byte>, w: seq<Byte>, p: nat) {
    p + |w| <= |h| && h[p..p + |w|] == w
  }

  /** The first occurrence at or after a position. */
  function NextAt(h: seq<Byte>, w: seq<Byte>, from: nat): (r: Option<nat>)
    ensures r.Some? ==> from <= r.value && OccursAt(h, w, r.value)
    decreases |h| - from
  {
    if from + |w| > |h| then None
    else if OccursAt(h, w, from) then Some(from)
    else NextAt(h, w, from + 1)
  }

  lemma {:induction false} NextIsFirst(h: seq<Byte>, w: seq<Byte>, from: nat, p: nat)
    requires from <= p && OccursAt(h, w, p)
    ensures NextAt(h, w, from).Some? && NextAt(h, w, from).value <= p
    decreases p - from
  {
    if !OccursAt(h, w, from) {
      NextIsFirst(h, w, from + 1, p);
    }
  }

  /** The word occurs at `p` with no word byte on either side. */
  predicate WholeAt(h: seq<Byte>, w: seq<Byte>, p: nat) {
    && OccursAt(h, w, p)
    && (p == 0 || !WordByte(h[p - 1]))
    && (p + |w| >= |h| || !WordByte(h[p + |w|]))
  }

  /** Some occurrence that the scan stops at, skipping those it jumps over, is a whole word. */
  predicate Found(h: seq<Byte>, w: seq<Byte>, start: nat)
    requires w != []
    decreases |h| - start
  {
    var next := NextAt(h, w, start);
    next.Some? && (WholeAt(h, w, next.value) || Found(h, w, next.value + |w|))
  }

  lemma FoundStep(h: seq<Byte>, w: seq<Byte>, start: nat)
    requires w != []
    ensures var next := NextAt(h, w, start);
            && (next.Some? ==> next.value + |w| <= |h|)
            && Found(h, w, start) == (next.Some? && (WholeAt(h, w, next.value) || Found(h, w, next.value + |w|)))
  {
  }

  /** One step of the scan, from a position. */
  lemma ScanStep(h: seq<Byte>, w: seq<Byte>, start: nat, at: nat)
    requires NextAt(h, w, start) == Some(at)
    ensures start <= at && at + |w| <= |h|
    ensures WholeAt(h, w, at) <==> (at == 0 || !WordByte(h[at - 1])) && (at + |w| >= |h| || !WordByte(h[at + |w|]))
    ensures w != [] ==> Found(h, w, start) == (WholeAt(h, w, at) || Found(h, w, at + |w|))
  {
  }

  /** The scan ends: the empty word occurs everywhere, so it must match at the start at once. */
  predicate ScanEnds(h: seq<Byte>, w: seq<Byte>) {
    w != [] || WholeAt(h, w, 0)
  }

  lemma EmptyWordMatches(h: seq<Byte>, w: seq<Byte>)
    requires ScanEnds(h, w)
    ensures w == [] ==> NextAt(h, w, 0) == Some(0) && WholeAt(h, w, 0)
  {
  }

  /** Otherwise the scan of the empty word stays where it is for good. */
  lemma EmptyWordStays(h: seq<Byte>, w: seq<Byte>)
    requires !ScanEnds(h, w)
    ensures NextAt(h, w, 0) == Some(0) && !WholeAt(h, w, 0) && 0 + |w| == 0
  {
    assert h[0..0] == w;
  }

  method IsWordMatch(h: seq<Byte>, w: seq<Byte>) returns (r: bool)
    requires ScanEnds(h, w)
    ensures r == (w == [] || Found(h, w, 0))
  {
    EmptyWordMatches(h, w);
    hide *;
    var start := 0;
    var next := NextAt(h, w, start);
    while next.Some?
      invariant next == NextAt(h, w, start)
      invariant if |w| == 0 then start == 0 && next.Some? else Found(h, w, 0) == Found(h, w, start)
      decreases |h| - start
    {
      var abs := next.value;
      ScanStep(h, w, start, abs);
      var beforeOk := abs == 0 || !WordByte(h[abs - 1]);
      var afterIdx := abs + |w|;
      var afterOk := afterIdx >= |h| || !WordByte(h[afterIdx]);
      if beforeOk && afterOk {
        return true;
      }
      start := abs + |w|;
      next := NextAt(h, w, start);
    }
    if |w| > 0 {
      FoundStep(h, w, start);
    }
    r := false;
  }

  /** The word overlaps a copy of itself moved by `d`. */
  predicate OverlapsAt(w: seq<Byte>, d: nat) {
    0 < d < |w| && w[d..] == w[..|w| - d]
  }

  /** Wherever the word overlaps itself, the byte before the second copy is a word byte. */
  ghost predicate SelfSafe(w: seq<Byte>) {
    forall d :: OverlapsAt(w, d) ==> WordByte(w[d - 1])
  }

  lemma Overlap(h: seq<Byte>, w: seq<Byte>, p: nat, q: nat)
    requires OccursAt(h, w, p) && OccursAt(h, w, q) && p < q < p + |w|
    ensures OverlapsAt(w, q - p) && h[q - 1] == w[q - p - 1]
  {
    var d := q - p;
    assert h[p..p + |w|][d..] == h[q..q + |w|][..|w| - d];
    assert h[p..p + |w|][d - 1] == h[q - 1];
  }

  /** The jump past a failed occurrence skips no whole word when the word is safe. */
  lemma {:induction false} FoundWhenSafe(h: seq<Byte>, w: seq<Byte>, start: nat, p: nat)
    requires w != [] && SelfSafe(w) && start <= p && WholeAt(h, w, p)
    ensures Found(h, w, start)
    decreases |h| - start
  {
    FoundStep(h, w, start);
    NextIsFirst(h, w, start, p);
    hide Found, NextAt;
    var abs := NextAt(h, w, start).value;
    if abs < p {
      if p < abs + |w| {
        Overlap(h, w, abs, p);
      } else {
        FoundWhenSafe(h, w, abs + |w|, p);
      }
    }
  }

  lemma ShiftedCopies(c: Byte, a: seq<Byte>, w: seq<Byte>)
    requires 0 < |a| < |w|
    ensures var h := [c] + a + w; var d := |a|;
            && h[0] == c && h[d] == a[d - 1] && |h| == d + 1 + |w|
            && h[1..1 + |w|] == a + w[..|w| - d] && h[d + 1..d + 1 + |w|] == w
            && h[0..|w|][0] == c
  {
  }

  /** A word that overlaps itself after another byte, behind a word byte: the whole word is missed. */
  lemma MissedWhenUnsafe(w: seq<Byte>, d: nat) returns (h: seq<Byte>)
    requires OverlapsAt(w, d) && !WordByte(w[d - 1])
    ensures WholeAt(h, w, d + 1) && !Found(h, w, 0)
  {
    var c: Byte := if w[0] == 'a' as int then 'b' as int else 'a' as int;
    h := [c] + w[..d] + w;
    ShiftedCopies(c, w[..d], w);
    assert !OccursAt(h, w, 0);
    assert w[..d] + w[..|w| - d] == w[..d] + w[d..] == w;
    assert OccursAt(h, w, 1) && NextAt(h, w, 1) == Some(1) && NextAt(h, w, 0) == NextAt(h, w, 1);
    assert NextAt(h, w, 1 + |w|) == None;
    assert WordByte(h[0]) && !WholeAt(h, w, 1);
    FoundStep(h, w, 0);
    FoundStep(h, w, 1 + |w|);
  }

  /** The scan finds a whole word in every text that has one exactly when, wherever the word overlaps
      itself, a word byte precedes the overlap. */
  lemma WordMatchCompleteIff(w: seq<Byte>)
    requires w != []
    ensures SelfSafe(w) <==> forall h, p :: WholeAt(h, w, p) ==> Found(h, w, 0)
  {
    if SelfSafe(w) {
      forall h, p | WholeAt(h, w, p)
        ensures Found(h, w, 0)
      {
        FoundWhenSafe(h, w, 0, p);
      }
    } else {
      var d :| OverlapsAt(w, d) && !WordByte(w[d - 1]);
      var h := MissedWhenUnsafe(w, d);
    }
  }

  /** A found word is there, and a word of word bytes, as every one the program looks for, is never missed. */
  lemma {:induction false} PlainWordMatch(h: seq<Byte>, w: seq<Byte>)
    requires w != [] && forall b <- w :: WordByte(b)
    ensures Found(h, w, 0) <==> exists p :: WholeAt(h, w, p)
  {
    if Found(h, w, 0) {
      FoundIsThere(h, w, 0);
    }
    if p :| WholeAt(h, w, p) {
      FoundWhenSafe(h, w, 0, p);
    }
  }

  lemma {:induction false} FoundIsThere(h: seq<Byte>, w: seq<Byte>, start: nat)
    requires w != [] && Found(h, w, start)
    ensures exists p :: start <= p && WholeAt(h, w, p)
    decreases |h| - start
  {
    var next := NextAt(h, w, start).value;
    if !WholeAt(h, w, next) {
      FoundIsThere(h, w, next + |w|);
    }
  }
}
