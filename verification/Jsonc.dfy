// Stripping comments from JSON with comments.
module Jsonc {
  import opened Common

  // ---------- tokens ----------

  /** How a text divides: a string literal with its quotes, a comment with its delimiters, or any
      other character. */
  datatype Token = Plain(c: char) | Str(raw: string) | Comment(raw: string)

  /** How much of a text belongs to a string literal already opened: up to the first quote that no
      backslash escapes, or all of it. */
  function BodyLen(s: string): (n: nat)
    ensures n <= |s|
    ensures s != "" ==> n > 0
  {
    if s == "" then 0
    else if s[0] == '"' then 1
    else if s[0] == '\\' then if |s| == 1 then 1 else 2 + BodyLen(s[2..])
    else 1 + BodyLen(s[1..])
  }

  /** How much belongs to a line comment already opened: up to the newline and with it. */
  function LineLen(s: string): (n: nat)
    ensures n <= |s|
  {
    if s == "" then 0 else if s[0] == '\n' then 1 else 1 + LineLen(s[1..])
  }

  /** How much belongs to a block comment already opened; `star` when the character before is one. */
  function BlockLen(star: bool, s: string): (n: nat)
    ensures n <= |s|
    decreases |s|
  {
    if s == "" then 0 else if star && s[0] == '/' then 1 else 1 + BlockLen(s[0] == '*', s[1..])
  }

  predicate OpensLine(s: string) {
    |s| >= 2 && s[0] == '/' && s[1] == '/'
  }

  predicate OpensBlock(s: string) {
    |s| >= 2 && s[0] == '/' && s[1] == '*'
  }

  function Raw(t: Token): string {
    match t
    case Plain(c) => [c]
    case Str(raw) => raw
    case Comment(raw) => raw
  }

  function FirstToken(s: string): (t: Token)
    requires s != ""
    ensures 0 < |Raw(t)| <= |s| && Raw(t) == s[..|Raw(t)|]
  {
    if s[0] == '"' then Str(s[..1 + BodyLen(s[1..])])
    else if OpensLine(s) then Comment(s[..2 + LineLen(s[2..])])
    else if OpensBlock(s) then Comment(s[..2 + BlockLen(false, s[2..])])
    else Plain(s[0])
  }

  function Lex(s: string): seq<Token>
    decreases |s|
  {
    if s == "" then [] else [FirstToken(s)] + Lex(s[|Raw(FirstToken(s))|..])
  }

  function OnlyNewlines(s: string): string {
    if s == "" then "" else (if s[0] == '\n' then "\n" else "") + OnlyNewlines(s[1..])
  }

  /** What is left of a token: all of it, but of a comment only its newlines. */
  function Render(t: Token): string {
    if t.Comment? then OnlyNewlines(t.raw) else Raw(t)
  }

  function RenderAll(ts: seq<Token>): string {
    if ts == [] then "" else Render(ts[0]) + RenderAll(ts[1..])
  }

  function RawAll(ts: seq<Token>): string {
    if ts == [] then "" else Raw(ts[0]) + RawAll(ts[1..])
  }

  /** A text without its comments. */
  function Strip(s: string): string {
    RenderAll(Lex(s))
  }

  lemma RawStep(t: Token, ts: seq<Token>)
    ensures RawAll([t] + ts) == Raw(t) + RawAll(ts)
  {
    assert ([t] + ts)[1..] == ts;
  }

  lemma Halves(s: string, n: nat)
    requires n <= |s|
    ensures s[..n] + s[n..] == s
  {
  }

  /** The tokens together are the text. */
  lemma {:induction false} LexLosesNothing(s: string)
    ensures RawAll(Lex(s)) == s
    decreases |s|
  {
    if s != "" {
      var t := FirstToken(s);
      var n := |Raw(t)|;
      var rest := s[n..];
      assert Lex(s) == [t] + Lex(rest);
      hide *;
      LexLosesNothing(rest);
      RawStep(t, Lex(rest));
      Halves(s, n);
    }
  }

  // ---------- tokens of the stripped text ----------

  function Breaks(n: nat): seq<Token> {
    seq(n, _ => Plain('\n'))
  }

  /** What stripping makes of the tokens: a comment leaves its newlines. */
  function Kept(ts: seq<Token>): seq<Token> {
    if ts == [] then []
    else (if ts[0].Comment? then Breaks(|OnlyNewlines(ts[0].raw)|) else [ts[0]]) + Kept(ts[1..])
  }

  lemma StripStep(s: string)
    requires s != ""
    ensures var t := FirstToken(s); var rest := s[|Raw(t)|..];
            && Strip(s) == Render(t) + Strip(rest)
            && Kept(Lex(s)) == (if t.Comment? then Breaks(|OnlyNewlines(t.raw)|) else [t]) + Kept(Lex(rest))
  {
    var t := FirstToken(s);
    var rest := s[|Raw(t)|..];
    assert Lex(s)[1..] == Lex(rest);
  }

  lemma LexStep(t: Token, rest: string)
    requires Raw(t) != "" && FirstToken(Raw(t) + rest) == t
    ensures Lex(Raw(t) + rest) == [t] + Lex(rest)
  {
    assert (Raw(t) + rest)[|Raw(t)|..] == rest;
  }

  /** A closed string literal ends where it does whatever follows. */
  lemma {:induction false} BodyStays(s: string, more: string)
    requires BodyLen(s) < |s| || more == ""
    ensures BodyLen(s[..BodyLen(s)] + more) == BodyLen(s)
  {
    var n := BodyLen(s);
    if s == "" || s[0] == '"' || (s[0] == '\\' && |s| == 1) {
      assert n <= 1;
    } else {
      var k := if s[0] == '\\' then 2 else 1;
      BodyStays(s[k..], more);
      var short := s[..n] + more;
      assert short[k..] == s[k..][..n - k] + more;
      assert short[0] == s[0];
    }
  }

  lemma OnlyNewlinesAre(s: string)
    ensures forall c <- OnlyNewlines(s) :: c == '\n'
  {
  }

  lemma BreakLex(rest: string)
    ensures Lex("\n" + rest) == [Plain('\n')] + Lex(rest)
  {
    assert FirstToken("\n" + rest) == Plain('\n');
    LexStep(Plain('\n'), rest);
  }

  lemma {:induction false} BreaksLex(newlines: string, rest: string)
    requires forall c <- newlines :: c == '\n'
    ensures Lex(newlines + rest) == Breaks(|newlines|) + Lex(rest)
  {
    hide Lex;
    if newlines == "" {
      EmptyConcat(rest);
      EmptyConcat(Lex(rest));
    } else {
      var tail := newlines[1..];
      assert forall c <- tail :: c in newlines;
      BreaksLex(tail, rest);
      assert newlines[0] in newlines;
      assert newlines + rest == "\n" + (tail + rest);
      BreakLex(tail + rest);
      assert Breaks(|newlines|) == [Plain('\n')] + Breaks(|tail|);
      Assoc([Plain('\n')], Breaks(|tail|), Lex(rest));
    }
  }

  /** What is stripped begins as the text does, unless that begins with a comment. */
  lemma SameStart(s: string)
    requires s != "" && !FirstToken(s).Comment?
    ensures Strip(s) != "" && Strip(s)[0] == s[0]
  {
    StripStep(s);
  }

  lemma LiteralPrefix(s: string, n: nat, rest: string)
    requires 1 + n <= |s|
    ensures var v := s[..1 + n] + rest;
            v[0] == s[0] && v[1..] == s[1..][..n] + rest && v[..1 + n] == s[..1 + n]
  {
  }

  lemma KeptLiteral(s: string, rest: string)
    requires s != "" && s[0] == '"' && rest == Strip(s[1 + BodyLen(s[1..])..])
    ensures FirstToken(Raw(FirstToken(s)) + rest) == FirstToken(s)
  {
    var body := s[1..];
    var n := BodyLen(body);
    assert FirstToken(s) == Str(s[..1 + n]);
    if n == |body| {
      assert s[1 + n..] == "";
    }
    hide Strip, BodyLen;
    StripNothing();
    BodyStays(body, rest);
    LiteralPrefix(s, n, rest);
  }

  lemma KeptToken(s: string, rest: string)
    requires s != "" && !FirstToken(s).Comment? && rest == Strip(s[|Raw(FirstToken(s))|..])
    ensures FirstToken(Raw(FirstToken(s)) + rest) == FirstToken(s)
  {
    hide Strip, BodyLen;
    if s[0] == '"' {
      KeptLiteral(s, rest);
    } else {
      var after := s[1..];
      var v := [s[0]] + rest;
      if after != "" && s[0] == '/' {
        assert after[0] == s[1] && after[0] != '/' && after[0] != '*';
        SameStart(after);
        assert v[1] == after[0];
      } else if after == "" {
        StripNothing();
      }
    }
  }

  lemma StripNothing()
    ensures Strip("") == ""
  {
  }

  /** The stripped text divides into the same tokens, each comment into its newlines. */
  lemma {:induction false} StripTokens(s: string)
    ensures Lex(Strip(s)) == Kept(Lex(s))
    decreases |s|
  {
    if s != "" {
      var t := FirstToken(s);
      var rest := s[|Raw(t)|..];
      StripTokens(rest);
      StripStep(s);
      if t.Comment? {
        OnlyNewlinesAre(t.raw);
        BreaksLex(OnlyNewlines(t.raw), Strip(rest));
      } else {
        KeptToken(s, Strip(rest));
        LexStep(t, Strip(rest));
      }
    }
  }

  // ---------- what stripping promises ----------

  predicate IsComment(t: Token) {
    t.Comment?
  }

  lemma {:induction false} KeptHasNoComment(ts: seq<Token>)
    ensures forall t <- Kept(ts) :: !IsComment(t)
  {
    if ts != [] {
      KeptHasNoComment(ts[1..]);
    }
  }

  lemma {:induction false} RenderIsRaw(ts: seq<Token>)
    requires forall t <- ts :: !IsComment(t)
    ensures RenderAll(ts) == RawAll(ts)
  {
    if ts != [] {
      assert ts[0] in ts;
      RenderIsRaw(ts[1..]);
    }
  }

  /** No comment is left outside a string literal, and stripping again changes nothing. */
  lemma StripOnce(s: string)
    ensures forall t <- Lex(Strip(s)) :: !IsComment(t)
    ensures Strip(Strip(s)) == Strip(s)
  {
    StripTokens(s);
    KeptHasNoComment(Lex(s));
    RenderIsRaw(Kept(Lex(s)));
    LexLosesNothing(Strip(s));
  }

  /** The string literals of a text, in order. */
  function Literals(ts: seq<Token>): seq<string> {
    if ts == [] then [] else (if ts[0].Str? then [ts[0].raw] else []) + Literals(ts[1..])
  }

  lemma {:induction false} BreaksHaveNone(n: nat, ts: seq<Token>)
    ensures Literals(Breaks(n) + ts) == Literals(ts)
  {
    if n == 0 {
      assert Breaks(0) == [];
      EmptyConcat(ts);
    } else {
      assert (Breaks(n) + ts)[1..] == Breaks(n - 1) + ts;
      BreaksHaveNone(n - 1, ts);
    }
  }

  lemma {:induction false} KeptLiterals(ts: seq<Token>)
    ensures Literals(Kept(ts)) == Literals(ts)
  {
    if ts != [] {
      KeptLiterals(ts[1..]);
      if ts[0].Comment? {
        BreaksHaveNone(|OnlyNewlines(ts[0].raw)|, Kept(ts[1..]));
      } else {
        assert Kept(ts)[1..] == Kept(ts[1..]);
      }
    }
  }

  /** Every string literal is copied verbatim, in order. */
  lemma StripKeepsLiterals(s: string)
    ensures Literals(Lex(Strip(s))) == Literals(Lex(s))
  {
    StripTokens(s);
    KeptLiterals(Lex(s));
  }

  lemma {:induction false} NewlinesConcat(a: string, b: string)
    ensures OnlyNewlines(a + b) == OnlyNewlines(a) + OnlyNewlines(b)
  {
    if a == "" {
      EmptyConcat(b);
      EmptyConcat(OnlyNewlines(b));
    } else {
      ConcatTail(a, b);
      NewlinesConcat(a[1..], b);
      Assoc(if a[0] == '\n' then "\n" else "", OnlyNewlines(a[1..]), OnlyNewlines(b));
    }
  }

  lemma {:induction false} NewlinesOfNewlines(s: string)
    ensures OnlyNewlines(OnlyNewlines(s)) == OnlyNewlines(s)
  {
    if s != "" {
      NewlinesOfNewlines(s[1..]);
      NewlinesConcat(if s[0] == '\n' then "\n" else "", OnlyNewlines(s[1..]));
    }
  }

  /** As many newlines as the string has. */
  function Newlines(s: string): string {
    seq(multiset(s)['\n'], _ => '\n')
  }

  lemma NewlinesHead(c: char, rest: string)
    ensures Newlines([c] + rest) == (if c == '\n' then "\n" else "") + Newlines(rest)
  {
    assert multiset([c] + rest) == multiset{c} + multiset(rest);
    var n := multiset(rest)['\n'];
    if c == '\n' {
      assert seq(n + 1, _ => '\n') == "\n" + seq(n, _ => '\n');
    } else {
      EmptyConcat(Newlines(rest));
    }
  }

  lemma {:induction false} OnlyNewlinesOf(s: string)
    ensures OnlyNewlines(s) == Newlines(s)
  {
    if s != "" {
      var rest := s[1..];
      OnlyNewlinesOf(rest);
      NewlinesHead(s[0], rest);
      hide Newlines;
      assert s == [s[0]] + rest;
    }
  }

  lemma NewlinesAround(a: string)
    ensures Newlines("//" + a) == Newlines("/*" + a) == Newlines("/*" + a + "*/") == Newlines(a)
    ensures '\n' !in a ==> Newlines(a) == "" && Newlines("//" + a + "\n") == "\n"
  {
    assert multiset("//" + a)['\n'] == multiset(a)['\n'];
    assert multiset("/*" + a)['\n'] == multiset(a)['\n'];
    assert multiset("/*" + a + "*/")['\n'] == multiset(a)['\n'];
    if '\n' !in a {
      assert multiset(a)['\n'] == 0;
      assert multiset("//" + a + "\n")['\n'] == 1;
    }
  }

  /** Every newline stays, so every line keeps its number. */
  lemma StripKeepsNewlines(s: string)
    ensures multiset(Strip(s))['\n'] == multiset(s)['\n']
  {
    StripOnlyNewlines(s);
    OnlyNewlinesOf(s);
    OnlyNewlinesOf(Strip(s));
    assert |Newlines(s)| == |Newlines(Strip(s))|;
  }

  lemma {:induction false} StripOnlyNewlines(s: string)
    ensures OnlyNewlines(Strip(s)) == OnlyNewlines(s)
    decreases |s|
  {
    if s != "" {
      var t := FirstToken(s);
      var n := |Raw(t)|;
      StripOnlyNewlines(s[n..]);
      StripStep(s);
      hide Strip, OnlyNewlines, FirstToken, Lex, Kept;
      NewlinesConcat(Render(t), Strip(s[n..]));
      NewlinesConcat(s[..n], s[n..]);
      assert s == s[..n] + s[n..];
      if t.Comment? {
        NewlinesOfNewlines(t.raw);
      }
    }
  }

  // ---------- where a literal and a comment end ----------

  /** How many backslashes stand right before a position. */
  function Backslashes(s: string, k: nat): nat
    requires k <= |s|
  {
    if k == 0 || s[k - 1] != '\\' then 0 else 1 + Backslashes(s, k - 1)
  }

  predicate Escaped(s: string, k: nat)
    requires k <= |s|
  {
    Backslashes(s, k) % 2 == 1
  }

  /** Dropping a character that is no backslash, or an escaped pair, changes no later parity. */
  lemma {:induction false} ParityAfter(s: string, skip: nat, k: nat)
    requires skip <= k <= |s| && ((skip == 1 && s[0] != '\\') || (skip == 2 && s[0] == '\\'))
    ensures Escaped(s, k) == Escaped(s[skip..], k - skip)
  {
    if k > skip && s[k - 1] == '\\' {
      ParityAfter(s, skip, k - 1);
      assert s[skip..][k - 1 - skip] == s[k - 1];
    } else if k == skip == 2 && s[1] == '\\' {
      assert Backslashes(s, 1) == 1;
    }
  }

  /** Every quote before position `n` is escaped. */
  ghost predicate EscapedBefore(s: string, n: nat)
    requires n <= |s|
  {
    forall k :: 0 <= k < n && s[k] == '"' ==> Escaped(s, k)
  }

  lemma EscapedAfter(s: string, skip: nat, n: nat)
    requires skip <= n <= |s| && ((skip == 1 && s[0] != '\\') || (skip == 2 && s[0] == '\\')) && s[0] != '"'
    requires EscapedBefore(s[skip..], n - skip)
    ensures EscapedBefore(s, n)
  {
    assert Backslashes(s, 0) == 0 && (Escaped(s, 1) <==> skip == 2);
    forall k | skip <= k < n
      ensures Escaped(s, k) == Escaped(s[skip..], k - skip) && s[k] == s[skip..][k - skip]
    {
      ParityAfter(s, skip, k);
    }
  }

  /** A literal ends at its first quote after an even number of backslashes, or with the text when
      every quote is escaped. */
  lemma {:induction false} LiteralEnds(s: string)
    ensures var n := BodyLen(s);
            if n > 0 && s[n - 1] == '"' && !Escaped(s, n - 1) then EscapedBefore(s, n - 1)
            else n == |s| && EscapedBefore(s, n)
  {
    if s != "" && s[0] != '"' && !(s[0] == '\\' && |s| == 1) {
      var skip := if s[0] == '\\' then 2 else 1;
      LiteralEnds(s[skip..]);
      var n, m := BodyLen(s), BodyLen(s[skip..]);
      assert n == skip + m;
      hide BodyLen, Backslashes, Escaped, EscapedBefore;
      if m > 0 {
        ParityAfter(s, skip, n - 1);
        assert s[skip..][m - 1] == s[n - 1];
      } else {
        assert n == |s|;
      }
      EscapedAfter(s, skip, if m > 0 && s[n - 1] == '"' && !Escaped(s, n - 1) then n - 1 else n);
      LoneTail(s, skip);
    }
  }

  lemma LoneTail(s: string, skip: nat)
    requires 0 < skip <= |s| && s[0] != '"' && (skip == 2 <==> s[0] == '\\') && skip <= 2
    ensures |s| == skip && s[skip - 1] == '"' ==> Escaped(s, skip - 1)
  {
    if skip == 2 {
      assert Backslashes(s, 0) == 0 && Backslashes(s, 1) == 1;
    }
  }

  /** Where a block comment closes. */
  predicate ClosesAt(s: string, k: nat) {
    0 < k < |s| && s[k - 1] == '*' && s[k] == '/'
  }

  /** A block comment ends at its first closing pair, or with the text. */
  lemma {:induction false} BlockEnds(star: bool, s: string)
    ensures var n := BlockLen(star, s); forall k :: 0 < k < n - 1 ==> !ClosesAt(s, k)
    ensures var n := BlockLen(star, s); n > 1 ==> !(star && s[0] == '/')
    ensures var n := BlockLen(star, s); n < |s| ==> ClosesAt(s, n - 1) || (n == 1 && star && s[0] == '/')
    decreases |s|
  {
    if s != "" && !(star && s[0] == '/') {
      BlockEnds(s[0] == '*', s[1..]);
      forall k | 0 < k < |s|
        ensures ClosesAt(s, k) <==> if k == 1 then s[0] == '*' && s[1..][0] == '/' else ClosesAt(s[1..], k - 1)
      {
      }
    }
  }

  // ---------- the laws of stripping ----------

  /** A character outside literals that opens nothing stays. */
  lemma StripPlain(c: char, rest: string)
    requires c != '"' && !(c == '/' && rest != "" && (rest[0] == '/' || rest[0] == '*'))
    ensures Strip([c] + rest) == [c] + Strip(rest) && Strip("") == ""
  {
    var s := [c] + rest;
    assert s[1..] == rest;
    assert FirstToken(s) == Plain(c);
    StripStep(s);
  }

  lemma {:induction false} LineEnds(a: string, rest: string)
    requires '\n' !in a
    ensures LineLen(a + "\n" + rest) == |a| + 1 && LineLen(a) == |a|
  {
    if a != "" {
      assert (a + "\n" + rest)[1..] == a[1..] + "\n" + rest;
      LineEnds(a[1..], rest);
    }
  }

  lemma Opened(opener: string, mid: string, rest: string)
    ensures var s := opener + (mid + rest);
            && s[|opener|..] == mid + rest && s[..|opener + mid|] == opener + mid && s[|opener + mid|..] == rest
  {
  }

  /** A text that begins with a comment strips to the comment's newlines and the stripped rest. */
  lemma StripFirstLine(mid: string, rest: string)
    requires LineLen(mid + rest) == |mid|
    ensures Strip("//" + (mid + rest)) == Newlines("//" + mid) + Strip(rest)
  {
    Opened("//", mid, rest);
    OnlyNewlinesOf("//" + mid);
    var s := "//" + (mid + rest);
    assert OpensLine(s) && FirstToken(s) == Comment("//" + mid);
    StripStep(s);
  }

  lemma StripFirstBlock(mid: string, rest: string)
    requires BlockLen(false, mid + rest) == |mid|
    ensures Strip("/*" + (mid + rest)) == Newlines("/*" + mid) + Strip(rest)
  {
    Opened("/*", mid, rest);
    OnlyNewlinesOf("/*" + mid);
    var s := "/*" + (mid + rest);
    assert OpensBlock(s) && FirstToken(s) == Comment("/*" + mid);
    StripStep(s);
  }

  lemma StripFirstLiteral(mid: string, rest: string)
    requires BodyLen(mid + rest) == |mid|
    ensures Strip("\"" + (mid + rest)) == "\"" + mid + Strip(rest)
  {
    Opened("\"", mid, rest);
    var s := "\"" + (mid + rest);
    assert FirstToken(s) == Str("\"" + mid);
    StripStep(s);
  }

  /** A line comment goes up to its newline, which stays, or to the end of the text. */
  lemma StripLine(a: string, rest: string)
    requires '\n' !in a
    ensures Strip("//" + a + "\n" + rest) == "\n" + Strip(rest)
    ensures Strip("//" + a) == ""
  {
    LineEnds(a, rest);
    NewlinesAround(a);
    StripNothing();
    hide *;
    StripFirstLine(a + "\n", rest);
    Assoc("//", a + "\n", rest);
    Assoc("//", a, "\n");
    EmptyConcat(a);
    StripFirstLine(a, "");
    EmptyConcat("");
  }

  /** Nothing in the string closes a block comment. */
  ghost predicate NeverCloses(a: string) {
    forall k :: !ClosesAt(a, k)
  }

  lemma BlockLenOf(a: string, rest: string)
    requires NeverCloses(a)
    ensures BlockLen(false, a + "*/" + rest) == |a| + 2 && BlockLen(false, a) == |a|
  {
    var s := a + "*/" + rest;
    BlockEnds(false, s);
    BlockEnds(false, a);
    assert ClosesAt(s, |a| + 1);
    forall k | 0 < k <= |a|
      ensures !ClosesAt(s, k)
    {
      assert k < |a| ==> !ClosesAt(a, k);
    }
  }

  /** A block comment goes up to its first closing pair, or to the end of the text, and leaves its
      newlines. */
  lemma StripBlock(a: string, rest: string)
    requires NeverCloses(a)
    ensures Strip("/*" + a + "*/" + rest) == Newlines(a) + Strip(rest)
    ensures Strip("/*" + a) == Newlines(a)
  {
    BlockLenOf(a, rest);
    NewlinesAround(a);
    StripNothing();
    hide *;
    StripFirstBlock(a + "*/", rest);
    Assoc("/*", a + "*/", rest);
    Assoc("/*", a, "*/");
    EmptyConcat(a);
    StripFirstBlock(a, "");
    EmptyConcat(Newlines(a));
  }

  lemma {:induction false} EscapedPrefix(a: string, rest: string, k: nat)
    requires k <= |a|
    ensures Escaped(a + rest, k) == Escaped(a, k) && Backslashes(a + rest, k) == Backslashes(a, k)
  {
    if k > 0 && a[k - 1] == '\\' {
      EscapedPrefix(a, rest, k - 1);
    }
  }

  lemma BodyLenOf(body: string, rest: string)
    requires EscapedBefore(body, |body|)
    ensures !Escaped(body, |body|) ==> BodyLen(body + "\"" + rest) == |body| + 1
    ensures BodyLen(body) == |body|
  {
    LiteralEnds(body);
    if !Escaped(body, |body|) {
      var s := body + ("\"" + rest);
      assert s == body + "\"" + rest;
      LiteralEnds(s);
      forall k | 0 <= k <= |body|
        ensures Escaped(s, k) == Escaped(body, k)
      {
        EscapedPrefix(body, "\"" + rest, k);
      }
      var n := BodyLen(s);
      hide BodyLen, Escaped, Backslashes;
      assert s[|body|] == '"' && !Escaped(s, |body|);
      assert forall k :: 0 <= k < |body| ==> s[k] == body[k];
    }
  }

  /** A string literal stays as it is, up to its first quote that no backslash escapes, or to the end of
      the text. */
  lemma StripLiteral(body: string, rest: string)
    requires EscapedBefore(body, |body|)
    ensures !Escaped(body, |body|) ==> Strip("\"" + body + "\"" + rest) == "\"" + body + "\"" + Strip(rest)
    ensures Strip("\"" + body) == "\"" + body
  {
    BodyLenOf(body, rest);
    StripNothing();
    hide *;
    EmptyConcat(body);
    StripFirstLiteral(body, "");
    EmptyConcat("\"" + body);
    if !Escaped(body, |body|) {
      StripFirstLiteral(body + "\"", rest);
      Assoc("\"", body + "\"", rest);
      Assoc("\"", body, "\"");
    }
  }

  // ---------- the stripper ----------

  /** The rest of a text inside a string literal. */
  function StripInside(s: string): string {
    s[..BodyLen(s)] + Strip(s[BodyLen(s)..])
  }

  function StripFrom(inString: bool, s: string): string {
    if inString then StripInside(s) else Strip(s)
  }

  /** From `inString`, a piece of `k` characters leaves `piece` and goes on `inside` a literal or not. */
  ghost predicate Steps(inString: bool, s: string, k: nat, piece: string, inside: bool) {
    k <= |s| && StripFrom(inString, s) == piece + StripFrom(inside, s[k..])
  }

  lemma InsideStep(s: string, k: nat)
    requires 0 < k <= |s| && s[0] != '"' && (if s[0] == '\\' then k == 2 || k == |s| == 1 else k == 1)
    ensures Steps(true, s, k, s[..k], true)
  {
    var n, m := BodyLen(s), BodyLen(s[k..]);
    assert n == k + m;
    assert StripInside(s) == s[..n] + Strip(s[n..]) && StripInside(s[k..]) == s[k..][..m] + Strip(s[k..][m..]);
    hide Strip, BodyLen, StripInside;
    assert s[..n] == s[..k] + s[k..][..m] && s[n..] == s[k..][m..];
    Assoc(s[..k], s[k..][..m], Strip(s[n..]));
  }

  lemma InsideEnd(s: string)
    requires s != "" && s[0] == '"'
    ensures Steps(true, s, 1, [s[0]], false)
  {
    assert s[..1] == [s[0]];
  }

  lemma QuoteStep(s: string)
    requires s != "" && s[0] == '"'
    ensures Steps(false, s, 1, [s[0]], true)
  {
    var n := BodyLen(s[1..]);
    assert FirstToken(s) == Str(s[..1 + n]);
    StripStep(s);
    hide Strip, FirstToken, BodyLen;
    assert s[..1 + n] == "\"" + s[1..][..n] && s[1 + n..] == s[1..][n..];
    Assoc("\"", s[1..][..n], Strip(s[1 + n..]));
  }

  lemma PlainStep(s: string)
    requires s != "" && s[0] != '"' && !OpensLine(s) && !OpensBlock(s)
    ensures Steps(false, s, 1, [s[0]], false)
  {
    StripStep(s);
  }

  lemma CommentStep(s: string, n: nat)
    requires (OpensLine(s) && n == LineLen(s[2..])) || (OpensBlock(s) && n == BlockLen(false, s[2..]))
    ensures Steps(false, s, 2 + n, OnlyNewlines(s[2..2 + n]), false)
  {
    assert FirstToken(s) == Comment(s[..2 + n]);
    StripStep(s);
    hide Strip, FirstToken, LineLen, BlockLen;
    OpenerHasNone(s, n);
  }

  lemma OpenerHasNone(s: string, n: nat)
    requires OpensLine(s) || OpensBlock(s)
    requires 2 + n <= |s|
    ensures OnlyNewlines(s[..2 + n]) == OnlyNewlines(s[2..2 + n])
  {
    assert s[..2 + n][1..][1..] == s[2..2 + n];
  }

  lemma NewlineStep(s: string, from: nat, j: nat)
    requires from <= j < |s|
    ensures OnlyNewlines(s[from..j + 1]) == OnlyNewlines(s[from..j]) + (if s[j] == '\n' then "\n" else "")
  {
    assert s[from..j + 1] == s[from..j] + [s[j]];
    NewlinesConcat(s[from..j], [s[j]]);
    assert [s[j]][1..] == "";
  }

  /** Skip a line comment already opened, keeping its newline. */
  method SkipLine(s: string, from: nat) returns (i: nat, kept: string)
    requires from <= |s|
    ensures i == from + LineLen(s[from..]) && kept == OnlyNewlines(s[from..i])
  {
    i, kept := from, "";
    assert s[from..from] == "";
    while i < |s|
      invariant from <= i <= |s| && kept == OnlyNewlines(s[from..i])
      invariant LineLen(s[from..]) == i - from + LineLen(s[i..])
    {
      var ch := s[i];
      NewlineStep(s, from, i);
      i := i + 1;
      if ch == '\n' {
        kept := kept + "\n";
        break;
      }
    }
  }

  /** Skip a block comment already opened, keeping its newlines. */
  method SkipBlock(s: string, from: nat) returns (i: nat, kept: string)
    requires from <= |s|
    ensures i == from + BlockLen(false, s[from..]) && kept == OnlyNewlines(s[from..i])
  {
    i, kept := from, "";
    assert s[from..from] == "";
    var prev := '\0';
    while i < |s|
      invariant from <= i <= |s| && kept == OnlyNewlines(s[from..i])
      invariant BlockLen(false, s[from..]) == i - from + BlockLen(prev == '*', s[i..])
    {
      var ch := s[i];
      NewlineStep(s, from, i);
      i := i + 1;
      if prev == '*' && ch == '/' {
        break;
      }
      if ch == '\n' {
        kept := kept + "\n";
      }
      prev := ch;
    }
  }

  /** One turn of the scan: from position `i`, inside a literal or not, what it puts out and where it
      goes on. */
  method Turn(s: string, i: nat, inString: bool) returns (piece: string, j: nat, inside: bool)
    requires i < |s|
    ensures i < j <= |s| && Steps(inString, s[i..], j - i, piece, inside)
  {
    hide *;
    ghost var rest := s[i..];
    var c := s[i];
    piece, j, inside := [c], i + 1, inString;
    if inString {
      if c == '\\' {
        if j < |s| {
          piece, j := piece + [s[j]], j + 1;
          assert rest[..2] == piece;
        } else {
          assert rest[..1] == piece;
        }
        InsideStep(rest, j - i);
      } else if c == '"' {
        InsideEnd(rest);
        inside := false;
      } else {
        assert rest[..1] == piece;
        InsideStep(rest, 1);
      }
    } else if c == '"' {
      QuoteStep(rest);
      inside := true;
    } else if c == '/' && j < |s| && (s[j] == '/' || s[j] == '*') {
      IsOpener(rest);
      assert s[j + 1..] == rest[2..];
      if s[j] == '/' {
        j, piece := SkipLine(s, j + 1);
      } else {
        j, piece := SkipBlock(s, j + 1);
      }
      assert s[i + 2..j] == rest[2..j - i];
      CommentStep(rest, j - i - 2);
    } else {
      IsOpener(rest);
      PlainStep(rest);
    }
  }

  lemma IsOpener(s: string)
    ensures OpensLine(s) <==> |s| >= 2 && s[0] == '/' && s[1] == '/'
    ensures OpensBlock(s) <==> |s| >= 2 && s[0] == '/' && s[1] == '*'
  {
  }

  /** Strip the line and block comments outside string literals. */
  method StripComments(s: string) returns (out: string)
    ensures out == Strip(s)
  {
    out := "";
    var inString := false;
    var i := 0;
    assert s[0..] == s && StripFrom(false, s) == Strip(s);
    hide *;
    while i < |s|
      invariant i <= |s| && Strip(s) == out + StripFrom(inString, s[i..])
    {
      var piece, j, inside := Turn(s, i, inString);
      Onward(inString, s, i, j, piece, inside, out);
      out := out + piece;
      i, inString := j, inside;
    }
    EndStripped(inString, s[i..]);
  }

  lemma Onward(inString: bool, s: string, i: nat, j: nat, piece: string, inside: bool, out: string)
    requires i <= j <= |s| && Steps(inString, s[i..], j - i, piece, inside)
    ensures out + StripFrom(inString, s[i..]) == out + piece + StripFrom(inside, s[j..])
  {
    assert s[i..][j - i..] == s[j..];
    Assoc(out, piece, StripFrom(inside, s[j..]));
  }

  lemma EndStripped(inString: bool, s: string)
    requires s == ""
    ensures StripFrom(inString, s) == ""
  {
  }
}
