/** The T-SQL noise lexer. */
module Lexer {
  // A recursive token grammar as specification, and the one-pass scanner that refines it. Literals and delimited
  // identifiers follow sections 5.2 and 5.3 of ISO/IEC 9075-2.

  import opened Text

  // ── Where a token ends ──

  predicate Pair(t: string, a: char, b: char) {
    |t| >= 2 && t[0] == a && t[1] == b
  }

  /** Characters up to and including the closing delimiter (doubled = escaped), or all of them. */
  function ClosingLen(t: string, close: char): (n: nat)
    ensures n <= |t|
  {
    if t == "" then 0
    else if t[0] != close then 1 + ClosingLen(t[1..], close)
    else if Pair(t, close, close) then 2 + ClosingLen(t[2..], close)
    else 1
  }

  predicate Closes(t: string, close: char) {
    if t == "" then false
    else if t[0] != close then Closes(t[1..], close)
    else if Pair(t, close, close) then Closes(t[2..], close)
    else true
  }

  function LineLen(t: string): (n: nat)
    ensures n <= |t|
  {
    if t == "" || t[0] == '\n' || t[0] == '\r' then 0 else 1 + LineLen(t[1..])
  }

  /** Characters up to and including the close that brings the nesting depth back to zero, or all of them. */
  function BlockLen(t: string, depth: int): (n: nat)
    ensures n <= |t|
  {
    if t == "" then 0
    else if Pair(t, '/', '*') then 2 + BlockLen(t[2..], depth + 1)
    else if Pair(t, '*', '/') then if depth == 1 then 2 else 2 + BlockLen(t[2..], depth - 1)
    else 1 + BlockLen(t[1..], depth)
  }

  predicate BlockCloses(t: string, depth: int) {
    if t == "" then false
    else if Pair(t, '/', '*') then BlockCloses(t[2..], depth + 1)
    else if Pair(t, '*', '/') then depth == 1 || BlockCloses(t[2..], depth - 1)
    else BlockCloses(t[1..], depth)
  }

  // ── Tokens ──

  datatype Token =
    | LineComment(text: string)
    | BlockComment(text: string)
    | Literal(text: string)
    | Delimited(text: string)
    | Code(c: char)

  function Source(t: Token): string {
    match t
    case Code(c) => [c]
    case LineComment(text) => text
    case BlockComment(text) => text
    case Literal(text) => text
    case Delimited(text) => text
  }

  /** What a token leaves behind once noise is stripped. */
  function Render(t: Token): string {
    match t
    case Code(c) => [c]
    case LineComment(_) => " "
    case BlockComment(_) => " "
    case Literal(_) => "''"
    case Delimited(text) => text
  }

  function CloseOf(open: char): char {
    if open == '[' then ']' else open
  }

  /** The token a text begins with: whichever opener comes first decides what follows it. */
  function First(s: string): (t: Token)
    requires s != ""
    ensures 1 <= |Source(t)| <= |s| && Source(t) == s[..|Source(t)|]
  {
    if Pair(s, '-', '-') then LineComment(s[..LineLen(s)])
    else if Pair(s, '/', '*') then BlockComment(s[..BlockLen(s, 0)])
    else if s[0] == '\'' then Literal(s[..1 + ClosingLen(s[1..], '\'')])
    else if s[0] == '[' || s[0] == '"' then Delimited(s[..1 + ClosingLen(s[1..], CloseOf(s[0]))])
    else Code(s[0])
  }

  function Lex(s: string): seq<Token> {
    if s == "" then [] else [First(s)] + Lex(s[|Source(First(s))|..])
  }

  function Sources(ts: seq<Token>): string {
    if ts == [] then "" else Source(ts[0]) + Sources(ts[1..])
  }

  function Renders(ts: seq<Token>): string {
    if ts == [] then "" else Render(ts[0]) + Renders(ts[1..])
  }

  function Strip(s: string): string {
    Renders(Lex(s))
  }

  /** A text that is one token by itself. */
  predicate Single(t: Token) {
    Source(t) != "" && First(Source(t)) == t
  }

  /** True iff `t` stays as it is when the text `rest` follows it. */
  predicate Seals(t: Token, rest: string) {
    rest == "" ||
    match t
    case LineComment(_) => rest[0] == '\n' || rest[0] == '\r'
    case BlockComment(text) => BlockCloses(text, 0)
    case Literal(text) => text != "" && Closes(text[1..], '\'') && rest[0] != '\''
    case Delimited(text) => text != "" && Closes(text[1..], CloseOf(text[0])) && rest[0] != CloseOf(text[0])
    case Code(c) => !(c == '-' && rest[0] == '-') && !(c == '/' && rest[0] == '*')
  }

  predicate WellLexed(ts: seq<Token>) {
    ts == [] || (Single(ts[0]) && Seals(ts[0], Sources(ts[1..])) && WellLexed(ts[1..]))
  }

  // ── The scanner ──

  method EndOf(query: string, from: nat, close: char) returns (end: nat)
    requires from <= |query|
    ensures end == from + ClosingLen(query[from..], close)
  {
    var j := from;
    while j < |query|
      invariant from <= j <= |query|
      invariant ClosingLen(query[from..], close) == j - from + ClosingLen(query[j..], close)
    {
      if query[j] == close {
        if j + 1 < |query| && query[j + 1] == close {
          j := j + 1;
        } else {
          return j + 1;
        }
      }
      j := j + 1;
    }
    end := |query|;
  }

  method SkipLine(query: string, from: nat) returns (i: nat)
    requires from <= |query|
    ensures i == from + LineLen(query[from..])
  {
    i := from;
    while i < |query| && query[i] != '\n' && query[i] != '\r'
      invariant from <= i <= |query|
      invariant LineLen(query[from..]) == i - from + LineLen(query[i..])
    {
      i := i + 1;
    }
  }

  method SkipBlock(query: string, from: nat) returns (i: nat)
    requires from <= |query|
    ensures i == from + BlockLen(query[from..], 0)
  {
    var depth := 0;
    i := from;
    while i < |query|
      invariant from <= i <= |query|
      invariant BlockLen(query[from..], 0) == i - from + BlockLen(query[i..], depth)
    {
      if i + 1 < |query| && query[i] == '/' && query[i + 1] == '*' {
        depth := depth + 1;
        i := i + 2;
      } else if i + 1 < |query| && query[i] == '*' && query[i + 1] == '/' {
        depth := depth - 1;
        i := i + 2;
        if depth == 0 {
          return;
        }
      } else {
        i := i + 1;
      }
    }
  }

  /** What one pass of the scanner's loop has to do at position `i`. */
  lemma StripAt(query: string, i: nat, out: string)
    requires i < |query|
    ensures var t := First(query[i..]);
            i + |Source(t)| <= |query|
            && out + Strip(query[i..]) == (out + Render(t)) + Strip(query[i + |Source(t)|..])
  {
    var s := query[i..];
    var t := First(s);
    assert s[|Source(t)|..] == query[i + |Source(t)|..];
    assert Lex(s)[0] == t && Lex(s)[1..] == Lex(s[|Source(t)|..]);
    assert Strip(s) == Render(t) + Strip(query[i + |Source(t)|..]);
  }

  /** The body of the scanner's loop: the token at `i`, rendered, and where the next one starts. */
  method ScanToken(query: string, i: nat) returns (piece: string, next: nat)
    requires i < |query|
    ensures var t := First(query[i..]); piece == Render(t) && next == i + |Source(t)|
  {
    var c := query[i];
    ghost var s := query[i..];
    assert s[0] == c && (|s| > 1 ==> s[1] == query[i + 1]) && s[1..] == query[i + 1..];
    if c == '-' && i + 1 < |query| && query[i + 1] == '-' {
      next := SkipLine(query, i);
      piece := " ";
    } else if c == '/' && i + 1 < |query| && query[i + 1] == '*' {
      next := SkipBlock(query, i);
      piece := " ";
    } else if c == '\'' {
      next := EndOf(query, i + 1, '\'');
      piece := "''";
    } else if c == '[' || c == '"' {
      next := EndOf(query, i + 1, if c == '[' then ']' else '"');
      piece := query[i..next];
      assert s[..next - i] == piece;
      assert First(s) == Delimited(piece);
    } else {
      piece := [c];
      next := i + 1;
    }
  }

  /** One left-to-right pass computes exactly the rendering of the token grammar. */
  method StripNoise(query: string) returns (out: string)
    ensures out == Strip(query)
  {
    out := "";
    var i := 0;
    assert query[0..] == query;
    while i < |query|
      invariant i <= |query|
      invariant Strip(query) == out + Strip(query[i..])
    {
      StripAt(query, i, out);
      var piece, next := ScanToken(query, i);
      out := out + piece;
      i := next;
    }
    assert query[i..] == "";
  }

  // ── Token ends under prefixing and appending ──

  /** The closed part is closed by itself, and what comes after it does not double the delimiter. */
  lemma {:induction false} ClosingCut(t: string, c: char)
    ensures var n := ClosingLen(t, c);
            ClosingLen(t[..n], c) == n && Closes(t[..n], c) == Closes(t, c)
            && (n < |t| ==> Closes(t, c) && t[n] != c)
  {
    if t == "" {
    } else if t[0] != c {
      ClosingCut(t[1..], c);
      var n := ClosingLen(t, c);
      assert t[..n][1..] == t[1..][..n - 1];
    } else if Pair(t, c, c) {
      ClosingCut(t[2..], c);
      var n := ClosingLen(t, c);
      assert t[..n][2..] == t[2..][..n - 2];
    } else {
      assert t[..1] == [c];
    }
  }

  lemma {:induction false} ClosingAppend(t: string, u: string, c: char)
    requires ClosingLen(t, c) == |t| && u != ""
    ensures ClosingLen(t + u, c) == |t| <==> Closes(t, c) && u[0] != c
    ensures ClosingLen(t + u, c) >= |t|
    ensures Closes(t, c) && u[0] != c ==> Closes(t + u, c)
  {
    if t == "" {
      assert t + u == u;
    } else if t[0] != c {
      ClosingAppend(t[1..], u, c);
      assert (t + u)[1..] == t[1..] + u;
    } else if Pair(t, c, c) {
      ClosingAppend(t[2..], u, c);
      assert (t + u)[2..] == t[2..] + u;
    } else {
      assert t == [c];
    }
  }

  lemma {:induction false} ClosesAtEnd(t: string, c: char)
    requires Closes(t, c) && ClosingLen(t, c) == |t|
    ensures t != "" && t[|t| - 1] == c
  {
    if t[0] != c {
      ClosesAtEnd(t[1..], c);
    } else if Pair(t, c, c) {
      ClosesAtEnd(t[2..], c);
    }
  }

  lemma {:induction false} BlockCut(t: string, d: int)
    ensures var n := BlockLen(t, d);
            BlockLen(t[..n], d) == n && BlockCloses(t[..n], d) == BlockCloses(t, d)
            && (n < |t| ==> BlockCloses(t, d))
  {
    var n := BlockLen(t, d);
    if t == "" {
    } else if Pair(t, '/', '*') {
      BlockCut(t[2..], d + 1);
      assert t[..n][2..] == t[2..][..n - 2];
    } else if Pair(t, '*', '/') {
      if d == 1 {
        assert t[..n] == ['*', '/'];
      } else {
        BlockCut(t[2..], d - 1);
        assert t[..n][2..] == t[2..][..n - 2];
      }
    } else {
      BlockCut(t[1..], d);
      assert t[..n][1..] == t[1..][..n - 1];
    }
  }

  lemma {:induction false} BlockAppend(t: string, u: string, d: int)
    requires BlockLen(t, d) == |t| && u != ""
    ensures BlockLen(t + u, d) == |t| <==> BlockCloses(t, d)
    ensures BlockLen(t + u, d) >= |t|
  {
    if t == "" {
      assert t + u == u;
    } else if Pair(t, '/', '*') {
      BlockAppend(t[2..], u, d + 1);
      assert (t + u)[2..] == t[2..] + u;
    } else if Pair(t, '*', '/') {
      assert (t + u)[2..] == t[2..] + u;
      if d != 1 { BlockAppend(t[2..], u, d - 1); }
    } else {
      BlockAppend(t[1..], u, d);
      assert (t + u)[1..] == t[1..] + u;
    }
  }

  lemma {:induction false} LineAppend(t: string, u: string)
    requires LineLen(t) == |t| && u != ""
    ensures LineLen(t + u) == |t| <==> u[0] == '\n' || u[0] == '\r'
    ensures LineLen(t + u) >= |t|
  {
    if t == "" {
      assert t + u == u;
    } else {
      LineAppend(t[1..], u);
      assert (t + u)[1..] == t[1..] + u;
    }
  }

  lemma {:induction false} LineCut(t: string)
    ensures var n := LineLen(t);
            LineLen(t[..n]) == n && (n < |t| ==> t[n] == '\n' || t[n] == '\r')
  {
    if t != "" && t[0] != '\n' && t[0] != '\r' {
      LineCut(t[1..]);
      assert t[..LineLen(t)][1..] == t[1..][..LineLen(t) - 1];
    }
  }

  // ── Cutting a text at a token boundary, and putting it back ──

  /** The first token is one token by itself, and is sealed by what follows it. */
  lemma FirstCut(s: string)
    requires s != ""
    ensures Single(First(s)) && Seals(First(s), s[|Source(First(s))|..])
  {
    match First(s)
    case LineComment(_) => LineCut(s);
    case BlockComment(_) => BlockCut(s, 0);
    case Literal(_) => QuotedCut(s, '\'');
    case Delimited(_) => QuotedCut(s, CloseOf(s[0]));
    case Code(_) =>
  }

  lemma QuotedCut(s: string, c: char)
    requires s != ""
    ensures var n := 1 + ClosingLen(s[1..], c);
            && s[..n][0] == s[0] && ClosingLen(s[..n][1..], c) == n - 1
            && (n < |s| ==> Closes(s[..n][1..], c) && s[n] != c)
  {
    ClosingCut(s[1..], c);
    var n := 1 + ClosingLen(s[1..], c);
    assert s[..n][1..] == s[1..][..n - 1];
  }

  lemma JoinLiteral(t: Token, u: string)
    requires Single(t) && t.Literal? && u != ""
    ensures |Source(First(Source(t) + u))| == |Source(t)| <==> Seals(t, u)
    ensures Seals(t, u) ==> First(Source(t) + u) == t
  {
    var a := Source(t);
    ClosingAppend(a[1..], u, '\'');
    assert (a + u)[1..] == a[1..] + u && (a + u)[..|a|] == a;
  }

  lemma JoinDelimited(t: Token, u: string)
    requires Single(t) && t.Delimited? && u != ""
    ensures |Source(First(Source(t) + u))| == |Source(t)| <==> Seals(t, u)
    ensures Seals(t, u) ==> First(Source(t) + u) == t
  {
    var a := Source(t);
    ClosingAppend(a[1..], u, CloseOf(a[0]));
    assert (a + u)[1..] == a[1..] + u && (a + u)[..|a|] == a;
  }

  lemma JoinComment(t: Token, u: string)
    requires Single(t) && (t.LineComment? || t.BlockComment?) && u != ""
    ensures |Source(First(Source(t) + u))| == |Source(t)| <==> Seals(t, u)
    ensures Seals(t, u) ==> First(Source(t) + u) == t
  {
    var a := Source(t);
    if t.LineComment? { LineAppend(a, u); } else { BlockAppend(a, u, 0); }
    assert (a + u)[..|a|] == a;
  }

  lemma JoinCode(t: Token, u: string)
    requires Single(t) && t.Code? && u != ""
    ensures |Source(First(Source(t) + u))| == |Source(t)| <==> Seals(t, u)
    ensures Seals(t, u) ==> First(Source(t) + u) == t
  {
    var s := Source(t) + u;
    assert s[1..] == u && s[0] == t.c;
    if Pair(s, '-', '-') { assert LineLen(s) == 2 + LineLen(s[1..][1..]); }
  }

  /** A token followed by more text is still the first token iff it is sealed; otherwise it has grown. */
  lemma FirstJoin(t: Token, u: string)
    requires Single(t)
    ensures |Source(First(Source(t) + u))| == |Source(t)| <==> Seals(t, u)
    ensures Seals(t, u) ==> First(Source(t) + u) == t
  {
    if u == "" {
      assert Source(t) + u == Source(t);
    } else {
      match t
      case LineComment(_) => JoinComment(t, u);
      case BlockComment(_) => JoinComment(t, u);
      case Literal(_) => JoinLiteral(t, u);
      case Delimited(_) => JoinDelimited(t, u);
      case Code(_) => JoinCode(t, u);
    }
  }

  /** The tokens' source texts concatenate to exactly the input, and every cut is a real one. */
  lemma {:induction false} LexCovers(s: string)
    ensures Sources(Lex(s)) == s && WellLexed(Lex(s))
  {
    if s != "" {
      var t := First(s);
      var rest := s[|Source(t)|..];
      LexCovers(rest);
      FirstCut(s);
      assert Lex(s)[0] == t && Lex(s)[1..] == Lex(rest);
    }
  }

  lemma LexStep(t: Token, rest: string)
    requires Source(t) != "" && First(Source(t) + rest) == t
    ensures Lex(Source(t) + rest) == [t] + Lex(rest)
  {
    assert (Source(t) + rest)[|Source(t)|..] == rest;
  }

  /** Well-lexed tokens are what their text lexes to: tokens and texts determine each other. */
  lemma {:induction false} LexUnique(ts: seq<Token>)
    requires WellLexed(ts)
    ensures Lex(Sources(ts)) == ts
  {
    if ts != [] {
      LexUnique(ts[1..]);
      FirstJoin(ts[0], Sources(ts[1..]));
      LexStep(ts[0], Sources(ts[1..]));
      assert ts == [ts[0]] + ts[1..];
    }
  }
}
