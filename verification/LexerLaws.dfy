/** Laws of the lexer. */
module LexerLaws {
  import opened Text
  import opened Lexer

  // ── Token sequences ──

  lemma {:induction false} SourcesAppend(a: seq<Token>, b: seq<Token>)
    ensures Sources(a + b) == Sources(a) + Sources(b)
  {
    if a == [] {
      assert a + b == b;
    } else {
      assert (a + b)[0] == a[0] && (a + b)[1..] == a[1..] + b;
      SourcesAppend(a[1..], b);
    }
  }

  lemma {:induction false} RendersAppend(a: seq<Token>, b: seq<Token>)
    ensures Renders(a + b) == Renders(a) + Renders(b)
  {
    if a == [] {
      assert a + b == b;
    } else {
      assert (a + b)[0] == a[0] && (a + b)[1..] == a[1..] + b;
      RendersAppend(a[1..], b);
    }
  }

  lemma {:induction false} WellLexedDrop(ts: seq<Token>, k: nat)
    requires WellLexed(ts) && k <= |ts|
    ensures WellLexed(ts[k..])
  {
    if k == 0 {
      assert ts[0..] == ts;
    } else {
      WellLexedDrop(ts[1..], k - 1);
      assert ts[1..][k - 1..] == ts[k..];
    }
  }

  lemma {:induction false} WellLexedAt(ts: seq<Token>, k: nat)
    requires WellLexed(ts) && k < |ts|
    ensures Single(ts[k]) && Seals(ts[k], Sources(ts[k + 1..])) && WellLexed(ts[k..])
  {
    WellLexedDrop(ts, k);
    assert ts[k..][1..] == ts[k + 1..];
  }

  /** A seal looks at no more than the first character of what follows. */
  lemma SealsFirst(t: Token, a: string, b: string)
    requires Seals(t, a) && a != "" && b != "" && a[0] == b[0]
    ensures Seals(t, b)
  {
  }

  lemma SingleStarts(ts: seq<Token>)
    requires ts != [] && Single(ts[0])
    ensures Sources(ts) != ""
  {
  }

  lemma {:induction false} WellLexedAppend(a: seq<Token>, b: seq<Token>)
    requires WellLexed(a) && WellLexed(b) && (a == [] || Seals(a[|a| - 1], Sources(b)))
    ensures WellLexed(a + b)
  {
    hide Single, Seals, Sources;
    if a == [] {
      assert a + b == b;
    } else {
      var ab, rest := a + b, a[1..];
      assert ab[0] == a[0] && ab[1..] == rest + b;
      if rest == [] {
        assert ab[1..] == b;
      } else {
        assert rest[|rest| - 1] == a[|a| - 1];
        WellLexedAppend(rest, b);
        SourcesAppend(rest, b);
        SingleStarts(rest);
        SealsFirst(a[0], Sources(rest), Sources(ab[1..]));
      }
    }
  }

  // ── Text without delimiters ──

  predicate Plain(c: char) {
    c != '-' && c != '/' && c != '\'' && c != '[' && c != '"'
  }

  function CodeTokens(s: string): seq<Token> {
    seq(|s|, i requires 0 <= i < |s| => Code(s[i]))
  }

  lemma PlainFirst(s: string)
    requires s != "" && Plain(s[0])
    ensures Lex(s) == [Code(s[0])] + Lex(s[1..]) && Strip(s) == [s[0]] + Strip(s[1..])
  {
    assert First(s) == Code(s[0]);
    assert Lex(s)[0] == Code(s[0]) && Lex(s)[1..] == Lex(s[1..]);
  }

  lemma CodeTokensStep(s: string)
    requires s != ""
    ensures CodeTokens(s) == [Code(s[0])] + CodeTokens(s[1..]) && [s[0]] + s[1..] == s
  {
  }

  /** Every character of a plain text is a token of code. */
  lemma {:induction false} PlainLexes(s: string)
    requires forall i :: 0 <= i < |s| ==> Plain(s[i])
    ensures Lex(s) == CodeTokens(s) && Strip(s) == s
  {
    if s != "" {
      PlainFirst(s);
      PlainLexes(s[1..]);
      CodeTokensStep(s);
    }
  }

  // ── Composition ──

  /** True iff the text `s` cannot extend the last token of `p`. */
  predicate Seam(p: string, s: string) {
    Lex(p) == [] || Seals(Lex(p)[|Lex(p)| - 1], s)
  }

  /** Two texts lex to their own tokens when joined iff the seam between them is closed. */
  lemma LexComposes(p: string, s: string)
    ensures Lex(p + s) == Lex(p) + Lex(s) <==> Seam(p, s)
  {
    LexCovers(p);
    LexCovers(s);
    LexCovers(p + s);
    var a, b := Lex(p), Lex(s);
    SourcesAppend(a, b);
    if Seam(p, s) {
      WellLexedAppend(a, b);
      LexUnique(a + b);
    }
    if Lex(p + s) == a + b && a != [] {
      WellLexedAt(a + b, |a| - 1);
      assert (a + b)[|a|..] == b;
    }
  }

  lemma StripComposes(p: string, s: string)
    requires Seam(p, s)
    ensures Strip(p + s) == Strip(p) + Strip(s)
  {
    LexComposes(p, s);
    RendersAppend(Lex(p), Lex(s));
  }

  // ── Idempotence ──

  /** The token a rendering lexes to. */
  function Rendered(t: Token): Token {
    match t
    case LineComment(_) => Code(' ')
    case BlockComment(_) => Code(' ')
    case Literal(_) => Literal("''")
    case Delimited(_) => t
    case Code(_) => t
  }

  function RenderedAll(ts: seq<Token>): seq<Token> {
    if ts == [] then [] else [Rendered(ts[0])] + RenderedAll(ts[1..])
  }

  lemma EmptyLiteral()
    ensures Single(Literal("''")) && Closes("'", '\'')
  {
    assert "''"[1..] == "'" && "'"[1..] == "";
    assert ClosingLen("'", '\'') == 1;
    assert "''"[..2] == "''";
  }

  lemma {:induction false} RenderedIsWellLexed(ts: seq<Token>)
    requires WellLexed(ts)
    ensures WellLexed(RenderedAll(ts)) && Sources(RenderedAll(ts)) == Renders(ts)
    ensures Renders(RenderedAll(ts)) == Renders(ts)
  {
    if ts != [] {
      var rs := RenderedAll(ts);
      assert rs[1..] == RenderedAll(ts[1..]);
      RenderedIsWellLexed(ts[1..]);
      EmptyLiteral();
      if |ts| > 1 {
        assert Single(ts[1]);
        var was, now := Sources(ts[1..]), Renders(ts[1..]);
        assert was[0] == Source(ts[1])[0];
        assert now[0] == Render(ts[1])[0];
        assert now[0] == was[0] || now[0] == ' ';
        assert "''"[1..] == "'";
      }
      assert Single(rs[0]);
      assert Seals(rs[0], Renders(ts[1..]));
    }
  }

  /** Stripping stripped text changes nothing, on every input, closed or not. */
  lemma StripIdempotent(s: string)
    ensures Strip(Strip(s)) == Strip(s)
  {
    LexCovers(s);
    RenderedIsWellLexed(Lex(s));
    LexUnique(RenderedAll(Lex(s)));
  }

  lemma {:induction false} RendersLength(ts: seq<Token>)
    requires WellLexed(ts)
    ensures |Renders(ts)| <= |Sources(ts)| + 1
    ensures ts != [] && Seals(ts[|ts| - 1], " ") ==> |Renders(ts)| <= |Sources(ts)|
  {
    if ts != [] {
      RendersLength(ts[1..]);
      var t := ts[0];
      if |ts| > 1 {
        assert Single(ts[1]);
        if t.Literal? { assert |t.text| >= 2; }
      }
    }
  }

  /** The output is at most one character longer, and only by completing a literal left open. */
  lemma StripLength(s: string)
    ensures |Strip(s)| <= |s| + 1
    ensures Seam(s, " ") ==> |Strip(s)| <= |s|
  {
    LexCovers(s);
    RendersLength(Lex(s));
  }

  // ── Nested comments ──

  datatype Mark = Opens | Shuts | Other

  /** The whole text read as comment marks, two characters at a time where they pair up. */
  function Marks(t: string): seq<Mark> {
    if t == "" then []
    else if Pair(t, '/', '*') then [Opens] + Marks(t[2..])
    else if Pair(t, '*', '/') then [Shuts] + Marks(t[2..])
    else [Other] + Marks(t[1..])
  }

  function Width(ms: seq<Mark>): nat {
    if ms == [] then 0 else (if ms[0].Other? then 1 else 2) + Width(ms[1..])
  }

  /** Opens minus closes. */
  function Balance(ms: seq<Mark>): int {
    if ms == [] then 0 else (if ms[0].Opens? then 1 else if ms[0].Shuts? then -1 else 0) + Balance(ms[1..])
  }

  lemma {:induction false} BlockBalance(t: string, d: int) returns (m: nat)
    requires d >= 1
    ensures m <= |Marks(t)| && BlockLen(t, d) == Width(Marks(t)[..m])
    ensures forall j :: 0 <= j < m ==> d + Balance(Marks(t)[..j]) > 0
    ensures if BlockCloses(t, d) then d + Balance(Marks(t)[..m]) == 0
            else m == |Marks(t)| && d + Balance(Marks(t)) > 0
  {
    var ms := Marks(t);
    m := 0;
    if t != "" {
      var step := if ms[0].Opens? then 1 else if ms[0].Shuts? then -1 else 0;
      var rest := t[if ms[0].Other? then 1 else 2..];
      assert ms[1..] == Marks(rest);
      var k := 0;
      if d + step >= 1 { k := BlockBalance(rest, d + step); }
      m := k + 1;
      forall j | 0 < j <= m ensures Balance(ms[..j]) == step + Balance(ms[1..][..j - 1]) {
        assert ms[..j][1..] == ms[1..][..j - 1];
      }
      assert ms[..m][1..] == ms[1..][..k];
      assert ms[1..][..0] == [];
      if m == |ms| { assert ms[..m] == ms; }
    }
  }

  /** A block comment ends exactly where its opens and closes first balance; unbalanced, it is the rest. */
  lemma BlockEndsAtFirstBalance(t: string) returns (m: nat)
    requires Pair(t, '/', '*')
    ensures 0 < m <= |Marks(t)| && Width(Marks(t)[..m]) <= |t|
    ensures First(t) == BlockComment(t[..Width(Marks(t)[..m])])
    ensures forall j :: 0 < j < m ==> Balance(Marks(t)[..j]) > 0
    ensures if BlockCloses(t, 0) then Balance(Marks(t)[..m]) == 0
            else Width(Marks(t)[..m]) == |t| && Balance(Marks(t)[..m]) > 0
  {
    var ms := Marks(t);
    var k := BlockBalance(t[2..], 1);
    m := k + 1;
    assert ms[1..] == Marks(t[2..]);
    forall j | 0 < j <= m ensures Balance(ms[..j]) == 1 + Balance(ms[1..][..j - 1]) {
      assert ms[..j][1..] == ms[1..][..j - 1];
    }
    assert ms[..m][1..] == ms[1..][..k];
    if !BlockCloses(t, 0) {
      assert ms[1..][..k] == ms[1..];
      MarksCover(t[2..]);
    }
  }

  lemma {:induction false} MarksCover(t: string)
    ensures Width(Marks(t)) == |t|
  {
    if t != "" {
      var n := if Marks(t)[0].Other? then 1 else 2;
      assert Marks(t)[1..] == Marks(t[n..]);
      MarksCover(t[n..]);
    }
  }

  // ── Literals: the printer that doubles quotes against the scanner that reads them ──

  /** A quote-doubled text is consumed exactly to its closing delimiter iff no delimiter follows. */
  lemma {:induction false} DoubledCloses(x: string, s: string, c: char)
    ensures ClosingLen(Doubled(x, c) + [c] + s, c) == |Doubled(x, c)| + 1 <==> s == "" || s[0] != c
    ensures s == "" || s[0] != c ==> Closes(Doubled(x, c) + [c] + s, c)
    ensures ClosingLen(Doubled(x, c) + [c] + s, c) >= |Doubled(x, c)| + 1
  {
    var d := Doubled(x, c) + [c] + s;
    if x == "" {
      assert d == [c] + s;
      if s != "" && s[0] == c { assert Pair(d, c, c); }
    } else {
      DoubledCloses(x[1..], s, c);
      if x[0] == c {
        assert d[2..] == Doubled(x[1..], c) + [c] + s;
      } else {
        assert d[1..] == Doubled(x[1..], c) + [c] + s;
      }
    }
  }

  /** The SQL text of a string literal. */
  function Quoted(x: string): string {
    "'" + Doubled(x, '\'') + "'"
  }

  /** Quoting a value yields one literal token, whose content reads back as the value. */
  lemma QuotedIsOneToken(x: string)
    ensures Lex(Quoted(x)) == [Literal(Quoted(x))] && Closes(Quoted(x)[1..], '\'')
    ensures Undoubled(Quoted(x)[1..|Quoted(x)| - 1], '\'') == x
  {
    var q := Quoted(x);
    var body := Doubled(x, '\'') + ['\''];
    DoubledCloses(x, "", '\'');
    assert body + "" == body && q[1..] == body && q[..|q|] == q && q[|q|..] == "";
    assert First(q) == Literal(q);
    assert q[1..|q| - 1] == Doubled(x, '\'');
    UndoubledInverse(x, '\'');
  }

  lemma QuotedSeam(x: string, s: string)
    requires s == "" || s[0] != '\''
    ensures Seam(Quoted(x), s) && Lex(Quoted(x)) == [Literal(Quoted(x))]
  {
    QuotedIsOneToken(x);
  }

  /** The token sequence of a batch with a quoted value in it. */
  lemma QuotedInPlace(p: string, x: string, s: string)
    requires Seam(p, "'") && (s == "" || s[0] != '\'')
    ensures Lex(p + (Quoted(x) + s)) == Lex(p) + ([Literal(Quoted(x))] + Lex(s))
  {
    var q := Quoted(x);
    QuotedSeam(x, s);
    LexComposes(q, s);
    assert (q + s)[0] == '\'';
    if Lex(p) != [] { SealsFirst(Lex(p)[|Lex(p)| - 1], "'", q + s); }
    LexComposes(p, q + s);
  }

  /** Whatever a literal contains, stripping leaves the same text: its content never reaches a guard. */
  lemma LiteralContentVanishes(p: string, x: string, s: string)
    requires Seam(p, "'") && (s == "" || s[0] != '\'')
    ensures Strip(p + (Quoted(x) + s)) == Strip(p) + ("''" + Strip(s))
  {
    QuotedInPlace(p, x, s);
    var lit := [Literal(Quoted(x))];
    RendersAppend(Lex(p), lit + Lex(s));
    RendersAppend(lit, Lex(s));
    assert lit[1..] == [];
    assert Renders(lit) == "''" + "";
  }

  // ── What is left of each kind of token, told from how it is spelled ──

  /** One token between two texts it does not touch. */
  lemma TokenInPlace(p: string, t: Token, s: string)
    requires Single(t) && Seam(p, Source(t)) && Seals(t, s)
    ensures Lex(p + (Source(t) + s)) == Lex(p) + ([t] + Lex(s))
    ensures Strip(p + (Source(t) + s)) == Strip(p) + (Render(t) + Strip(s))
  {
    var c := Source(t);
    assert First(c) == t && c[|c|..] == "";
    assert Lex(c) == [t];
    LexComposes(c, s);
    if Lex(p) != [] && s != "" { SealsFirst(Lex(p)[|Lex(p)| - 1], c, c + s); }
    assert s == "" ==> c + s == c;
    LexComposes(p, c + s);
    RendersAppend(Lex(p), [t] + Lex(s));
    RendersAppend([t], Lex(s));
    assert [t][1..] == [];
    assert Renders([t]) == Render(t) + "";
  }

  /** A block comment by itself: its opens and closes balance at its end, and not before. */
  predicate ClosedBlock(c: string) {
    && Pair(c, '/', '*') && Balance(Marks(c)) == 0
    && forall j :: 0 < j < |Marks(c)| ==> Balance(Marks(c)[..j]) > 0
  }

  lemma {:induction false} WidthGrows(ms: seq<Mark>, m: nat)
    requires m <= |ms| && Width(ms[..m]) == Width(ms)
    ensures m == |ms|
  {
    if m > 0 {
      assert ms[..m][1..] == ms[1..][..m - 1];
      WidthGrows(ms[1..], m - 1);
    }
  }

  lemma BlockIsOneToken(c: string)
    requires ClosedBlock(c)
    ensures Single(BlockComment(c)) && BlockCloses(c, 0)
  {
    var m := BlockEndsAtFirstBalance(c);
    MarksCover(c);
    assert Marks(c)[..|Marks(c)|] == Marks(c);
    if !BlockCloses(c, 0) { WidthGrows(Marks(c), m); }
    assert m == |Marks(c)|;
    assert c[..|c|] == c;
  }

  /** A closed block comment, nested or not, leaves one blank, whatever is in it and whatever follows. */
  lemma BlockLeavesBlank(p: string, c: string, s: string)
    requires Seam(p, c) && ClosedBlock(c)
    ensures Strip(p + (c + s)) == Strip(p) + (" " + Strip(s))
  {
    BlockIsOneToken(c);
    TokenInPlace(p, BlockComment(c), s);
  }

  predicate IsLineEnd(c: char) {
    c == '\n' || c == '\r'
  }

  lemma {:induction false} LineRuns(c: string)
    requires forall i :: 0 <= i < |c| ==> !IsLineEnd(c[i])
    ensures LineLen(c) == |c|
  {
    if c != "" { LineRuns(c[1..]); }
  }

  /** A line comment up to the end of its line leaves one blank, and the line end stays. */
  lemma LineLeavesBlank(p: string, c: string, s: string)
    requires Seam(p, c) && Pair(c, '-', '-') && (forall i :: 0 <= i < |c| ==> !IsLineEnd(c[i]))
    requires s == "" || IsLineEnd(s[0])
    ensures Strip(p + (c + s)) == Strip(p) + (" " + Strip(s))
  {
    LineRuns(c);
    assert c[..|c|] == c;
    TokenInPlace(p, LineComment(c), s);
  }

  /** A name between brackets or double quotes, the closing one doubled inside. */
  function Enclosed(x: string, bracket: bool): string {
    if bracket then "[" + Doubled(x, ']') + "]" else "\"" + Doubled(x, '"') + "\""
  }

  lemma EnclosedParts(x: string, bracket: bool)
    ensures var e, close := Enclosed(x, bracket), if bracket then ']' else '"';
            && |e| >= 2 && e[0] == (if bracket then '[' else '"') && e[1..] == Doubled(x, close) + [close]
            && e[1..|e| - 1] == Doubled(x, close)
  {
  }

  lemma EnclosedIsOneToken(x: string, bracket: bool)
    ensures Single(Delimited(Enclosed(x, bracket)))
    ensures forall s :: s == "" || s[0] != (if bracket then ']' else '"') ==> Seals(Delimited(Enclosed(x, bracket)), s)
    ensures var e := Enclosed(x, bracket);
            |e| >= 2 && Undoubled(e[1..|e| - 1], if bracket then ']' else '"') == x
  {
    var e, close := Enclosed(x, bracket), if bracket then ']' else '"';
    EnclosedParts(x, bracket);
    hide Enclosed, Doubled, Undoubled;
    DoubledCloses(x, "", close);
    assert e[1..] + "" == e[1..] && e[..|e|] == e;
    UndoubledInverse(x, close);
  }

  /** It is left as it is, whatever is in it: a quote, a comment sign, a closing bracket doubled. */
  lemma NameStays(p: string, x: string, bracket: bool, s: string)
    requires Seam(p, Enclosed(x, bracket)) && (s == "" || s[0] != (if bracket then ']' else '"'))
    ensures Lex(p + (Enclosed(x, bracket) + s)) == Lex(p) + ([Delimited(Enclosed(x, bracket))] + Lex(s))
    ensures Strip(p + (Enclosed(x, bracket) + s)) == Strip(p) + (Enclosed(x, bracket) + Strip(s))
  {
    EnclosedIsOneToken(x, bracket);
    TokenInPlace(p, Delimited(Enclosed(x, bracket)), s);
  }

  /** Everything else is left as it is, character by character. */
  lemma CodeStays(p: string, c: char, s: string)
    requires Seam(p, [c]) && c != '\'' && c != '[' && c != '"'
    requires s == "" || (!(c == '-' && s[0] == '-') && !(c == '/' && s[0] == '*'))
    ensures Lex(p + ([c] + s)) == Lex(p) + ([Code(c)] + Lex(s))
    ensures Strip(p + ([c] + s)) == Strip(p) + ([c] + Strip(s))
  {
    TokenInPlace(p, Code(c), s);
  }
}
