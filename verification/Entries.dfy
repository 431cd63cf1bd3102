/** What the kinds of entry stand for. */
module Entries {
  import opened Text
  import opened Lexer
  import opened Words
  import opened Patterns
  import opened PhraseOrigins
  import opened Guards
  import opened Bounds

  // ── What words and gaps are made of ──

  /** Of code: letters, digits and underscores make words; white space, line ends and comments make gaps; no more. */
  lemma WordsAndGaps(c: char, text: string)
    ensures WordPiece(Ch(c)) <==> 'a' <= c <= 'z' || 'A' <= c <= 'Z' || '0' <= c <= '9' || c == '_'
    ensures c in [' ', '\t', '\n', '\r'] ==> BlankPiece(Ch(c))
    ensures '!' <= c <= '~' ==> !BlankPiece(Ch(c))
    ensures BlankPiece(Comment(text)) && !BlankPiece(Name(text)) && !BlankPiece(Value(text))
  {
  }

  // ── Words that begin so, or have something in them ──

  /** A word of code that begins with the stem and goes on. */
  predicate CodeStem(ps: seq<Piece>, stem: string) {
    exists k, n :: 0 <= k < |ps| && |stem| < n <= |ps| - k && CodeWordAt(ps, k, n)
                   && SameWord(Chars(ps[k..k + |stem|]), stem)
  }

  predicate TextStem(t: string, stem: string) {
    exists i, n :: 0 <= i < |t| && |stem| < n <= |t| - i && WordAt(t, i, n) && SameWord(t[i..i + |stem|], stem)
  }

  predicate NameStem(ps: seq<Piece>, stem: string) {
    exists k :: 0 <= k < |ps| && ps[k].Name? && TextStem(ps[k].text, stem)
  }

  lemma SliceOfWord(t: string, i: nat, n: nat, a: nat, b: nat)
    requires i + n <= |t| && a <= b <= n
    ensures t[i..i + n][a..b] == t[i + a..i + b]
  {
    SliceOfSlice(t, i, i + n, a, b);
  }

  lemma SliceOfCode(ps: seq<Piece>, k: nat, n: nat, a: nat, b: nat)
    requires k + n <= |ps| && a <= b <= n
    ensures Chars(ps[k..k + n])[a..b] == Chars(ps[k + a..k + b])
  {
    var x, y := Chars(ps[k..k + n])[a..b], Chars(ps[k + a..k + b]);
    forall j | 0 <= j < b - a ensures x[j] == y[j] { assert ps[k..k + n][a + j] == ps[k + a..k + b][j]; }
  }

  lemma StemInText(t: string, stem: string)
    ensures HasWord(t, Extends(stem)) <==> TextStem(t, stem)
  {
    hide SameWord, WordAt;
    if HasWord(t, Extends(stem)) {
      var i, n :| 0 <= i < |t| && 0 < n <= |t| - i && WordAt(t, i, n) && Extends(stem)(t[i..i + n]);
      SliceOfWord(t, i, n, 0, |stem|);
    }
    if TextStem(t, stem) {
      var i, n :| 0 <= i < |t| && |stem| < n <= |t| - i && WordAt(t, i, n) && SameWord(t[i..i + |stem|], stem);
      SliceOfWord(t, i, n, 0, |stem|);
      assert Extends(stem)(t[i..i + n]);
    }
  }

  lemma StemInCode(ps: seq<Piece>, stem: string)
    ensures CodeHasWord(ps, Extends(stem)) <==> CodeStem(ps, stem)
  {
    hide SameWord, CodeWordAt, Chars;
    if CodeHasWord(ps, Extends(stem)) {
      var k, n :| 0 <= k < |ps| && 0 < n <= |ps| - k && CodeWordAt(ps, k, n) && Extends(stem)(Chars(ps[k..k + n]));
      CharsLength(ps[k..k + n]);
      SliceOfCode(ps, k, n, 0, |stem|);
    }
    if CodeStem(ps, stem) {
      var k, n :| 0 <= k < |ps| && |stem| < n <= |ps| - k && CodeWordAt(ps, k, n)
        && SameWord(Chars(ps[k..k + |stem|]), stem);
      CharsLength(ps[k..k + n]);
      SliceOfCode(ps, k, n, 0, |stem|);
      assert Extends(stem)(Chars(ps[k..k + n]));
    }
  }

  lemma CharsLength(ps: seq<Piece>)
    ensures |Chars(ps)| == |ps|
  {
  }

  /** `\bXP_\w+` and its like. */
  lemma StemMeans(query: string, stem: string)
    ensures Matches(Stem(stem), Trim(Strip(query)))
       <==> CodeStem(Regions(query), stem) || NameStem(Regions(query), stem)
  {
    MatchesExactly(Stem(stem), query);
    StemInCode(Regions(query), stem);
    forall t: string ensures HasWord(t, Extends(stem)) <==> TextStem(t, stem) { StemInText(t, stem); }
    hide HasWord, TextStem, CodeHasWord, CodeStem, Extends;
  }

  predicate IsCodeLetter(p: Piece) {
    p.Ch? && ('a' <= p.c <= 'z' || 'A' <= p.c <= 'Z' || p.c == '_')
  }

  /** A word of code that begins with the stem and, behind letters and underscores, has the part. */
  predicate CodeInfix(ps: seq<Piece>, stem: string, part: string) {
    exists k, n, m :: 0 <= k < |ps| && 0 < n <= |ps| - k && |stem| <= m <= n - |part| && CodeWordAt(ps, k, n)
                      && CodeInfixAt(ps, k, m, stem, part)
  }

  predicate CodeInfixAt(ps: seq<Piece>, k: nat, m: nat, stem: string, part: string)
    requires |stem| <= m && k + m + |part| <= |ps|
  {
    && SameWord(Chars(ps[k..k + |stem|]), stem) && SameWord(Chars(ps[k + m..k + m + |part|]), part)
    && forall j :: k + |stem| <= j < k + m ==> IsCodeLetter(ps[j])
  }

  lemma InfixOfWord(ps: seq<Piece>, k: nat, n: nat, m: nat, stem: string, part: string)
    requires CodeWordAt(ps, k, n) && |stem| <= m && m + |part| <= n
    ensures InfixAt(Chars(ps[k..k + n]), stem, part, m) <==> CodeInfixAt(ps, k, m, stem, part)
  {
    var w := Chars(ps[k..k + n]);
    SliceOfCode(ps, k, n, 0, |stem|);
    SliceOfCode(ps, k, n, m, m + |part|);
    assert forall j :: k <= j < k + n ==> WordPiece(ps[j]) && w[j - k] == ps[j].c;
    forall i | |stem| <= i < m ensures IsLetter(w[i]) <==> IsCodeLetter(ps[k + i]) { assert w[i] == ps[k + i].c; }
  }

  lemma InfixInCode(ps: seq<Piece>, stem: string, part: string)
    ensures CodeHasWord(ps, HoldsInfix(stem, part)) <==> CodeInfix(ps, stem, part)
  {
    hide SameWord, CodeWordAt, Chars, CodeInfixAt;
    if CodeHasWord(ps, HoldsInfix(stem, part)) {
      var k, n :| 0 <= k < |ps| && 0 < n <= |ps| - k && CodeWordAt(ps, k, n)
        && HoldsInfix(stem, part)(Chars(ps[k..k + n]));
      CharsLength(ps[k..k + n]);
      var m :| 0 <= m <= n && InfixAt(Chars(ps[k..k + n]), stem, part, m);
      InfixOfWord(ps, k, n, m, stem, part);
    }
    if CodeInfix(ps, stem, part) {
      var k, n, m :| 0 <= k < |ps| && 0 < n <= |ps| - k && |stem| <= m <= n - |part| && CodeWordAt(ps, k, n)
        && CodeInfixAt(ps, k, m, stem, part);
      CharsLength(ps[k..k + n]);
      InfixOfWord(ps, k, n, m, stem, part);
      hide InfixAt;
      assert HoldsInfix(stem, part)(Chars(ps[k..k + n]));
    }
  }

  /** `\bSP_[A-Z_]*JOB\w*`: such a word in code, spelled out, or in a delimited name. */
  lemma InfixMeans(query: string, stem: string, part: string)
    ensures Matches(Infix(stem, part), Trim(Strip(query)))
       <==> CodeInfix(Regions(query), stem, part) || NameHasWord(Regions(query), HoldsInfix(stem, part))
  {
    MatchesExactly(Infix(stem, part), query);
    InfixInCode(Regions(query), stem, part);
    hide CodeHasWord, CodeInfix, NameHasWord;
  }

  // ── Two words, one behind the other ──

  /** The word in code, white space or comments, and then a word that is as asked. */
  predicate CodePair(ps: seq<Piece>, w: string, ok: string -> bool) {
    exists k, m, n :: 0 <= k < |ps| && k + |w| < m < |ps| && 0 < n <= |ps| - m && CodeSaysAt(ps, k, w)
                      && BlankPieces(ps, k + |w|, m) && CodeWordAt(ps, m, n) && ok(Chars(ps[m..m + n]))
  }

  predicate TextPair(t: string, w: string, ok: string -> bool) {
    exists i, j, n :: 0 <= i < |t| && i + |w| < j < |t| && 0 < n <= |t| - j && WordAt(t, i, |w|)
                      && SameWord(t[i..i + |w|], w) && Blank(t[i + |w|..j]) && WordAt(t, j, n) && ok(t[j..j + n])
  }

  predicate NamePair(ps: seq<Piece>, w: string, ok: string -> bool) {
    exists k :: 0 <= k < |ps| && ps[k].Name? && TextPair(ps[k].text, w, ok)
  }

  ghost predicate Asks(p: Part, ok: string -> bool) {
    forall v: string :: v != "" ==> (Fits(v, p) <==> ok(v))
  }

  lemma SameLength(v: string, w: string)
    ensures OneOf(v, [w]) ==> |v| == |w|
    ensures OneOf(v, [w]) <==> SameWord(v, w)
  {
    assert [w][0] == w;
  }

  lemma TailOfTwo(a: Part, b: Part)
    ensures [a, b][1..] == [b] && [a, b][0] == a && [b][0] == b
  {
  }

  lemma PairInText(t: string, w: string, p: Part, ok: string -> bool)
    requires Asks(p, ok) && w != ""
    ensures HasPhrase(t, [Among([w]), p]) <==> TextPair(t, w, ok)
  {
    var words := [Among([w]), p];
    TailOfTwo(Among([w]), p);
    hide PhraseAt, WordAt, OneOf, Blank, SameWord;
    if HasPhrase(t, words) {
      var i :| 0 <= i < |t| && PhraseAt(t, i, words);
      var l, j := PhraseSplits(t, i, words);
      WordIsLong(t, i, l);
      SameLength(t[i..i + l], w);
      var n, z := PhraseSplits(t, j, [p]);
      WordIsLong(t, j, n);
      assert ok(t[j..j + n]);
    }
    if TextPair(t, w, ok) {
      var i, j, n :| 0 <= i < |t| && i + |w| < j < |t| && 0 < n <= |t| - j && WordAt(t, i, |w|)
        && SameWord(t[i..i + |w|], w) && Blank(t[i + |w|..j]) && WordAt(t, j, n) && ok(t[j..j + n]);
      SameLength(t[i..i + |w|], w);
      PhraseJoins(t, j, n, 0, [p]);
      PhraseJoins(t, i, |w|, j, words);
    }
  }

  lemma WordIsLong(t: string, i: nat, n: nat)
    requires WordAt(t, i, n)
    ensures 0 < n && i + n <= |t|
  {
  }

  lemma PairInCode(ps: seq<Piece>, w: string, p: Part, ok: string -> bool)
    requires Asks(p, ok) && w != ""
    ensures HasCodePhrase(ps, [Among([w]), p]) <==> CodePair(ps, w, ok)
  {
    hide CodePhraseAt, CodePair;
    if HasCodePhrase(ps, [Among([w]), p]) {
      var k :| 0 <= k < |ps| && CodePhraseAt(ps, k, [Among([w]), p]);
      PhraseIsPair(ps, k, w, p, ok);
    }
    if CodePair(ps, w, ok) { PairIsPhrase(ps, w, p, ok); }
  }

  lemma PhraseIsPair(ps: seq<Piece>, k: nat, w: string, p: Part, ok: string -> bool)
    requires Asks(p, ok) && CodePhraseAt(ps, k, [Among([w]), p])
    ensures CodePair(ps, w, ok)
  {
    TailOfTwo(Among([w]), p);
    hide CodePhraseAt, CodeWordAt, OneOf, BlankPieces, SameWord, Chars;
    var l, m := CodePhraseSplits(ps, k, [Among([w]), p]);
    CodeWordIn(ps, k, l);
    CharsLength(ps[k..k + l]);
    SameLength(Chars(ps[k..k + l]), w);
    var n, z := CodePhraseSplits(ps, m, [p]);
    CodeWordIn(ps, m, n);
    CharsLength(ps[m..m + n]);
    assert CodeSaysAt(ps, k, w) && ok(Chars(ps[m..m + n]));
  }

  lemma PairIsPhrase(ps: seq<Piece>, w: string, p: Part, ok: string -> bool)
    requires Asks(p, ok) && CodePair(ps, w, ok)
    ensures HasCodePhrase(ps, [Among([w]), p])
  {
    TailOfTwo(Among([w]), p);
    hide CodePhraseAt, CodeWordAt, OneOf, BlankPieces, SameWord, Chars;
    var k, m, n :| 0 <= k < |ps| && k + |w| < m < |ps| && 0 < n <= |ps| - m && CodeSaysAt(ps, k, w)
      && BlankPieces(ps, k + |w|, m) && CodeWordAt(ps, m, n) && ok(Chars(ps[m..m + n]));
    CharsLength(ps[m..m + n]);
    SameLength(Chars(ps[k..k + |w|]), w);
    CodePhraseJoins(ps, m, n, 0, [p]);
    CodePhraseJoins(ps, k, |w|, m, [Among([w]), p]);
  }

  lemma PairMeans(query: string, w: string, p: Part, ok: string -> bool)
    requires Asks(p, ok) && w != ""
    ensures Matches(Phrase([Among([w]), p]), Trim(Strip(query)))
       <==> CodePair(Regions(query), w, ok) || NamePair(Regions(query), w, ok)
  {
    PhraseMatchesExactly([Among([w]), p], query);
    PairInCode(Regions(query), w, p, ok);
    forall t: string ensures HasPhrase(t, [Among([w]), p]) <==> TextPair(t, w, ok) { PairInText(t, w, p, ok); }
    hide HasPhrase, TextPair, HasCodePhrase, CodePair, Matches;
  }

  /** `\bUPDATE\s+\w` and its like: the word, a gap, and any word at all. */
  lemma AnyPairMeans(query: string, w: string)
    requires w != ""
    ensures Matches(Phrase([Among([w]), AnyWord]), Trim(Strip(query)))
       <==> CodePair(Regions(query), w, v => true) || NamePair(Regions(query), w, v => true)
  {
    assert Asks(AnyWord, v => true);
    PairMeans(query, w, AnyWord, v => true);
  }

  predicate NumberOrUow(v: string) {
    SameWord(v, "UOW") || (v != "" && '0' <= v[0] <= '9')
  }

  /** `\bKILL\s+\d` and `\bKILL\s+UOW\b`. */
  lemma KillMeans(query: string)
    ensures Matches(Phrase([Among(["KILL"]), Numeral(["UOW"])]), Trim(Strip(query)))
       <==> CodePair(Regions(query), "KILL", NumberOrUow) || NamePair(Regions(query), "KILL", NumberOrUow)
  {
    forall v: string | v != "" ensures Fits(v, Numeral(["UOW"])) <==> NumberOrUow(v) { SameLength(v, "UOW"); }
    hide SameWord;
    PairMeans(query, "KILL", Numeral(["UOW"]), NumberOrUow);
  }
}
