/** The shapes of the guards' expressions, in a text and in code. */
module Patterns {
  import opened Text
  import opened Words

  /** A word of a phrase: one of these, any word at all, or one of these or a word that begins with a digit. */
  datatype Part = Among(alts: seq<string>) | AnyWord | Numeral(alts: seq<string>)

  /**
   * A table entry. `Word` is `\b(A|B)\b`, `Stem` is `\bA\w+`, `Infix` is `\bA[A-Z_]*B\w`-star, `Phrase` is
   * `\bA\s+B\b` and its longer forms, with `\w` or `\d` in place of a last word. `After` is a mark with such a word
   * behind it, `Before` such a word with a mark behind it, blanks between them or not. `Apart` is `\bA\b`, anywhere
   * behind it `\bB\s+`, and then a character that is none of `except`.
   */
  datatype Pattern =
    | Word(alts: seq<string>)
    | Stem(stem: string)
    | Infix(stem: string, part: string)
    | Phrase(words: seq<Part>)
    | After(mark: char, alts: seq<string>)
    | Before(alts: seq<string>, mark: char)
    | Apart(first: string, second: string, except: string)

  predicate OneOf(w: string, alts: seq<string>) {
    exists k :: 0 <= k < |alts| && SameWord(w, alts[k])
  }

  function IsOneOf(alts: seq<string>): string -> bool {
    w => OneOf(w, alts)
  }

  function Extends(stem: string): string -> bool {
    w => |w| > |stem| && SameWord(w[..|stem|], stem)
  }

  predicate IsLetter(c: char) {
    'a' <= c <= 'z' || 'A' <= c <= 'Z' || c == '_'
  }

  predicate InfixAt(w: string, stem: string, part: string, m: nat) {
    && |stem| <= m && m + |part| <= |w| && SameWord(w[..|stem|], stem) && SameWord(w[m..m + |part|], part)
    && forall i :: |stem| <= i < m ==> IsLetter(w[i])
  }

  function HoldsInfix(stem: string, part: string): string -> bool {
    w => exists m :: 0 <= m <= |w| && InfixAt(w, stem, part, m)
  }

  predicate Fits(w: string, p: Part) {
    match p
    case Among(alts) => OneOf(w, alts)
    case AnyWord => true
    case Numeral(alts) => OneOf(w, alts) || (w != "" && '0' <= w[0] <= '9')
  }

  predicate PhraseAt(t: string, i: nat, words: seq<Part>)
    decreases |words|
  {
    words == [] ||
    exists n :: 0 < n <= |t| - i && WordAt(t, i, n) && Fits(t[i..i + n], words[0]) &&
                (|words| == 1 || exists j :: i + n < j < |t| && Blank(t[i + n..j]) && PhraseAt(t, j, words[1..]))
  }

  predicate HasPhrase(t: string, words: seq<Part>) {
    exists i :: 0 <= i < |t| && PhraseAt(t, i, words)
  }

  predicate AfterAt(t: string, i: nat, j: nat, n: nat, mark: char, alts: seq<string>) {
    && i < j && j + n <= |t| && t[i] == mark && Blank(t[i + 1..j])
    && WordAt(t, j, n) && OneOf(t[j..j + n], alts)
  }

  predicate BeforeAt(t: string, i: nat, n: nat, j: nat, alts: seq<string>, mark: char) {
    && i + n <= j < |t| && WordAt(t, i, n) && OneOf(t[i..i + n], alts)
    && Blank(t[i + n..j]) && t[j] == mark
  }

  /** Two words, `n` and `m` long, and the character at `q`. Blanks are characters too: two of them satisfy the end. */
  predicate ApartAt(t: string, i: nat, n: nat, j: nat, m: nat, q: nat, p: Pattern)
    requires p.Apart?
  {
    && i + n <= j && j + m < q < |t|
    && WordAt(t, i, n) && SameWord(t[i..i + n], p.first) && WordAt(t, j, m) && SameWord(t[j..j + m], p.second)
    && Blank(t[j + m..q]) && t[q] !in p.except
  }

  predicate HasAfter(t: string, mark: char, alts: seq<string>) {
    exists i, j, n :: 0 <= i < |t| && 0 <= j < |t| && 0 < n <= |t| && AfterAt(t, i, j, n, mark, alts)
  }

  predicate HasBefore(t: string, alts: seq<string>, mark: char) {
    exists i, n, j :: 0 <= i < |t| && 0 < n <= |t| && 0 <= j < |t| && BeforeAt(t, i, n, j, alts, mark)
  }

  predicate HasApart(t: string, p: Pattern)
    requires p.Apart?
  {
    exists i, j, q :: 0 <= i < |t| && 0 <= j < |t| && 0 <= q < |t|
                      && ApartAt(t, i, |p.first|, j, |p.second|, q, p)
  }

  lemma ApartIsThere(t: string, i: nat, n: nat, j: nat, m: nat, q: nat, p: Pattern)
    requires p.Apart? && ApartAt(t, i, n, j, m, q, p)
    ensures HasApart(t, p)
  {
    assert n == |p.first| && m == |p.second|;
  }

  predicate SingleWord(p: Pattern) {
    p.Word? || p.Stem? || p.Infix?
  }

  /** What a single-word or stem entry asks of a word. */
  function WordTest(p: Pattern): string -> bool
    requires SingleWord(p)
  {
    match p
    case Word(alts) => IsOneOf(alts)
    case Stem(stem) => Extends(stem)
    case Infix(stem, part) => HoldsInfix(stem, part)
  }

  predicate Matches(p: Pattern, t: string) {
    match p
    case Phrase(words) => HasPhrase(t, words)
    case After(mark, alts) => HasAfter(t, mark, alts)
    case Before(alts, mark) => HasBefore(t, alts, mark)
    case Apart(_, _, _) => HasApart(t, p)
    case _ => HasWord(t, WordTest(p))
  }

  // ── Trimming does not matter ──

  /** All of `t` outside `a..b` is blank. */
  predicate Window(t: string, a: nat, b: nat) {
    a <= b <= |t| && (forall j :: 0 <= j < a ==> IsSpace(t[j])) && (forall j :: b <= j < |t| ==> IsSpace(t[j]))
  }

  lemma TrimIsWindow(t: string)
    ensures Window(t, InkStart(t), InkEnd(t)) && Trim(t) == t[InkStart(t)..InkEnd(t)]
  {
  }

  /** `t` is `pre + u + post` with blank ends: its words are the words of `u`, shifted. */
  lemma WordInWindow(t: string, a: nat, b: nat, i: nat, n: nat)
    requires Window(t, a, b) && WordAt(t, i, n)
    ensures a <= i && i + n <= b && WordAt(t[a..b], i - a, n) && t[a..b][i - a..i - a + n] == t[i..i + n]
  {
    assert IsWordChar(t[i]) && IsWordChar(t[i + n - 1]);
    var u := t[a..b];
    forall j | i - a <= j < i - a + n ensures IsWordChar(u[j]) { assert u[j] == t[a + j]; }
    if i > a { assert u[i - a - 1] == t[i - 1]; }
    if i + n < b { assert u[i - a + n] == t[i + n]; }
    SliceOfSlice(t, a, b, i - a, i - a + n);
  }

  lemma WordOutOfWindow(t: string, a: nat, b: nat, i: nat, n: nat)
    requires a <= b <= |t| && Window(t, a, b) && WordAt(t[a..b], i, n)
    ensures WordAt(t, a + i, n) && t[a..b][i..i + n] == t[a + i..a + i + n]
  {
    var u := t[a..b];
    forall j | a + i <= j < a + i + n ensures IsWordChar(t[j]) { assert u[j - a] == t[j]; }
    if i > 0 { assert u[i - 1] == t[a + i - 1]; } else if a > 0 { assert IsSpace(t[a - 1]); }
    if i + n < b - a { assert u[i + n] == t[a + i + n]; } else if b < |t| { assert IsSpace(t[b]); }
    SliceOfSlice(t, a, b, i, i + n);
  }

  lemma TrimmedWords(t: string, p: string -> bool)
    requires HasWord(Trim(t), p)
    ensures HasWord(t, p)
  {
    var u, a := Trim(t), InkStart(t);
    var i, n :| 0 <= i < |u| && 0 < n <= |u| - i && WordAt(u, i, n) && p(u[i..i + n]);
    TrimIsWindow(t);
    WordOutOfWindow(t, a, InkEnd(t), i, n);
    assert p(t[a + i..a + i + n]);
  }

  lemma WordsTrimmed(t: string, p: string -> bool)
    requires HasWord(t, p)
    ensures HasWord(Trim(t), p)
  {
    var u, a := Trim(t), InkStart(t);
    var i, n :| 0 <= i < |t| && 0 < n <= |t| - i && WordAt(t, i, n) && p(t[i..i + n]);
    TrimIsWindow(t);
    WordInWindow(t, a, InkEnd(t), i, n);
    assert p(u[i - a..i - a + n]);
  }

  lemma TrimInvisible(t: string, p: string -> bool)
    ensures HasWord(Trim(t), p) <==> HasWord(t, p)
  {
    if HasWord(t, p) { WordsTrimmed(t, p); }
    if HasWord(Trim(t), p) { TrimmedWords(t, p); }
  }

  /** The first word of a phrase, and where the rest of it begins. */
  predicate Begins(t: string, i: nat, n: nat, j: nat, words: seq<Part>)
    requires words != []
  {
    && WordAt(t, i, n) && Fits(t[i..i + n], words[0])
    && (|words| > 1 ==> i + n < j < |t| && Blank(t[i + n..j]))
  }

  lemma PhraseSplits(t: string, i: nat, words: seq<Part>) returns (n: nat, j: nat)
    requires words != [] && PhraseAt(t, i, words)
    ensures Begins(t, i, n, j, words) && (|words| > 1 ==> PhraseAt(t, j, words[1..]))
  {
    n :| 0 < n <= |t| - i && WordAt(t, i, n) && Fits(t[i..i + n], words[0]) &&
      (|words| == 1 || exists j :: i + n < j < |t| && Blank(t[i + n..j]) && PhraseAt(t, j, words[1..]));
    j := 0;
    if |words| > 1 {
      j :| i + n < j < |t| && Blank(t[i + n..j]) && PhraseAt(t, j, words[1..]);
    }
  }

  lemma PhraseJoins(t: string, i: nat, n: nat, j: nat, words: seq<Part>)
    requires words != [] && Begins(t, i, n, j, words) && (|words| > 1 ==> PhraseAt(t, j, words[1..]))
    ensures PhraseAt(t, i, words)
  {
  }

  lemma BlankInWindow(t: string, a: nat, b: nat, x: nat, y: nat)
    requires a <= x <= y <= b <= |t|
    ensures Blank(t[x..y]) <==> Blank(t[a..b][x - a..y - a])
  {
    SliceOfSlice(t, a, b, x - a, y - a);
  }

  lemma BeginsInWindow(t: string, a: nat, b: nat, i: nat, n: nat, j: nat, words: seq<Part>)
    requires words != [] && Window(t, a, b) && Begins(t, i, n, j, words) && (|words| > 1 ==> a <= j < b)
    ensures a <= i < b && Begins(t[a..b], i - a, n, if |words| > 1 then j - a else 0, words)
  {
    WordInWindow(t, a, b, i, n);
    assert b <= |t|;
    hide WordAt, Fits, Blank, Window;
    if |words| > 1 { BlankInWindow(t, a, b, i + n, j); }
  }

  lemma BeginsOutOfWindow(t: string, a: nat, b: nat, i: nat, n: nat, j: nat, words: seq<Part>)
    requires words != [] && Window(t, a, b) && Begins(t[a..b], i, n, j, words)
    ensures i < b - a && Begins(t, a + i, n, a + j, words)
  {
    WordOutOfWindow(t, a, b, i, n);
    hide WordAt, Fits, Blank;
    if |words| > 1 { BlankInWindow(t, a, b, a + i + n, a + j); }
  }

  /** Likewise a phrase: its words and the blanks between them lie inside what trimming leaves. */
  lemma {:induction false} PhraseInWindow(t: string, a: nat, b: nat, i: nat, words: seq<Part>)
    requires Window(t, a, b) && words != [] && PhraseAt(t, i, words)
    ensures a <= i < b && PhraseAt(t[a..b], i - a, words)
    decreases |words|
  {
    hide PhraseAt, Begins;
    var n, j := PhraseSplits(t, i, words);
    if |words| > 1 { PhraseInWindow(t, a, b, j, words[1..]); }
    BeginsInWindow(t, a, b, i, n, j, words);
    PhraseJoins(t[a..b], i - a, n, if |words| > 1 then j - a else 0, words);
  }

  lemma {:induction false} PhraseOutOfWindow(t: string, a: nat, b: nat, i: nat, words: seq<Part>)
    requires Window(t, a, b) && words != [] && PhraseAt(t[a..b], i, words)
    ensures i < b - a && PhraseAt(t, a + i, words)
    decreases |words|
  {
    hide PhraseAt, Begins;
    var n, j := PhraseSplits(t[a..b], i, words);
    if |words| > 1 { PhraseOutOfWindow(t, a, b, j, words[1..]); }
    BeginsOutOfWindow(t, a, b, i, n, j, words);
    PhraseJoins(t, a + i, n, a + j, words);
  }

  lemma TrimInvisibleToPhrases(t: string, words: seq<Part>)
    requires words != []
    ensures HasPhrase(Trim(t), words) <==> HasPhrase(t, words)
  {
    var a, b := InkStart(t), InkEnd(t);
    if HasPhrase(t, words) {
      var i :| 0 <= i < |t| && PhraseAt(t, i, words);
      PhraseInWindow(t, a, b, i, words);
    }
    if HasPhrase(Trim(t), words) {
      var i :| 0 <= i < |Trim(t)| && PhraseAt(Trim(t), i, words);
      PhraseOutOfWindow(t, a, b, i, words);
    }
  }

  // ── Phrases of code ──

  /** What may stand between the words of a phrase: white space, or a comment. */
  predicate BlankPiece(p: Piece) {
    match p
    case Ch(c) => IsSpace(c)
    case Comment(_) => true
    case Value(_) => false
    case Name(_) => false
  }

  predicate BlankPieces(ps: seq<Piece>, a: nat, b: nat)
    requires a <= b <= |ps|
  {
    forall j :: a <= j < b ==> BlankPiece(ps[j])
  }

  /** Words of code, one after the other, with nothing but white space and comments between them. */
  predicate CodePhraseAt(ps: seq<Piece>, k: nat, words: seq<Part>)
    decreases |words|
  {
    words == [] ||
    exists n :: 0 < n <= |ps| - k && CodeWordAt(ps, k, n) && Fits(Chars(ps[k..k + n]), words[0]) &&
                (|words| == 1 ||
                 exists m :: k + n < m < |ps| && BlankPieces(ps, k + n, m) && CodePhraseAt(ps, m, words[1..]))
  }

  predicate HasCodePhrase(ps: seq<Piece>, words: seq<Part>) {
    exists k :: 0 <= k < |ps| && CodePhraseAt(ps, k, words)
  }

  lemma {:induction false} BlankRun(ps: seq<Piece>, t: string, off: seq<nat>, a: nat, b: nat)
    requires Proper(ps) && Layout(ps, t, off) && a <= b <= |ps| && BlankPieces(ps, a, b)
    ensures off[a] <= off[b] <= |t| && (a < b ==> off[a] < off[b]) && Blank(t[off[a]..off[b]])
  {
    if a < b {
      BlankRun(ps, t, off, a, b - 1);
      PieceEdges(ps, t, off, b - 1);
      assert Sits(ps, t, off, b - 1) && BlankPiece(ps[b - 1]);
      forall i | off[a] <= i < off[b] ensures IsSpace(t[i]) {
        if i < off[b - 1] {
          assert t[off[a]..off[b - 1]][i - off[a]] == t[i];
        } else {
          assert t[off[b - 1] + (i - off[b - 1])] == TextOf(ps[b - 1])[i - off[b - 1]];
        }
      }
    } else if b < |ps| {
      PieceEdges(ps, t, off, b);
    }
  }

  predicate CodeBegins(ps: seq<Piece>, k: nat, n: nat, m: nat, words: seq<Part>)
    requires words != []
  {
    && CodeWordAt(ps, k, n) && Fits(Chars(ps[k..k + n]), words[0])
    && (|words| > 1 ==> k + n < m < |ps| && BlankPieces(ps, k + n, m))
  }

  lemma CodePhraseSplits(ps: seq<Piece>, k: nat, words: seq<Part>) returns (n: nat, m: nat)
    requires words != [] && CodePhraseAt(ps, k, words)
    ensures CodeBegins(ps, k, n, m, words) && (|words| > 1 ==> CodePhraseAt(ps, m, words[1..]))
  {
    n :| 0 < n <= |ps| - k && CodeWordAt(ps, k, n) && Fits(Chars(ps[k..k + n]), words[0]) &&
      (|words| == 1 || exists m :: k + n < m < |ps| && BlankPieces(ps, k + n, m) && CodePhraseAt(ps, m, words[1..]));
    m := 0;
    if |words| > 1 {
      m :| k + n < m < |ps| && BlankPieces(ps, k + n, m) && CodePhraseAt(ps, m, words[1..]);
    }
  }

  lemma CodePhraseJoins(ps: seq<Piece>, k: nat, n: nat, m: nat, words: seq<Part>)
    requires words != [] && CodeBegins(ps, k, n, m, words) && (|words| > 1 ==> CodePhraseAt(ps, m, words[1..]))
    ensures CodePhraseAt(ps, k, words)
  {
  }

  /** No hiding, for phrases: comments between the words do not help. */
  lemma {:induction false} PhraseShows(ps: seq<Piece>, t: string, off: seq<nat>, k: nat, words: seq<Part>)
    requires Proper(ps) && Layout(ps, t, off) && words != [] && CodePhraseAt(ps, k, words)
    ensures k < |ps| && off[k] < |t| && PhraseAt(t, off[k], words)
    decreases |words|
  {
    hide PhraseAt, CodePhraseAt, Fits, Proper, Blank;
    var n, m := CodePhraseSplits(ps, k, words);
    NoHiding(ps, t, off, k, n);
    if |words| > 1 {
      PhraseShows(ps, t, off, m, words[1..]);
      BlankRun(ps, t, off, k + n, m);
      RunEnd(ps, t, off, k, n);
      PhraseJoins(t, off[k], n, off[m], words);
    } else {
      PhraseJoins(t, off[k], n, 0, words);
    }
  }

  lemma RunEnd(ps: seq<Piece>, t: string, off: seq<nat>, k: nat, n: nat)
    requires Layout(ps, t, off) && CodeWordAt(ps, k, n)
    ensures off[k + n] == off[k] + n
  {
    RunText(ps, t, off, k, n);
  }

  lemma CodePhraseFlat(ps: seq<Piece>, words: seq<Part>)
    requires Proper(ps) && words != [] && HasCodePhrase(ps, words)
    ensures HasPhrase(Flat(ps), words)
  {
    var off := HasLayout(ps);
    var k :| 0 <= k < |ps| && CodePhraseAt(ps, k, words);
    PhraseShows(ps, Flat(ps), off, k, words);
  }

  // ── Marks of code ──

  predicate CodeAfterAt(ps: seq<Piece>, k: nat, m: nat, n: nat, mark: char, alts: seq<string>) {
    && k < m && m + n <= |ps| && ps[k] == Ch(mark) && BlankPieces(ps, k + 1, m)
    && CodeWordAt(ps, m, n) && OneOf(Chars(ps[m..m + n]), alts)
  }

  predicate CodeBeforeAt(ps: seq<Piece>, k: nat, n: nat, m: nat, alts: seq<string>, mark: char) {
    && k + n <= m < |ps| && CodeWordAt(ps, k, n) && OneOf(Chars(ps[k..k + n]), alts)
    && BlankPieces(ps, k + n, m) && ps[m] == Ch(mark)
  }

  /** What a piece begins with is visible and none of these characters. */
  predicate BeginsOtherwise(p: Piece, except: string) {
    TextOf(p) != "" && !IsSpace(TextOf(p)[0]) && TextOf(p)[0] !in except
  }

  predicate CodeApartAt(ps: seq<Piece>, k: nat, n: nat, h: nat, m: nat, q: nat, p: Pattern)
    requires p.Apart?
  {
    && k + n <= h && h + m < q < |ps|
    && CodeWordAt(ps, k, n) && SameWord(Chars(ps[k..k + n]), p.first)
    && CodeWordAt(ps, h, m) && SameWord(Chars(ps[h..h + m]), p.second)
    && BlankPieces(ps, h + m, q) && BeginsOtherwise(ps[q], p.except)
  }

  predicate HasCodeAfter(ps: seq<Piece>, mark: char, alts: seq<string>) {
    exists k, m, n :: 0 <= k < |ps| && 0 <= m < |ps| && 0 < n <= |ps| && CodeAfterAt(ps, k, m, n, mark, alts)
  }

  predicate HasCodeBefore(ps: seq<Piece>, alts: seq<string>, mark: char) {
    exists k, n, m :: 0 <= k < |ps| && 0 < n <= |ps| && 0 <= m < |ps| && CodeBeforeAt(ps, k, n, m, alts, mark)
  }

  predicate HasCodeApart(ps: seq<Piece>, p: Pattern)
    requires p.Apart?
  {
    exists k, h, q :: 0 <= k < |ps| && 0 <= h < |ps| && 0 <= q < |ps|
                      && CodeApartAt(ps, k, |p.first|, h, |p.second|, q, p)
  }

  lemma CharOfCode(ps: seq<Piece>, t: string, off: seq<nat>, k: nat)
    requires Proper(ps) && Layout(ps, t, off) && k < |ps|
    ensures TextOf(ps[k]) != "" && off[k] < off[k + 1] <= |t| && t[off[k]] == TextOf(ps[k])[0]
    ensures ps[k].Ch? ==> off[k + 1] == off[k] + 1
  {
    PieceEdges(ps, t, off, k);
    assert Sits(ps, t, off, k);
    assert t[off[k] + 0] == TextOf(ps[k])[0];
  }

  lemma {:induction false} OffsetsGrow(ps: seq<Piece>, t: string, off: seq<nat>, a: nat, b: nat)
    requires Proper(ps) && Layout(ps, t, off) && a <= b <= |ps|
    ensures off[a] <= off[b] && (a < b ==> off[a] < off[b])
  {
    if a < b {
      PieceEdges(ps, t, off, b - 1);
      OffsetsGrow(ps, t, off, a, b - 1);
    }
  }

  lemma AfterShows(ps: seq<Piece>, t: string, off: seq<nat>, k: nat, m: nat, n: nat, mark: char, alts: seq<string>)
    requires Proper(ps) && Layout(ps, t, off) && CodeAfterAt(ps, k, m, n, mark, alts)
    ensures AfterAt(t, off[k], off[m], n, mark, alts)
  {
    CharOfCode(ps, t, off, k);
    BlankRun(ps, t, off, k + 1, m);
    NoHiding(ps, t, off, m, n);
  }

  lemma BeforeShows(ps: seq<Piece>, t: string, off: seq<nat>, k: nat, n: nat, m: nat, alts: seq<string>, mark: char)
    requires Proper(ps) && Layout(ps, t, off) && CodeBeforeAt(ps, k, n, m, alts, mark)
    ensures BeforeAt(t, off[k], n, off[m], alts, mark)
  {
    CharOfCode(ps, t, off, m);
    RunEnd(ps, t, off, k, n);
    BlankRun(ps, t, off, k + n, m);
    NoHiding(ps, t, off, k, n);
  }

  lemma ApartShows(ps: seq<Piece>, t: string, off: seq<nat>, k: nat, n: nat, h: nat, m: nat, q: nat, p: Pattern)
    requires Proper(ps) && Layout(ps, t, off) && p.Apart? && CodeApartAt(ps, k, n, h, m, q, p)
    ensures ApartAt(t, off[k], n, off[h], m, off[q], p) && !IsSpace(t[off[q]])
  {
    CharOfCode(ps, t, off, q);
    RunEnd(ps, t, off, k, n);
    RunEnd(ps, t, off, h, m);
    OffsetsGrow(ps, t, off, k + n, h);
    BlankRun(ps, t, off, h + m, q);
    NoHiding(ps, t, off, k, n);
    NoHiding(ps, t, off, h, m);
  }

  lemma AfterInWindow(t: string, a: nat, b: nat, i: nat, j: nat, n: nat, mark: char, alts: seq<string>)
    requires Window(t, a, b) && AfterAt(t, i, j, n, mark, alts) && !IsSpace(mark)
    ensures a <= i && AfterAt(t[a..b], i - a, j - a, n, mark, alts)
  {
    WordInWindow(t, a, b, j, n);
    assert a <= i < j < b <= |t|;
    assert t[a..b][i - a] == t[i];
    hide WordAt, OneOf, Blank, Window;
    BlankInWindow(t, a, b, i + 1, j);
  }

  lemma BeforeInWindow(t: string, a: nat, b: nat, i: nat, n: nat, j: nat, alts: seq<string>, mark: char)
    requires Window(t, a, b) && BeforeAt(t, i, n, j, alts, mark) && !IsSpace(mark)
    ensures a <= i && BeforeAt(t[a..b], i - a, n, j - a, alts, mark)
  {
    WordInWindow(t, a, b, i, n);
    assert a <= i && i + n <= j < b <= |t|;
    assert t[a..b][j - a] == t[j];
    hide WordAt, OneOf, Blank, Window;
    BlankInWindow(t, a, b, i + n, j);
  }

  lemma ApartInWindow(t: string, a: nat, b: nat, i: nat, n: nat, j: nat, m: nat, q: nat, p: Pattern)
    requires Window(t, a, b) && p.Apart? && ApartAt(t, i, n, j, m, q, p) && !IsSpace(t[q])
    ensures a <= i <= j <= q && ApartAt(t[a..b], i - a, n, j - a, m, q - a, p)
  {
    WordInWindow(t, a, b, i, n);
    WordInWindow(t, a, b, j, m);
    hide WordAt, SameWord, Blank;
    BlankInWindow(t, a, b, j + m, q);
  }

  lemma AfterOutOfWindow(t: string, a: nat, b: nat, i: nat, j: nat, n: nat, mark: char, alts: seq<string>)
    requires a <= b <= |t| && Window(t, a, b) && AfterAt(t[a..b], i, j, n, mark, alts)
    ensures AfterAt(t, a + i, a + j, n, mark, alts)
  {
    WordOutOfWindow(t, a, b, j, n);
    assert t[a..b][i] == t[a + i];
    hide WordAt, OneOf, Blank, Window;
    BlankInWindow(t, a, b, a + i + 1, a + j);
  }

  lemma BeforeOutOfWindow(t: string, a: nat, b: nat, i: nat, n: nat, j: nat, alts: seq<string>, mark: char)
    requires a <= b <= |t| && Window(t, a, b) && BeforeAt(t[a..b], i, n, j, alts, mark)
    ensures BeforeAt(t, a + i, n, a + j, alts, mark)
  {
    WordOutOfWindow(t, a, b, i, n);
    assert t[a..b][j] == t[a + j];
    hide WordAt, OneOf, Blank, Window;
    BlankInWindow(t, a, b, a + i + n, a + j);
  }

  lemma TrimInvisibleAfter(t: string, mark: char, alts: seq<string>)
    requires !IsSpace(mark)
    ensures HasAfter(Trim(t), mark, alts) <==> HasAfter(t, mark, alts)
  {
    TrimIsWindow(t);
    var a, b, u := InkStart(t), InkEnd(t), Trim(t);
    if HasAfter(t, mark, alts) {
      var i, j, n :| 0 <= i < |t| && 0 <= j < |t| && 0 < n <= |t| && AfterAt(t, i, j, n, mark, alts);
      AfterInWindow(t, a, b, i, j, n, mark, alts);
    }
    if HasAfter(u, mark, alts) {
      var i, j, n :| 0 <= i < |u| && 0 <= j < |u| && 0 < n <= |u| && AfterAt(u, i, j, n, mark, alts);
      AfterOutOfWindow(t, a, b, i, j, n, mark, alts);
    }
  }

  lemma TrimInvisibleBefore(t: string, alts: seq<string>, mark: char)
    requires !IsSpace(mark)
    ensures HasBefore(Trim(t), alts, mark) <==> HasBefore(t, alts, mark)
  {
    TrimIsWindow(t);
    var a, b, u := InkStart(t), InkEnd(t), Trim(t);
    if HasBefore(t, alts, mark) {
      var i, n, j :| 0 <= i < |t| && 0 < n <= |t| && 0 <= j < |t| && BeforeAt(t, i, n, j, alts, mark);
      BeforeInWindow(t, a, b, i, n, j, alts, mark);
    }
    if HasBefore(u, alts, mark) {
      var i, n, j :| 0 <= i < |u| && 0 < n <= |u| && 0 <= j < |u| && BeforeAt(u, i, n, j, alts, mark);
      BeforeOutOfWindow(t, a, b, i, n, j, alts, mark);
    }
  }

  /** What any entry but a single word asks of the code of a batch. */
  predicate CodeMatches(p: Pattern, ps: seq<Piece>) {
    match p
    case Phrase(words) => HasCodePhrase(ps, words)
    case After(mark, alts) => HasCodeAfter(ps, mark, alts)
    case Before(alts, mark) => HasCodeBefore(ps, alts, mark)
    case Apart(_, _, _) => HasCodeApart(ps, p)
    case _ => CodeHasWord(ps, WordTest(p))
  }

  /** The entries of the tables: phrases have words, marks are visible. */
  predicate Sensible(p: Pattern) {
    (p.Phrase? ==> p.words != []) && (p.After? || p.Before? ==> !IsSpace(p.mark))
  }

  lemma MarkShows(p: Pattern, ps: seq<Piece>)
    requires Proper(ps) && (p.After? || p.Before?) && Sensible(p) && CodeMatches(p, ps)
    ensures Matches(p, Trim(Flat(ps)))
  {
    var t := Flat(ps);
    var off := HasLayout(ps);
    TrimIsWindow(t);
    match p
    case After(mark, alts) =>
      var k, m, n :| 0 <= k < |ps| && 0 <= m < |ps| && 0 < n <= |ps| && CodeAfterAt(ps, k, m, n, mark, alts);
      AfterShows(ps, t, off, k, m, n, mark, alts);
      AfterInWindow(t, InkStart(t), InkEnd(t), off[k], off[m], n, mark, alts);
    case Before(alts, mark) =>
      var k, n, m :| 0 <= k < |ps| && 0 < n <= |ps| && 0 <= m < |ps| && CodeBeforeAt(ps, k, n, m, alts, mark);
      BeforeShows(ps, t, off, k, n, m, alts, mark);
      BeforeInWindow(t, InkStart(t), InkEnd(t), off[k], n, off[m], alts, mark);
  }

  lemma ApartOfText(t: string, i: nat, n: nat, j: nat, m: nat, q: nat, p: Pattern)
    requires p.Apart? && ApartAt(t, i, n, j, m, q, p) && !IsSpace(t[q])
    ensures HasApart(Trim(t), p)
  {
    hide ApartAt, HasApart, Window;
    TrimIsWindow(t);
    hide Trim;
    var a, b := InkStart(t), InkEnd(t);
    ApartInWindow(t, a, b, i, n, j, m, q, p);
    ApartIsThere(t[a..b], i - a, n, j - a, m, q - a, p);
  }

  lemma ApartTrimmed(ps: seq<Piece>, k: nat, n: nat, h: nat, m: nat, q: nat, p: Pattern)
    requires Proper(ps) && p.Apart? && CodeApartAt(ps, k, n, h, m, q, p)
    ensures HasApart(Trim(Flat(ps)), p)
  {
    hide HasApart, Trim, Proper, WordAt, Blank, CodeWordAt, SameWord, BlankPieces, BeginsOtherwise;
    var off := HasLayout(ps);
    ApartShows(ps, Flat(ps), off, k, n, h, m, q, p);
    ApartOfText(Flat(ps), off[k], n, off[h], m, off[q], p);
  }

  lemma ApartIsSeen(p: Pattern, ps: seq<Piece>)
    requires Proper(ps) && p.Apart? && HasCodeApart(ps, p)
    ensures HasApart(Trim(Flat(ps)), p)
  {
    hide CodeApartAt, HasApart, Trim, Proper;
    var k, h, q :| 0 <= k < |ps| && 0 <= h < |ps| && 0 <= q < |ps|
      && CodeApartAt(ps, k, |p.first|, h, |p.second|, q, p);
    ApartTrimmed(ps, k, |p.first|, h, |p.second|, q, p);
  }

  /** No hiding, for every kind of entry: what the code of a batch has, its stripped and trimmed text has. */
  lemma CodeShows(p: Pattern, ps: seq<Piece>)
    requires Proper(ps) && Sensible(p) && CodeMatches(p, ps)
    ensures Matches(p, Trim(Flat(ps)))
  {
    match p
    case Phrase(words) =>
      CodePhraseFlat(ps, words);
      TrimInvisibleToPhrases(Flat(ps), words);
    case Apart(_, _, _) => ApartIsSeen(p, ps);
    case After(_, _) => MarkShows(p, ps);
    case Before(_, _) => MarkShows(p, ps);
    case _ =>
      WordsSurviveExactly(ps, WordTest(p));
      TrimInvisible(Flat(ps), WordTest(p));
  }
}
