/**
 * Writing a batch in other case never moves a verdict: stripping, trimming, every kind of entry and the last tests of
 * both guards treat two texts alike that differ only in the case of ASCII letters.
 */
module CaseBlind {
  import opened Text
  import opened Lexer
  import opened Words
  import opened Patterns
  import opened Guards

  predicate Letter(c: char) {
    'a' <= c <= 'z' || 'A' <= c <= 'Z'
  }

  /** Two characters that differ at most in case. */
  lemma SameButForCase(c: char, d: char)
    requires Fold(c) == Fold(d)
    ensures c == d || (Letter(c) && Letter(d))
    ensures IsWordChar(c) == IsWordChar(d) && IsSpace(c) == IsSpace(d)
  {
  }

  lemma Tails(a: string, b: string, i: nat)
    requires SameWord(a, b) && i <= |a|
    ensures SameWord(a[i..], b[i..]) && SameWord(a[..i], b[..i])
  {
  }

  lemma Slices(a: string, b: string, i: nat, j: nat)
    requires SameWord(a, b) && i <= j <= |a|
    ensures SameWord(a[i..j], b[i..j])
  {
  }

  lemma Transitive(a: string, b: string, c: string)
    requires SameWord(a, b) && SameWord(b, c)
    ensures SameWord(a, c) && SameWord(b, a)
  {
    forall i | 0 <= i < |a| ensures Fold(a[i]) == Fold(c[i]) { assert Fold(a[i]) == Fold(b[i]) == Fold(c[i]); }
  }

  lemma CharAt(a: string, b: string, i: nat)
    requires SameWord(a, b) && i < |a|
    ensures a[i] == b[i] || (Letter(a[i]) && Letter(b[i]))
    ensures IsWordChar(a[i]) == IsWordChar(b[i]) && IsSpace(a[i]) == IsSpace(b[i])
  {
    assert Fold(a[i]) == Fold(b[i]);
    SameButForCase(a[i], b[i]);
  }

  // ── Stripping ──

  lemma PairAlike(a: string, b: string, x: char, y: char)
    requires SameWord(a, b) && !Letter(x) && !Letter(y)
    ensures Pair(a, x, y) == Pair(b, x, y)
  {
    if |a| >= 2 {
      CharAt(a, b, 0);
      CharAt(a, b, 1);
    }
  }

  lemma {:induction false} ClosingAlike(a: string, b: string, close: char)
    requires SameWord(a, b) && !Letter(close)
    ensures ClosingLen(a, close) == ClosingLen(b, close)
  {
    if a != "" {
      CharAt(a, b, 0);
      PairAlike(a, b, close, close);
      if a[0] != close {
        Tails(a, b, 1);
        ClosingAlike(a[1..], b[1..], close);
      } else if Pair(a, close, close) {
        Tails(a, b, 2);
        ClosingAlike(a[2..], b[2..], close);
      }
    }
  }

  lemma {:induction false} LineAlike(a: string, b: string)
    requires SameWord(a, b)
    ensures LineLen(a) == LineLen(b)
  {
    if a != "" {
      CharAt(a, b, 0);
      Tails(a, b, 1);
      if a[0] != '\n' && a[0] != '\r' { LineAlike(a[1..], b[1..]); }
    }
  }

  lemma {:induction false} BlockAlike(a: string, b: string, depth: int)
    requires SameWord(a, b)
    ensures BlockLen(a, depth) == BlockLen(b, depth)
  {
    if a != "" {
      PairAlike(a, b, '/', '*');
      PairAlike(a, b, '*', '/');
      if Pair(a, '/', '*') {
        Tails(a, b, 2);
        BlockAlike(a[2..], b[2..], depth + 1);
      } else if Pair(a, '*', '/') {
        Tails(a, b, 2);
        if depth != 1 { BlockAlike(a[2..], b[2..], depth - 1); }
      } else {
        Tails(a, b, 1);
        BlockAlike(a[1..], b[1..], depth);
      }
    }
  }

  lemma FirstAlike(a: string, b: string)
    requires SameWord(a, b) && a != ""
    ensures |Source(First(a))| == |Source(First(b))| && SameWord(Render(First(a)), Render(First(b)))
  {
    CharAt(a, b, 0);
    PairAlike(a, b, '-', '-');
    PairAlike(a, b, '/', '*');
    LineAlike(a, b);
    BlockAlike(a, b, 0);
    Tails(a, b, 1);
    ClosingAlike(a[1..], b[1..], '\'');
    if !Letter(CloseOf(a[0])) { ClosingAlike(a[1..], b[1..], CloseOf(a[0])); }
    Tails(a, b, |Source(First(a))|);
  }

  lemma Joins(a: string, b: string, c: string, d: string)
    requires SameWord(a, b) && SameWord(c, d)
    ensures SameWord(a + c, b + d)
  {
  }

  lemma {:induction false} StripAlike(a: string, b: string)
    requires SameWord(a, b)
    ensures SameWord(Strip(a), Strip(b))
    decreases |a|
  {
    if a != "" {
      FirstAlike(a, b);
      var n := |Source(First(a))|;
      Tails(a, b, n);
      hide SameWord, First;
      StripAlike(a[n..], b[n..]);
      StripStep(a);
      StripStep(b);
      Joins(Render(First(a)), Render(First(b)), Strip(a[n..]), Strip(b[n..]));
    }
  }

  lemma StripStep(s: string)
    requires s != ""
    ensures Strip(s) == Render(First(s)) + Strip(s[|Source(First(s))|..])
  {
    assert Lex(s)[0] == First(s) && Lex(s)[1..] == Lex(s[|Source(First(s))|..]);
  }

  lemma TrimAlike(a: string, b: string)
    requires SameWord(a, b)
    ensures SameWord(Trim(a), Trim(b))
  {
    forall i | 0 <= i < |a| ensures IsSpace(a[i]) == IsSpace(b[i]) { CharAt(a, b, i); }
    hide IsSpace;
    assert InkStart(a) == InkStart(b) && InkEnd(a) == InkEnd(b);
    Slices(a, b, InkStart(a), InkEnd(a));
  }

  // ── Matching ──

  lemma WordAlike(t: string, u: string, i: nat, n: nat)
    requires SameWord(t, u) && WordAt(t, i, n)
    ensures WordAt(u, i, n) && SameWord(t[i..i + n], u[i..i + n])
  {
    forall j | 0 <= j < |t| ensures IsWordChar(t[j]) == IsWordChar(u[j]) { CharAt(t, u, j); }
    Slices(t, u, i, i + n);
  }

  lemma BlankAlike(t: string, u: string, i: nat, j: nat)
    requires SameWord(t, u) && i <= j <= |t| && Blank(t[i..j])
    ensures Blank(u[i..j])
  {
    forall k | 0 <= k < j - i ensures IsSpace(u[i..j][k]) {
      CharAt(t, u, i + k);
      assert t[i..j][k] == t[i + k];
    }
  }

  lemma OneOfAlike(v: string, w: string, alts: seq<string>)
    requires SameWord(v, w) && OneOf(v, alts)
    ensures OneOf(w, alts)
  {
    var k :| 0 <= k < |alts| && SameWord(v, alts[k]);
    Symmetric(v, w);
    Transitive(w, v, alts[k]);
  }

  lemma Symmetric(a: string, b: string)
    requires SameWord(a, b)
    ensures SameWord(b, a)
  {
  }

  lemma SameAlike(v: string, w: string, x: string)
    requires SameWord(v, w) && SameWord(v, x)
    ensures SameWord(w, x)
  {
    Symmetric(v, w);
    Transitive(w, v, x);
  }

  lemma InfixAlike(v: string, w: string, stem: string, part: string, m: nat)
    requires SameWord(v, w) && InfixAt(v, stem, part, m)
    ensures InfixAt(w, stem, part, m)
  {
    Slices(v, w, 0, |stem|);
    Slices(v, w, m, m + |part|);
    SameAlike(v[..|stem|], w[..|stem|], stem);
    SameAlike(v[m..m + |part|], w[m..m + |part|], part);
    forall i | |stem| <= i < m ensures IsLetter(w[i]) { CharAt(v, w, i); }
  }

  lemma TestAlike(p: Pattern, v: string, w: string)
    requires SingleWord(p) && SameWord(v, w) && WordTest(p)(v)
    ensures WordTest(p)(w)
  {
    match p
    case Word(alts) => OneOfAlike(v, w, alts);
    case Stem(stem) =>
      Tails(v, w, |stem|);
      SameAlike(v[..|stem|], w[..|stem|], stem);
    case Infix(stem, part) =>
      var m :| 0 <= m <= |v| && InfixAt(v, stem, part, m);
      InfixAlike(v, w, stem, part, m);
  }

  lemma FitsAlike(v: string, w: string, p: Part)
    requires SameWord(v, w) && Fits(v, p)
    ensures Fits(w, p)
  {
    match p
    case Among(alts) => OneOfAlike(v, w, alts);
    case AnyWord =>
    case Numeral(alts) =>
      if OneOf(v, alts) { OneOfAlike(v, w, alts); } else { CharAt(v, w, 0); }
  }

  lemma {:induction false} PhraseAlike(t: string, u: string, i: nat, words: seq<Part>)
    requires SameWord(t, u) && words != [] && PhraseAt(t, i, words)
    ensures PhraseAt(u, i, words)
    decreases |words|
  {
    hide PhraseAt, WordAt, Fits, Blank;
    var n, j := PhraseSplits(t, i, words);
    WordAlike(t, u, i, n);
    WordLength(t, i, n);
    FitsAlike(t[i..i + n], u[i..i + n], words[0]);
    if |words| > 1 {
      BlankAlike(t, u, i + n, j);
      PhraseAlike(t, u, j, words[1..]);
    }
    PhraseJoins(u, i, n, j, words);
  }

  lemma WordLength(t: string, i: nat, n: nat)
    requires WordAt(t, i, n)
    ensures 0 < n && i + n <= |t|
  {
  }

  /** Marks and exceptions are no letters. */
  predicate Caseless(p: Pattern) {
    match p
    case Phrase(words) => words != []
    case After(mark, _) => !Letter(mark)
    case Before(_, mark) => !Letter(mark)
    case Apart(_, _, except) => forall i :: 0 <= i < |except| ==> !Letter(except[i])
    case _ => true
  }

  lemma AfterAlike(t: string, u: string, i: nat, j: nat, n: nat, mark: char, alts: seq<string>)
    requires SameWord(t, u) && !Letter(mark) && AfterAt(t, i, j, n, mark, alts)
    ensures AfterAt(u, i, j, n, mark, alts)
  {
    WordAlike(t, u, j, n);
    hide WordAt, OneOf, Blank, Letter;
    CharAt(t, u, i);
    BlankAlike(t, u, i + 1, j);
    OneOfAlike(t[j..j + n], u[j..j + n], alts);
  }

  lemma BeforeAlike(t: string, u: string, i: nat, n: nat, j: nat, alts: seq<string>, mark: char)
    requires SameWord(t, u) && !Letter(mark) && BeforeAt(t, i, n, j, alts, mark)
    ensures BeforeAt(u, i, n, j, alts, mark)
  {
    WordAlike(t, u, i, n);
    hide WordAt, OneOf, Blank, Letter;
    CharAt(t, u, j);
    BlankAlike(t, u, i + n, j);
    OneOfAlike(t[i..i + n], u[i..i + n], alts);
  }

  lemma ApartAlike(t: string, u: string, i: nat, n: nat, j: nat, m: nat, q: nat, p: Pattern)
    requires SameWord(t, u) && p.Apart? && Caseless(p) && ApartAt(t, i, n, j, m, q, p)
    ensures ApartAt(u, i, n, j, m, q, p)
  {
    WordAlike(t, u, i, n);
    WordAlike(t, u, j, m);
    hide WordAt, Blank;
    CharAt(t, u, q);
    if t[q] != u[q] { LetterIsNoException(u[q], p); }
    BlankAlike(t, u, j + m, q);
    SameAlike(t[i..i + n], u[i..i + n], p.first);
    SameAlike(t[j..j + m], u[j..j + m], p.second);
  }

  lemma LetterIsNoException(c: char, p: Pattern)
    requires p.Apart? && Caseless(p) && Letter(c)
    ensures c !in p.except
  {
  }

  lemma WordsAlike(p: Pattern, t: string, u: string)
    requires SingleWord(p) && SameWord(t, u) && HasWord(t, WordTest(p))
    ensures HasWord(u, WordTest(p))
  {
    hide WordTest, WordAt;
    var i, n :| 0 <= i < |t| && 0 < n <= |t| - i && WordAt(t, i, n) && WordTest(p)(t[i..i + n]);
    WordAlike(t, u, i, n);
    TestAlike(p, t[i..i + n], u[i..i + n]);
  }

  lemma ApartToo(p: Pattern, t: string, u: string)
    requires SameWord(t, u) && p.Apart? && Caseless(p) && HasApart(t, p)
    ensures HasApart(u, p)
  {
    hide ApartAt, SameWord;
    var n, m := |p.first|, |p.second|;
    var i, j, q :| 0 <= i < |t| && 0 <= j < |t| && 0 <= q < |t| && ApartAt(t, i, n, j, m, q, p);
    ApartAlike(t, u, i, n, j, m, q, p);
    ApartIsThere(u, i, n, j, m, q, p);
  }

  lemma MatchesToo(p: Pattern, t: string, u: string)
    requires SameWord(t, u) && Caseless(p) && Matches(p, t)
    ensures Matches(p, u)
  {
    hide PhraseAt, AfterAt, BeforeAt, HasApart, HasWord, SameWord;
    assert |t| == |u| by { LengthAlike(t, u); }
    match p
    case Phrase(words) =>
      var i :| 0 <= i < |t| && PhraseAt(t, i, words);
      PhraseAlike(t, u, i, words);
    case After(mark, alts) =>
      var i, j, n :| 0 <= i < |t| && 0 <= j < |t| && 0 < n <= |t| && AfterAt(t, i, j, n, mark, alts);
      AfterAlike(t, u, i, j, n, mark, alts);
    case Before(alts, mark) =>
      var i, n, j :| 0 <= i < |t| && 0 < n <= |t| && 0 <= j < |t| && BeforeAt(t, i, n, j, alts, mark);
      BeforeAlike(t, u, i, n, j, alts, mark);
    case Apart(_, _, _) => ApartToo(p, t, u);
    case _ => WordsAlike(p, t, u);
  }

  lemma LengthAlike(t: string, u: string)
    requires SameWord(t, u)
    ensures |t| == |u|
  {
  }

  /** An entry matches two texts that differ only in case, or neither. */
  lemma MatchesAlike(p: Pattern, t: string, u: string)
    requires SameWord(t, u) && Caseless(p)
    ensures Matches(p, t) <==> Matches(p, u)
  {
    Symmetric(t, u);
    hide Matches, SameWord;
    if Matches(p, t) { MatchesToo(p, t, u); }
    if Matches(p, u) { MatchesToo(p, u, t); }
  }

  // ── The last tests ──

  lemma BoundaryAlike(t: string, u: string, i: nat)
    requires SameWord(t, u) && i <= |t|
    ensures Boundary(t, i) == Boundary(u, i)
  {
    if i > 0 { CharAt(t, u, i - 1); }
    if i < |t| { CharAt(t, u, i); }
  }

  lemma MentionAlike(t: string, u: string, i: nat, name: string)
    requires SameWord(t, u) && MentionedAt(t, i, name)
    ensures MentionedAt(u, i, name)
  {
    Slices(t, u, i, i + |name|);
    SameAlike(t[i..i + |name|], u[i..i + |name|], name);
    BoundaryAlike(t, u, i);
    BoundaryAlike(t, u, i + |name|);
  }

  lemma TargetsAlike(t: string, u: string, a: nat, b: nat)
    requires SameWord(t, u) && a <= b <= |t| && forall m :: a <= m < b ==> TargetChar(t[m])
    ensures forall m :: a <= m < b ==> TargetChar(u[m])
  {
    forall m | a <= m < b ensures TargetChar(u[m]) { CharAt(t, u, m); }
  }

  lemma DeleteAlike(t: string, u: string, i: nat, a: nat)
    requires SameWord(t, u) && DeleteAt(t, i, a)
    ensures DeleteAt(u, i, a)
  {
    WordAlike(t, u, i, 6);
    hide WordAt, Blank;
    BlankAlike(t, u, i + 6, a);
    CharAt(t, u, a);
    SameAlike(t[i..i + 6], u[i..i + 6], "DELETE");
  }

  lemma UpdateAlike(t: string, u: string, i: nat, a: nat, b: nat, c: nat)
    requires SameWord(t, u) && UpdateAt(t, i, a, b, c)
    ensures UpdateAt(u, i, a, b, c)
  {
    WordAlike(t, u, i, 6);
    WordAlike(t, u, c, 3);
    TargetsAlike(t, u, a, b);
    LengthAlike(t, u);
    hide WordAt, Blank, TargetChar, SameWord;
    BlankAlike(t, u, i + 6, a);
    BlankAlike(t, u, b, c);
    SameAlike(t[i..i + 6], u[i..i + 6], "UPDATE");
    SameAlike(t[c..c + 3], u[c..c + 3], "SET");
  }

  lemma ChangesToo(t: string, u: string)
    requires SameWord(t, u) && ChangesTable(t)
    ensures ChangesTable(u)
  {
    hide UpdateAt, DeleteAt;
    if exists i, a :: 0 <= i < |t| && 0 <= a < |t| && DeleteAt(t, i, a) {
      var i, a :| 0 <= i < |t| && 0 <= a < |t| && DeleteAt(t, i, a);
      DeleteAlike(t, u, i, a);
    } else {
      var i, a, b, c :| 0 <= i < |t| && 0 <= a < |t| && 0 <= b < |t| && 0 <= c < |t| && UpdateAt(t, i, a, b, c);
      UpdateAlike(t, u, i, a, b, c);
    }
  }

  lemma MentionsToo(t: string, u: string, names: seq<string>)
    requires SameWord(t, u) && Mentions(t, names)
    ensures Mentions(u, names)
  {
    hide MentionedAt;
    var k, i :| 0 <= k < |names| && 0 <= i <= |t| && MentionedAt(t, i, names[k]);
    MentionAlike(t, u, i, names[k]);
  }

  lemma LastTestsAlike(t: string, u: string, optIn: bool, sensitive: seq<string>)
    requires SameWord(t, u)
    ensures UnboundedRead(optIn, sensitive)(t) == UnboundedRead(optIn, sensitive)(u)
    ensures UnboundedWrite(optIn)(t) == UnboundedWrite(optIn)(u)
  {
    Symmetric(t, u);
    MatchesAlike(Word(["WHERE"]), t, u);
    MatchesAlike(Word(["TOP"]), t, u);
    MatchesAlike(Word(["OFFSET"]), t, u);
    hide HasWord, Mentions, ChangesTable, SameWord;
    if Mentions(t, sensitive) { MentionsToo(t, u, sensitive); }
    if Mentions(u, sensitive) { MentionsToo(u, t, sensitive); }
    if ChangesTable(t) { ChangesToo(t, u); }
    if ChangesTable(u) { ChangesToo(u, t); }
  }

  // ── The verdicts ──

  lemma PartsAreCaseless(k: nat)
    ensures k < |READ_CHANGES| ==> Caseless(READ_CHANGES[k])
    ensures k < |READ_SERVER| ==> Caseless(READ_SERVER[k])
    ensures k < |READ_PROCEDURES| ==> Caseless(READ_PROCEDURES[k])
    ensures k < |WRITE_CHANGES| ==> Caseless(WRITE_CHANGES[k])
    ensures k < |WRITE_SERVER| ==> Caseless(WRITE_SERVER[k])
    ensures k < |WRITE_PROCEDURES| ==> Caseless(WRITE_PROCEDURES[k])
  {
  }

  lemma JoinedCaseless(a: seq<Pattern>, b: seq<Pattern>, c: seq<Pattern>, k: nat)
    requires forall i :: 0 <= i < |a| ==> Caseless(a[i])
    requires forall i :: 0 <= i < |b| ==> Caseless(b[i])
    requires forall i :: 0 <= i < |c| ==> Caseless(c[i])
    ensures k < |a + (b + c)| ==> Caseless((a + (b + c))[k])
  {
    hide Caseless;
  }

  lemma TablesAreCaseless(k: nat)
    ensures k < |READ_TABLE| ==> Caseless(READ_TABLE[k])
    ensures k < |WRITE_TABLE| ==> Caseless(WRITE_TABLE[k])
  {
    forall i: nat
      ensures i < |READ_CHANGES| ==> Caseless(READ_CHANGES[i])
      ensures i < |READ_SERVER| ==> Caseless(READ_SERVER[i])
      ensures i < |READ_PROCEDURES| ==> Caseless(READ_PROCEDURES[i])
      ensures i < |WRITE_CHANGES| ==> Caseless(WRITE_CHANGES[i])
      ensures i < |WRITE_SERVER| ==> Caseless(WRITE_SERVER[i])
      ensures i < |WRITE_PROCEDURES| ==> Caseless(WRITE_PROCEDURES[i])
    {
      PartsAreCaseless(i);
    }
    hide Caseless;
    JoinedCaseless(READ_CHANGES, READ_SERVER, READ_PROCEDURES, k);
    JoinedCaseless(WRITE_CHANGES, WRITE_SERVER, WRITE_PROCEDURES, k);
  }

  lemma {:induction false} FirstMatchAlike(table: seq<Pattern>, k: nat, t: string, u: string)
    requires k <= |table| && SameWord(t, u) && forall i :: 0 <= i < |table| ==> Caseless(table[i])
    ensures FirstMatch(table, k, t) == FirstMatch(table, k, u)
    decreases |table| - k
  {
    hide Matches, SameWord;
    if k < |table| {
      MatchesAlike(table[k], t, u);
      FirstMatchAlike(table, k + 1, t, u);
    }
  }

  lemma ReturnsAlike(a: string, b: string)
    requires SameWord(a, b)
    ensures HasBareReturn(a) == HasBareReturn(b)
  {
    forall i | 0 <= i < |a| ensures (a[i] == '\r' <==> b[i] == '\r') && (a[i] == '\n' <==> b[i] == '\n') {
      CharAt(a, b, i);
    }
  }

  lemma StartsAlike(t: string, u: string, words: seq<Part>)
    requires SameWord(t, u) && words != []
    ensures PhraseAt(t, 0, words) == PhraseAt(u, 0, words)
  {
    Symmetric(t, u);
    hide PhraseAt, SameWord;
    if PhraseAt(t, 0, words) { PhraseAlike(t, u, 0, words); }
    if PhraseAt(u, 0, words) { PhraseAlike(u, t, 0, words); }
  }

  lemma JudgeAlike(table: seq<Pattern>, starts: seq<string>, unbounded: string -> bool, a: string, b: string)
    requires SameWord(a, b) && forall i :: 0 <= i < |table| ==> Caseless(table[i])
    requires unbounded(Trim(Strip(a))) == unbounded(Trim(Strip(b)))
    ensures Judge(table, starts, unbounded, a) == Judge(table, starts, unbounded, b)
  {
    LengthAlike(a, b);
    ReturnsAlike(a, b);
    StripAlike(a, b);
    TrimAlike(Strip(a), Strip(b));
    hide SameWord, PhraseAt, HasBareReturn, Trim, Strip, Caseless, FirstMatch;
    StartsAlike(Trim(Strip(a)), Trim(Strip(b)), [Among(starts)]);
    FirstMatchAlike(table, 0, Trim(Strip(a)), Trim(Strip(b)));
  }

  /** Two batches that differ only in the case of letters, wherever they stand, get the same verdict. */
  lemma VerdictsIgnoreCase(a: string, b: string, optIn: bool, sensitive: seq<string>)
    requires |a| == |b| && forall i :: 0 <= i < |a| ==>
                             || a[i] == b[i] || ('a' <= a[i] <= 'z' && a[i] as int - 32 == b[i] as int)
                             || ('a' <= b[i] <= 'z' && b[i] as int - 32 == a[i] as int)
    ensures ValidateQuery(a, optIn, sensitive) == ValidateQuery(b, optIn, sensitive)
    ensures ValidateWriteQuery(a, optIn) == ValidateWriteQuery(b, optIn)
  {
    assert SameWord(a, b);
    forall k: nat
      ensures k < |READ_TABLE| ==> Caseless(READ_TABLE[k])
      ensures k < |WRITE_TABLE| ==> Caseless(WRITE_TABLE[k])
    {
      TablesAreCaseless(k);
    }
    StripAlike(a, b);
    TrimAlike(Strip(a), Strip(b));
    hide SameWord, Judge, Caseless, Trim, Strip, UnboundedRead, UnboundedWrite;
    LastTestsAlike(Trim(Strip(a)), Trim(Strip(b)), optIn, sensitive);
    JudgeAlike(READ_TABLE, READ_STARTS, UnboundedRead(optIn, sensitive), a, b);
    JudgeAlike(WRITE_TABLE, WRITE_STARTS, UnboundedWrite(optIn), a, b);
  }
}
