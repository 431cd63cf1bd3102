/** The ROWCOUNT in force, from code. */
module Limits {
  // Of a batch as it is, where nothing sets one, and of a wrapped one, where the last SET ROWCOUNT whose number has
  // been read before a place is the wrapper's first statement, all through the batch, and its last one behind it.

  import opened Text
  import opened Lexer
  import opened Words
  import opened Patterns
  import opened Guards
  import opened RowCap

  function WordEnd(ps: seq<Piece>, k: nat): (e: nat)
    requires k <= |ps|
    ensures k <= e <= |ps| && (forall j :: k <= j < e ==> WordPiece(ps[j])) && (e < |ps| ==> !WordPiece(ps[e]))
    decreases |ps| - k
  {
    if k < |ps| && WordPiece(ps[k]) then WordEnd(ps, k + 1) else k
  }

  function GapEnd(ps: seq<Piece>, k: nat): (e: nat)
    requires k <= |ps|
    ensures k <= e <= |ps| && BlankPieces(ps, k, e) && (e < |ps| ==> !BlankPiece(ps[e]))
    decreases |ps| - k
  {
    if k < |ps| && BlankPiece(ps[k]) then GapEnd(ps, k + 1) else k
  }

  predicate AllDigits(s: string) {
    forall i :: 0 <= i < |s| ==> '0' <= s[i] <= '9'
  }

  datatype Count = Count(n: nat, end: nat)

  /** A SET ROWCOUNT n statement that begins at piece `i`. */
  function CountAt(ps: seq<Piece>, i: nat): Option<Count>
    requires i <= |ps|
  {
    var e1 := WordEnd(ps, i);
    var g1 := GapEnd(ps, e1);
    var e2 := WordEnd(ps, g1);
    var g2 := GapEnd(ps, e2);
    var e3 := WordEnd(ps, g2);
    if (i > 0 && WordPiece(ps[i - 1])) || !SameWord(Chars(ps[i..e1]), "SET") then None
    else if g1 == e1 || !SameWord(Chars(ps[g1..e2]), "ROWCOUNT") then None
    else if g2 == e2 || g2 == e3 || !AllDigits(Chars(ps[g2..e3])) then None
    else Some(Count(ReadDecimal(Chars(ps[g2..e3])), e3))
  }

  /** The statements of a text, by the piece they begin at. */
  function Counts(ps: seq<Piece>): seq<Option<Count>> {
    seq(|ps|, i requires 0 <= i < |ps| => CountAt(ps, i))
  }

  /** The count of the last statement that is complete before `k`, among those beginning before `i`. */
  function InForceBefore(counts: seq<Option<Count>>, k: nat, i: nat): nat
    requires i <= |counts|
  {
    if i == 0 then 0
    else if counts[i - 1].Some? && counts[i - 1].value.end <= k then counts[i - 1].value.n
    else InForceBefore(counts, k, i - 1)
  }

  /** 0, which means no limit, when there is none. */
  function InForce(ps: seq<Piece>, k: nat): nat
    requires k <= |ps|
  {
    InForceBefore(Counts(ps), k, k)
  }

  lemma WordEndIs(ps: seq<Piece>, k: nat, e: nat)
    requires k <= e <= |ps| && (forall j :: k <= j < e ==> WordPiece(ps[j])) && (e < |ps| ==> !WordPiece(ps[e]))
    ensures WordEnd(ps, k) == e
  {
  }

  lemma GapEndIs(ps: seq<Piece>, k: nat)
    requires k + 1 < |ps| && ps[k] == Ch(' ') && !BlankPiece(ps[k + 1])
    ensures GapEnd(ps, k) == k + 1
  {
  }

  lemma CountIsPhrase(ps: seq<Piece>, i: nat)
    requires i <= |ps| && CountAt(ps, i).Some?
    ensures i < |ps| && CodePhraseAt(ps, i, SET_ROWCOUNT)
  {
    var second := SET_ROWCOUNT[1..];
    var e1 := WordEnd(ps, i);
    var g1 := GapEnd(ps, e1);
    var e2 := WordEnd(ps, g1);
    assert |Chars(ps[i..e1])| == 3 && |Chars(ps[g1..e2])| == 8;
    OneOfOne(Chars(ps[i..e1]), "SET");
    OneOfOne(Chars(ps[g1..e2]), "ROWCOUNT");
    GapIsNoWord(ps, e1, g1);
    assert CodeBegins(ps, g1, 8, 0, second);
    CodePhraseJoins(ps, g1, 8, 0, second);
    assert CodeBegins(ps, i, 3, g1, SET_ROWCOUNT);
    CodePhraseJoins(ps, i, 3, g1, SET_ROWCOUNT);
  }

  lemma GapIsNoWord(ps: seq<Piece>, a: nat, b: nat)
    requires a < b <= |ps| && BlankPieces(ps, a, b)
    ensures !WordPiece(ps[b - 1])
  {
    assert BlankPiece(ps[b - 1]);
  }

  lemma DigitsAreWord(d: string)
    requires AllDigits(d)
    ensures forall i :: 0 <= i < |d| ==> IsWordChar(d[i]) && !IsSpace(d[i])
  {
  }

  lemma StatementEnds(ps: seq<Piece>, k: nat)
    requires Spells(ps, k, STATEMENT) && (k > 0 ==> !WordPiece(ps[k - 1]))
    requires k + 13 < |ps| && !BlankPiece(ps[k + 13])
    ensures WordEnd(ps, k) == k + 3 && GapEnd(ps, k + 3) == k + 4 && WordEnd(ps, k + 4) == k + 12
            && GapEnd(ps, k + 12) == k + 13
    ensures Chars(ps[k..k + 3]) == "SET" && Chars(ps[k + 4..k + 12]) == "ROWCOUNT"
  {
    StatementWords(ps, k);
    assert WordEnd(ps, k) == k + 3 by { WordEndIs(ps, k, k + 3); }
    assert GapEnd(ps, k + 3) == k + 4 by { GapEndIs(ps, k + 3); }
    assert WordEnd(ps, k + 4) == k + 12 by { WordEndIs(ps, k + 4, k + 12); }
    assert GapEnd(ps, k + 12) == k + 13 by { GapEndIs(ps, k + 12); }
  }

  lemma DigitsEnd(ps: seq<Piece>, k: nat, d: string)
    requires Spells(ps, k, d) && d != "" && AllDigits(d) && k > 0 && !WordPiece(ps[k - 1])
    requires k + |d| < |ps| ==> !WordPiece(ps[k + |d|])
    ensures WordEnd(ps, k) == k + |d| && Chars(ps[k..k + |d|]) == d && !BlankPiece(ps[k])
  {
    DigitsAreWord(d);
    SpelledWord(ps, k, d);
    WordEndIs(ps, k, k + |d|);
  }

  /** The words and gaps of a statement with the count `d`, as a reader of pieces finds them. */
  predicate ReadsAs(ps: seq<Piece>, k: nat, d: string) {
    && k + 13 + |d| <= |ps| && d != "" && AllDigits(d) && (k > 0 ==> !WordPiece(ps[k - 1]))
    && WordEnd(ps, k) == k + 3 && GapEnd(ps, k + 3) == k + 4 && WordEnd(ps, k + 4) == k + 12
      && GapEnd(ps, k + 12) == k + 13
    && WordEnd(ps, k + 13) == k + 13 + |d|
    && Chars(ps[k..k + 3]) == "SET" && Chars(ps[k + 4..k + 12]) == "ROWCOUNT" && Chars(ps[k + 13..k + 13 + |d|]) == d
  }

  /** A statement spelled out in code is read as such. */
  lemma SpelledReads(ps: seq<Piece>, k: nat, d: string)
    requires Spells(ps, k, STATEMENT) && Spells(ps, k + 13, d) && d != "" && AllDigits(d)
    requires (k > 0 ==> !WordPiece(ps[k - 1])) && (k + 13 + |d| < |ps| ==> !WordPiece(ps[k + 13 + |d|]))
    ensures ReadsAs(ps, k, d)
  {
    StatementParts();
    assert ps[k + 12] == Ch(STATEMENT[12]);
    DigitsEnd(ps, k + 13, d);
    StatementEnds(ps, k);
  }

  lemma CountReads(ps: seq<Piece>, k: nat, d: string)
    requires ReadsAs(ps, k, d)
    ensures CountAt(ps, k) == Some(Count(ReadDecimal(d), k + 13 + |d|))
  {
    hide WordEnd, GapEnd, Chars, WordPiece, BlankPieces, BlankPiece, ReadDecimal;
  }

  lemma {:induction false} NoCountsNoLimit(counts: seq<Option<Count>>, k: nat, i: nat)
    requires i <= |counts| && forall m :: 0 <= m < i ==> counts[m].None?
    ensures InForceBefore(counts, k, i) == 0
  {
    if i > 0 { NoCountsNoLimit(counts, k, i - 1); }
  }

  lemma {:induction false} LastCountRules(counts: seq<Option<Count>>, a: nat, k: nat, i: nat)
    requires a < i <= |counts| && counts[a].Some? && counts[a].value.end <= k
    requires forall m :: a < m < i ==> counts[m].None?
    ensures InForceBefore(counts, k, i) == counts[a].value.n
  {
    if i > a + 1 { LastCountRules(counts, a, k, i - 1); }
  }

  /** A batch without a SET ROWCOUNT of its own runs without a limit when sent as it is. */
  lemma UnlimitedByItself(sqlText: string, k: nat)
    requires NoRowCount(sqlText) && k <= |Regions(HEADER + sqlText)|
    ensures InForce(Regions(HEADER + sqlText), k) == 0
  {
    hide CountAt;
    forall m | 0 <= m < k ensures Counts(Regions(HEADER + sqlText))[m].None? {
      NoCountByItself(sqlText, m);
    }
    NoCountsNoLimit(Counts(Regions(HEADER + sqlText)), k, k);
  }

  lemma NoCountByItself(sqlText: string, m: nat)
    requires NoRowCount(sqlText) && m < |Regions(HEADER + sqlText)|
    ensures CountAt(Regions(HEADER + sqlText), m).None?
  {
    if CountAt(Regions(HEADER + sqlText), m).Some? {
      CountIsPhrase(Regions(HEADER + sqlText), m);
      NoneInCode(sqlText, m);
    }
  }

  /** The first piece behind the wrapper's first statement. */
  function Base(maxRows: nat): nat {
    |HEADER| + |Prefix(maxRows)|
  }

  lemma WrapperReads(sqlText: string, maxRows: nat)
    ensures var ps := WrappedPieces(sqlText, maxRows); |HEADER| < |ps| && ReadsAs(ps, |HEADER|, Decimal(maxRows + 1))
  {
    var ps, p, d := WrappedPieces(sqlText, maxRows), Prefix(maxRows), Decimal(maxRows + 1);
    WrapperSpells(sqlText, maxRows);
    WrapperStatements(maxRows);
    PrefixPlaces(maxRows);
    PrefixDigits(maxRows);
    hide WrappedPieces, Prefix, Decimal, WordEnd, GapEnd;
    SpelledPart(ps, |HEADER|, p, 0, 13);
    SpelledPart(ps, |HEADER|, p, 13, 13 + |d|);
    assert ps[|HEADER| + 13 + |d|] == Ch(p[13 + |d|]);
    SpelledReads(ps, |HEADER|, d);
  }

  lemma WrapperCounts(sqlText: string, maxRows: nat)
    ensures var ps := WrappedPieces(sqlText, maxRows);
            |HEADER| < |ps| && CountAt(ps, |HEADER|) == Some(Count(maxRows + 1, Base(maxRows) - 2))
  {
    WrapperReads(sqlText, maxRows);
    CountReads(WrappedPieces(sqlText, maxRows), |HEADER|, Decimal(maxRows + 1));
    PrefixPlaces(maxRows);
    DecimalReadsBack(maxRows + 1);
  }

  lemma PrefixDigits(maxRows: nat)
    ensures var p, d := Prefix(maxRows), Decimal(maxRows + 1);
            |p| == 15 + |d| && p[13..13 + |d|] == d && p[13 + |d|] == ';' && AllDigits(d)
  {
  }

  lemma NoCountBetween(sqlText: string, maxRows: nat, m: nat)
    requires NoRowCount(sqlText) && !EndsOpen(sqlText) && |HEADER| < m < |WrappedPieces(sqlText, maxRows)| - 15
    ensures CountAt(WrappedPieces(sqlText, maxRows), m).None?
  {
    if CountAt(WrappedPieces(sqlText, maxRows), m).Some? {
      CountIsPhrase(WrappedPieces(sqlText, maxRows), m);
      OnlyTheWrappersInCode(sqlText, maxRows, m);
    }
  }

  /** A wrapped one runs under one row more than the caller keeps, all of it. */
  lemma LimitedWhenWrapped(sqlText: string, maxRows: nat, k: nat)
    requires NoRowCount(sqlText) && !EndsOpen(sqlText) && k <= |Regions(sqlText)|
    ensures Base(maxRows) + k <= |WrappedPieces(sqlText, maxRows)|
    ensures InForce(WrappedPieces(sqlText, maxRows), Base(maxRows) + k) == maxRows + 1
  {
    hide WrappedPieces, CountAt;
    var at := Base(maxRows) + k;
    var counts := Counts(WrappedPieces(sqlText, maxRows));
    WrappedLength(sqlText, maxRows);
    assert counts[|HEADER|] == Some(Count(maxRows + 1, Base(maxRows) - 2)) by { WrapperCounts(sqlText, maxRows); }
    forall m | |HEADER| < m < at ensures counts[m].None? { NoCountBetween(sqlText, maxRows, m); }
    LastCountRules(counts, |HEADER|, at, at);
  }

  lemma SuffixParts()
    ensures |SUFFIX| == 16 && SUFFIX[0] == '\n' && SUFFIX[1..14] == STATEMENT && SUFFIX[14..15] == "0"
            && SUFFIX[15] == ';'
  {
    WrapperStatements(0);
  }

  lemma SuffixReads(ps: seq<Piece>)
    requires |ps| >= 16 && Spells(ps, |ps| - 16, SUFFIX)
    ensures ReadsAs(ps, |ps| - 15, "0")
  {
    SuffixParts();
    var k := |ps| - 16;
    assert ps[k] == Ch(SUFFIX[0]) && ps[k + 15] == Ch(SUFFIX[15]);
    hide WordEnd, GapEnd, SUFFIX;
    SpelledPart(ps, k, SUFFIX, 1, 14);
    SpelledPart(ps, k, SUFFIX, 14, 15);
    SpelledReads(ps, k + 1, "0");
  }

  lemma NoCountBehind(sqlText: string, maxRows: nat, m: nat)
    requires NoRowCount(sqlText) && !EndsOpen(sqlText)
    requires |HEADER| < |WrappedPieces(sqlText, maxRows)| - 15 < m < |WrappedPieces(sqlText, maxRows)|
    ensures CountAt(WrappedPieces(sqlText, maxRows), m).None?
  {
    if CountAt(WrappedPieces(sqlText, maxRows), m).Some? {
      CountIsPhrase(WrappedPieces(sqlText, maxRows), m);
      OnlyTheWrappersInCode(sqlText, maxRows, m);
    }
  }

  lemma SuffixCounts(ps: seq<Piece>)
    requires |ps| >= 16 && Spells(ps, |ps| - 16, SUFFIX)
    ensures CountAt(ps, |ps| - 15) == Some(Count(0, |ps| - 1))
  {
    hide Spells, CountAt;
    SuffixReads(ps);
    CountReads(ps, |ps| - 15, "0");
    assert ReadDecimal("0") == 0;
  }

  /** Behind the batch the limit is lifted again: the last statement of a wrapped text sets none. */
  lemma LimitIsLifted(sqlText: string, maxRows: nat)
    requires NoRowCount(sqlText) && !EndsOpen(sqlText)
    ensures InForce(WrappedPieces(sqlText, maxRows), |WrappedPieces(sqlText, maxRows)|) == 0
  {
    hide WrappedPieces, CountAt, Spells, Prefix, NoRowCount, EndsOpen, HEADER, SUFFIX, InForceBefore;
    var ps := WrappedPieces(sqlText, maxRows);
    WrapperSpells(sqlText, maxRows);
    WrappedLength(sqlText, maxRows);
    SuffixCounts(ps);
    forall m | |ps| - 15 < m < |ps| ensures CountAt(ps, m).None? { NoCountBehind(sqlText, maxRows, m); }
    LastCountRules(Counts(ps), |ps| - 15, |ps|, |ps|);
  }

  lemma {:induction false} NotYetRead(counts: seq<Option<Count>>, k: nat, i: nat)
    requires i <= |counts| && forall m :: 0 <= m < i && counts[m].Some? ==> counts[m].value.end > k
    ensures InForceBefore(counts, k, i) == 0
  {
    if i > 0 { NotYetRead(counts, k, i - 1); }
  }

  /** The wrapper's limit begins where its number has been read, and not a piece before. */
  lemma LimitBegins(sqlText: string, maxRows: nat)
    requires NoRowCount(sqlText) && !EndsOpen(sqlText)
    ensures 3 <= Base(maxRows) <= |WrappedPieces(sqlText, maxRows)|
    ensures InForce(WrappedPieces(sqlText, maxRows), Base(maxRows) - 3) == 0
    ensures InForce(WrappedPieces(sqlText, maxRows), Base(maxRows) - 2) == maxRows + 1
  {
    hide WrappedPieces, CountAt, NoRowCount, EndsOpen;
    var ps, at := WrappedPieces(sqlText, maxRows), Base(maxRows) - 2;
    WrappedLength(sqlText, maxRows);
    WrapperCounts(sqlText, maxRows);
    forall m | 0 <= m < at && CountAt(ps, m).Some? ensures m == |HEADER| { OnlyOneSoFar(sqlText, maxRows, m); }
    NotYetRead(Counts(ps), at - 1, at - 1);
    LastCountRules(Counts(ps), |HEADER|, at, at);
  }

  lemma OnlyOneSoFar(sqlText: string, maxRows: nat, m: nat)
    requires NoRowCount(sqlText) && !EndsOpen(sqlText) && m + 15 < |WrappedPieces(sqlText, maxRows)|
    requires CountAt(WrappedPieces(sqlText, maxRows), m).Some?
    ensures m == |HEADER|
  {
    CountIsPhrase(WrappedPieces(sqlText, maxRows), m);
    OnlyTheWrappersInCode(sqlText, maxRows, m);
  }

  lemma WrappedLength(sqlText: string, maxRows: nat)
    ensures |WrappedPieces(sqlText, maxRows)| == Base(maxRows) + |Regions(sqlText)| + 16
    ensures |HEADER| + 15 < Base(maxRows)
  {
    PrefixPlaces(maxRows);
  }
}
