/** The row cap: wrapping, cutting, telling. */
module RowCap {
  import opened Text
  import opened Lexer
  import opened LexerLaws
  import opened Words
  import opened Patterns
  import opened PhraseOrigins
  import opened Guards
  import opened Notices

  const SUFFIX := "\nSET ROWCOUNT 0;"

  function Prefix(maxRows: nat): string {
    "SET ROWCOUNT " + Decimal(maxRows + 1) + ";\n"
  }

  predicate Exempt(sqlText: string, userSql: bool) {
    !userSql && (HasBefore(Strip(sqlText), ["TOP"], '(') || HasPhrase(Strip(sqlText), SET_ROWCOUNT))
  }

  function ApplyRowLimit(sqlText: string, maxRows: nat, userSql: bool): string {
    if Exempt(sqlText, userSql) then sqlText else Prefix(maxRows) + (sqlText + SUFFIX)
  }

  const SET_TRANSACTION := "SET TRANSACTION "
  const ISOLATION_LEVEL := "ISOLATION LEVEL "
  const READ_UNCOMMITTED := "READ UNCOMMITTED;\n"
  const HEADER := SET_TRANSACTION + (ISOLATION_LEVEL + READ_UNCOMMITTED)

  /** The text `queryInstance` sends. */
  function SentText(sqlText: string, maxRows: nat, userSql: bool): string {
    HEADER + ApplyRowLimit(sqlText, maxRows, userSql)
  }

  datatype Capped<R> = Capped(rows: seq<R>, truncated: bool)

  function CapRows<R>(rows: seq<R>, maxRows: nat): Capped<R> {
    var truncated := |rows| > maxRows;
    Capped(if truncated then rows[..maxRows] else rows, truncated)
  }

  /** The step after the query returns: the capped first result set, and what is noted into the call's scope. */
  function FinishQuery<R>(instance: string, recordsets: Option<seq<seq<R>>>, maxRows: nat,
                          noteTruncation: Option<bool>, userSql: bool): (Capped<R>, seq<Notice>) {
    var sets := if recordsets.Some? then recordsets.value else [];
    var capped := CapRows(if sets == [] then [] else sets[0], maxRows);
    (capped,
     (if capped.truncated && noteTruncation != Some(false) then [RowCapNotice(instance, maxRows)] else [])
     + (if userSql && |sets| > 1 then [ResultSetsNotice(instance, |sets|)] else []))
  }

  // ── Cutting ──

  lemma CapsExactly<R>(produced: seq<R>, got: seq<R>, maxRows: nat)
    requires got == produced || (|produced| > maxRows + 1 && got == produced[..maxRows + 1])
    ensures CapRows(got, maxRows)
         == Capped(produced[..if |produced| < maxRows then |produced| else maxRows], |produced| > maxRows)
  {
    if got != produced {
      assert produced[..maxRows + 1][..maxRows] == produced[..maxRows];
    }
    assert produced[..|produced|] == produced;
  }

  /** What the caller is told of a batch producing `produced`, of which `got` came back. */
  lemma FinishesExactly<R>(instance: string, got: seq<R>, produced: seq<R>, more: seq<seq<R>>, maxRows: nat,
                           noteTruncation: Option<bool>, userSql: bool)
    requires got == produced || (|produced| > maxRows + 1 && got == produced[..maxRows + 1])
    ensures var (result, notices) := FinishQuery(instance, Some([got] + more), maxRows, noteTruncation, userSql);
            && result == Capped(produced[..if |produced| < maxRows then |produced| else maxRows], |produced| > maxRows)
            && (RowCapNotice(instance, maxRows) in notices <==> |produced| > maxRows && noteTruncation != Some(false))
            && (ResultSetsNotice(instance, 1 + |more|) in notices <==> userSql && more != [])
  {
    CapsExactly(produced, got, maxRows);
    assert ([got] + more)[0] == got;
  }

  // ── What is wrapped ──

  /**
   * A batch is sent as it is iff it is built in and has a TOP with a bracket behind it, or a SET ROWCOUNT, in its code
   * or in one delimited name. Every other one is wrapped.
   */
  lemma ExemptExactly(sqlText: string, maxRows: nat, userSql: bool)
    ensures var ps, text := Regions(sqlText), ApplyRowLimit(sqlText, maxRows, userSql);
            var words := [Among(["SET"]), Among(["ROWCOUNT"])];
            var bounded := || HasCodeBefore(ps, ["TOP"], '(') || NameHasBefore(ps, ["TOP"], '(')
                           || HasCodePhrase(ps, words) || NameHasPhrase(ps, words);
            && (text == sqlText <==> !userSql && bounded)
            && (|| text == sqlText
                || text == "SET ROWCOUNT " + Decimal(maxRows + 1) + ";\n" + sqlText + "\nSET ROWCOUNT 0;")
  {
    var ps := Regions(sqlText);
    RegionsAreProper(sqlText);
    BeforeSurvivesExactly(ps, ["TOP"], '(');
    PhrasesSurviveExactly(ps, SET_ROWCOUNT);
    hide HasCodeBefore, NameHasBefore, HasCodePhrase, NameHasPhrase, HasBefore, HasPhrase, Regions, Strip, Decimal;
    WrappedIsLonger(sqlText, maxRows);
  }

  lemma WrappedIsLonger(sqlText: string, maxRows: nat)
    ensures Prefix(maxRows) + (sqlText + SUFFIX) != sqlText
    ensures Prefix(maxRows) + (sqlText + SUFFIX)
         == "SET ROWCOUNT " + Decimal(maxRows + 1) + ";\n" + sqlText + "\nSET ROWCOUNT 0;"
  {
    var w := Prefix(maxRows) + (sqlText + SUFFIX);
    assert |w| > |sqlText|;
  }

  /** Whatever is sent, it is sent behind one statement. */
  lemma SentBehindHeader(sqlText: string, maxRows: nat, userSql: bool)
    ensures SentText(sqlText, maxRows, userSql)
         == "SET TRANSACTION " + "ISOLATION LEVEL " + "READ UNCOMMITTED;\n" + ApplyRowLimit(sqlText, maxRows, userSql)
  {
    hide ApplyRowLimit;
  }

  // ── The wrapper in the eyes of the lexer ──

  lemma PrefixPlain(maxRows: nat)
    ensures forall i :: 0 <= i < |Prefix(maxRows)| ==> Plain(Prefix(maxRows)[i])
  {
  }

  /** Both ends of the wrapper are code, and the first ends in a line break. */
  lemma WrapperLexes(maxRows: nat)
    ensures var p := Prefix(maxRows);
            Lex(p) == CodeTokens(p) && Strip(p) == p && p != "" && p[|p| - 1] == '\n'
    ensures Lex(SUFFIX) == CodeTokens(SUFFIX) && Strip(SUFFIX) == SUFFIX
  {
    PrefixPlain(maxRows);
    PlainLexes(Prefix(maxRows));
    SuffixPlain();
    PlainLexes(SUFFIX);
  }

  lemma SuffixPlain()
    ensures forall i :: 0 <= i < |SUFFIX| ==> Plain(SUFFIX[i])
  {
  }

  /** True iff the batch's last token is a comment, literal or identifier that is never closed. */
  predicate EndsOpen(s: string) {
    var ts := Lex(s);
    ts != [] &&
    match ts[|ts| - 1]
    case BlockComment(text) => !BlockCloses(text, 0)
    case Literal(text) => text == "" || !Closes(text[1..], '\'')
    case Delimited(text) => text == "" || !Closes(text[1..], CloseOf(text[0]))
    case _ => false
  }

  lemma SuffixSeam(s: string)
    ensures Seam(s, SUFFIX) <==> !EndsOpen(s)
  {
    LexCovers(s);
    var ts := Lex(s);
    if ts != [] {
      WellLexedAt(ts, |ts| - 1);
    }
  }

  /** The wrapper's two statements stay code of their own iff the batch does not end in an open token. */
  lemma WrapSurvivesIffClosed(sqlText: string, maxRows: nat)
    ensures Lex(Prefix(maxRows) + (sqlText + SUFFIX)) == Lex(Prefix(maxRows)) + (Lex(sqlText) + Lex(SUFFIX))
       <==> !EndsOpen(sqlText)
    ensures !EndsOpen(sqlText) ==>
              Strip(Prefix(maxRows) + (sqlText + SUFFIX)) == Prefix(maxRows) + (Strip(sqlText) + SUFFIX)
  {
    var p := Prefix(maxRows);
    WrapperLexes(maxRows);
    assert Seam(p, sqlText + SUFFIX);
    LexComposes(p, sqlText + SUFFIX);
    LexComposes(sqlText, SUFFIX);
    SuffixSeam(sqlText);
    var inner := Lex(sqlText + SUFFIX);
    assert Lex(p + (sqlText + SUFFIX))[|Lex(p)|..] == inner;
    assert (Lex(p) + (Lex(sqlText) + Lex(SUFFIX)))[|Lex(p)|..] == Lex(sqlText) + Lex(SUFFIX);
    if !EndsOpen(sqlText) {
      StripComposes(p, sqlText + SUFFIX);
      StripComposes(sqlText, SUFFIX);
    }
  }

  // ── No other SET ROWCOUNT ──

  /** `\bSET\s+ROWCOUNT\b` matches at `i`, its second word at `j`. */
  predicate RowCountAt(t: string, i: nat, j: nat) {
    && WordAt(t, i, 3) && SameWord(t[i..i + 3], "SET")
    && i + 3 < j && WordAt(t, j, 8) && SameWord(t[j..j + 8], "ROWCOUNT")
    && forall m :: i + 3 <= m < j ==> IsSpace(t[m])
  }

  lemma OneOfOne(w: string, v: string)
    ensures OneOf(w, [v]) <==> SameWord(w, v)
  {
    assert [v][0] == v;
  }

  lemma RowCountIsPhrase(t: string, i: nat, j: nat)
    requires RowCountAt(t, i, j)
    ensures PhraseAt(t, i, SET_ROWCOUNT)
  {
    var second := SET_ROWCOUNT[1..];
    OneOfOne(t[j..j + 8], "ROWCOUNT");
    assert PhraseAt(t, j, second);
    assert Blank(t[i + 3..j]);
    OneOfOne(t[i..i + 3], "SET");
  }

  lemma OneOfLength(w: string, v: string)
    requires OneOf(w, [v])
    ensures |w| == |v| && SameWord(w, v)
  {
    OneOfOne(w, v);
  }

  lemma PhraseIsRowCount(t: string, i: nat) returns (j: nat)
    requires PhraseAt(t, i, SET_ROWCOUNT)
    ensures RowCountAt(t, i, j)
  {
    hide PhraseAt, OneOf, IsWordChar;
    var second := SET_ROWCOUNT[1..];
    var n, k := PhraseSplits(t, i, SET_ROWCOUNT);
    OneOfLength(t[i..i + n], "SET");
    var m, z := PhraseSplits(t, k, second);
    OneOfLength(t[k..k + m], "ROWCOUNT");
    assert forall x :: i + 3 <= x < k ==> t[i + 3..k][x - (i + 3)] == t[x];
    j := k;
  }

  /** `t` is the stripped wrapped batch: `p` and `q` are where the stripped batch begins and ends. */
  predicate Wrapped(t: string, maxRows: nat, s: string, p: nat, q: nat) {
    && t == Prefix(maxRows) + (s + SUFFIX) && p == |Prefix(maxRows)| && q == p + |s|
  }

  lemma WrappedChars(t: string, maxRows: nat, s: string, p: nat, q: nat, i: nat)
    requires Wrapped(t, maxRows, s, p, q) && i < |t|
    ensures |t| == q + 16
    ensures i < p ==> t[i] == Prefix(maxRows)[i]
    ensures p <= i < q ==> t[i] == s[i - p]
    ensures q <= i ==> t[i] == SUFFIX[i - q]
  {
  }

  lemma PrefixHasOneS(maxRows: nat, i: nat)
    requires i < |Prefix(maxRows)| && Fold(Prefix(maxRows)[i]) == 'S'
    ensures i == 0
  {
    var d := Decimal(maxRows + 1);
    assert forall k :: 13 <= k < 13 + |d| ==> Prefix(maxRows)[k] == d[k - 13];
  }

  lemma SuffixLetters(k: nat)
    requires k < |SUFFIX|
    ensures Fold(SUFFIX[k]) == 'S' ==> k == 1
    ensures Fold(SUFFIX[k]) == 'R' ==> k == 5
  {
  }

  /** A word that starts inside the stripped batch ends inside it. */
  lemma WordStaysInBatch(t: string, maxRows: nat, s: string, p: nat, q: nat, i: nat, n: nat)
    requires Wrapped(t, maxRows, s, p, q) && WordAt(t, i, n) && p <= i < q
    ensures i + n <= q && WordAt(s, i - p, n) && t[i..i + n] == s[i - p..i - p + n]
  {
    WrappedChars(t, maxRows, s, p, q, q);
    assert t[p..q] == s;
    SliceOfSlice(t, p, q, i - p, i - p + n);
    forall m | i - p <= m < i - p + n ensures IsWordChar(s[m]) { assert t[p..q][m] == t[p + m]; }
    if i > p { assert t[p..q][i - p - 1] == t[i - 1]; }
    if i + n < q { assert t[p..q][i - p + n] == t[i + n]; }
  }

  lemma RowCountPlaces(t: string, maxRows: nat, s: string, p: nat, q: nat, i: nat, j: nat)
    requires Wrapped(t, maxRows, s, p, q) && RowCountAt(t, i, j)
    ensures i == 0 || i == q + 1 || (p <= i && RowCountAt(s, i - p, j - p))
  {
    WrappedChars(t, maxRows, s, p, q, i);
    WrappedChars(t, maxRows, s, p, q, j);
    assert Fold(t[i]) == 'S' by { assert t[i..i + 3][0] == t[i] && "SET"[0] == 'S'; }
    assert Fold(t[j]) == 'R' by { assert t[j..j + 8][0] == t[j] && "ROWCOUNT"[0] == 'R'; }
    if i < p {
      PrefixHasOneS(maxRows, i);
    } else if i >= q {
      SuffixLetters(i - q);
    } else {
      WordStaysInBatch(t, maxRows, s, p, q, i, 3);
      if j >= q {
        SuffixLetters(j - q);
        WrappedChars(t, maxRows, s, p, q, q + 1);
        assert false;
      } else {
        WordStaysInBatch(t, maxRows, s, p, q, j, 8);
        forall m | i - p + 3 <= m < j - p ensures IsSpace(s[m]) { WrappedChars(t, maxRows, s, p, q, p + m); }
      }
    }
  }

  lemma RowCountAtEnds(t: string, maxRows: nat, s: string, p: nat, q: nat)
    requires Wrapped(t, maxRows, s, p, q)
    ensures RowCountAt(t, 0, 4) && RowCountAt(t, q + 1, q + 5)
  {
    var h := "SET ROWCOUNT ";
    assert forall m :: 0 <= m < 13 ==> t[m] == h[m];
    assert t[0..3] == "SET" && t[4..12] == "ROWCOUNT";
    assert forall m :: q <= m < q + 16 ==> t[m] == SUFFIX[m - q];
    assert t[q + 1..q + 4] == "SET" && t[q + 5..q + 13] == "ROWCOUNT";
  }

  /** No SET ROWCOUNT in what a guard looks at. */
  predicate NoRowCount(sqlText: string) {
    !HasPhrase(Trim(Strip(sqlText)), SET_ROWCOUNT)
  }

  /** So it is of every user batch the read guard accepts, and of every built-in batch that is wrapped. */
  lemma WrappedHasNoRowCount(sqlText: string, userSql: bool, allowLargeScan: bool, sensitive: seq<string>)
    requires if userSql then ValidateQuery(sqlText, allowLargeScan, sensitive) == Accepted else !Exempt(sqlText, false)
    ensures NoRowCount(sqlText)
  {
    if userSql {
      AcceptedHasNoRowCount(sqlText, allowLargeScan, sensitive);
    } else {
      TrimInvisibleToPhrases(Strip(sqlText), SET_ROWCOUNT);
    }
  }

  ghost predicate RowCountStarts(t: string, i: nat) {
    exists j: nat :: RowCountAt(t, i, j)
  }

  lemma NoneInStripped(sqlText: string, i: nat)
    requires NoRowCount(sqlText)
    ensures !RowCountStarts(Strip(sqlText), i)
  {
    var t := Strip(sqlText);
    if RowCountStarts(t, i) {
      var j: nat :| RowCountAt(t, i, j);
      RowCountIsPhrase(t, i, j);
      TrimInvisibleToPhrases(t, SET_ROWCOUNT);
    }
  }

  lemma ExactlyAtEnds(sqlText: string, maxRows: nat, i: nat)
    requires NoRowCount(sqlText)
    ensures var t := Prefix(maxRows) + (Strip(sqlText) + SUFFIX);
            RowCountStarts(t, i) <==> i == 0 || i + 15 == |t|
  {
    var s, p := Strip(sqlText), |Prefix(maxRows)|;
    var t := Prefix(maxRows) + (s + SUFFIX);
    RowCountAtEnds(t, maxRows, s, p, p + |s|);
    assert |SUFFIX| == 16;
    hide RowCountAt, Prefix, Strip, NoRowCount, SUFFIX;
    if RowCountStarts(t, i) { OnlyAtEnds(sqlText, maxRows, i); }
  }

  lemma OnlyAtEnds(sqlText: string, maxRows: nat, i: nat)
    requires NoRowCount(sqlText) && RowCountStarts(Prefix(maxRows) + (Strip(sqlText) + SUFFIX), i)
    ensures i == 0 || i == |Prefix(maxRows)| + |Strip(sqlText)| + 1
  {
    var s, p := Strip(sqlText), |Prefix(maxRows)|;
    var t := Prefix(maxRows) + (s + SUFFIX);
    var j: nat :| RowCountAt(t, i, j);
    hide RowCountAt, Prefix, Strip, NoRowCount, SUFFIX;
    RowCountPlaces(t, maxRows, s, p, p + |s|, i, j);
    if p <= i && RowCountAt(s, i - p, j - p) { NoneInStripped(sqlText, i - p); }
  }

  // ── Behind the statement that is sent first ──

  lemma FirstPartLetters(i: nat)
    requires i < |SET_TRANSACTION|
    ensures |SET_TRANSACTION| == 16 && Plain(SET_TRANSACTION[i])
    ensures i + 1 < 16 && Fold(SET_TRANSACTION[i]) == 'S' && Fold(SET_TRANSACTION[i + 1]) == 'E' ==> i == 0
    ensures Fold(SET_TRANSACTION[15]) == ' '
  {
  }

  lemma SecondPartLetters(i: nat)
    requires i < |ISOLATION_LEVEL|
    ensures |ISOLATION_LEVEL| == 16 && Plain(ISOLATION_LEVEL[i])
    ensures Fold(ISOLATION_LEVEL[i]) == 'S' ==> i == 1 && ISOLATION_LEVEL[2] == 'O'
  {
  }

  lemma ThirdPartLetters(i: nat)
    requires i < |READ_UNCOMMITTED|
    ensures |READ_UNCOMMITTED| == 18 && Plain(READ_UNCOMMITTED[i]) && Fold(READ_UNCOMMITTED[i]) != 'S'
  {
  }

  lemma HeaderParts(i: nat)
    requires i < |HEADER|
    ensures |HEADER| == 50
    ensures HEADER[i] == if i < 16 then SET_TRANSACTION[i] else if i < 32 then ISOLATION_LEVEL[i - 16]
            else READ_UNCOMMITTED[i - 32]
  {
    assert |SET_TRANSACTION| == 16 && |ISOLATION_LEVEL| == 16 && |READ_UNCOMMITTED| == 18;
  }

  lemma HeaderLetters(i: nat)
    requires i < |HEADER|
    ensures |HEADER| == 50 && Plain(HEADER[i])
    ensures i + 1 < |HEADER| && Fold(HEADER[i]) == 'S' && Fold(HEADER[i + 1]) == 'E' ==> i == 0
    ensures i >= 32 ==> Fold(HEADER[i]) != 'S'
  {
    HeaderParts(i);
    if i + 1 < |HEADER| { HeaderParts(i + 1); }
    if i < 16 {
      FirstPartLetters(i);
    } else if i < 32 {
      SecondPartLetters(i - 16);
    } else {
      ThirdPartLetters(i - 32);
    }
  }

  lemma HeaderStart()
    ensures |HEADER| == 50 && HEADER[4] == 'T' && !IsSpace(HEADER[4]) && HEADER[49] == '\n'
  {
    assert |SET_TRANSACTION| == 16 && |ISOLATION_LEVEL| == 16 && |READ_UNCOMMITTED| == 18;
    HeaderParts(4);
    HeaderParts(49);
    assert SET_TRANSACTION[4] == 'T' && READ_UNCOMMITTED[17] == '\n';
  }

  lemma HeaderHasNone(u: string, i: nat, j: nat)
    requires RowCountAt(HEADER + u, i, j)
    ensures i >= |HEADER|
  {
    var t := HEADER + u;
    HeaderStart();
    if i < |HEADER| {
      assert Fold(t[i]) == 'S' && Fold(t[i + 1]) == 'E' by {
        assert t[i..i + 3][0] == t[i] && t[i..i + 3][1] == t[i + 1];
      }
      HeaderLetters(i);
      assert i == 0;
      assert t[4] == 'T' && Fold(t[j]) == 'R' by { assert t[j..j + 8][0] == t[j]; }
    }
  }

  lemma RowCountShifts(u: string, i: nat, j: nat)
    ensures RowCountAt(u, i, j) <==> RowCountAt(HEADER + u, |HEADER| + i, |HEADER| + j)
  {
    var t, h := HEADER + u, |HEADER|;
    HeaderStart();
    WordShifts(u, i, 3);
    WordShifts(u, j, 8);
    if i + 3 < j && j <= |u| {
      assert forall m :: i + 3 <= m < j ==> u[m] == t[h + m];
      assert forall m :: h + i + 3 <= m < h + j ==> t[m] == u[m - h];
    }
  }

  lemma WordShifts(u: string, i: nat, n: nat)
    ensures WordAt(u, i, n) <==> WordAt(HEADER + u, |HEADER| + i, n)
    ensures i + n <= |u| ==> (HEADER + u)[|HEADER| + i..|HEADER| + i + n] == u[i..i + n]
  {
    HeaderStart();
    if WordAt(u, i, n) { WordBehind(HEADER, u, i, n); }
    if WordAt(HEADER + u, |HEADER| + i, n) { WordInFront(HEADER, u, i, n); }
    if i + n <= |u| { SliceBehind(HEADER, u, i, n); }
  }

  lemma SliceBehind(h: string, u: string, i: nat, n: nat)
    requires i + n <= |u|
    ensures (h + u)[|h| + i..|h| + i + n] == u[i..i + n]
  {
  }

  lemma WordBehind(h: string, u: string, i: nat, n: nat)
    requires WordAt(u, i, n) && h != "" && !IsWordChar(h[|h| - 1])
    ensures WordAt(h + u, |h| + i, n)
  {
    forall j | |h| + i <= j < |h| + i + n ensures IsWordChar((h + u)[j]) { assert (h + u)[j] == u[j - |h|]; }
  }

  lemma WordInFront(h: string, u: string, i: nat, n: nat)
    requires WordAt(h + u, |h| + i, n)
    ensures WordAt(u, i, n)
  {
    forall j | i <= j < i + n ensures IsWordChar(u[j]) { assert (h + u)[|h| + j] == u[j]; }
    if i > 0 { assert (h + u)[|h| + i - 1] == u[i - 1]; }
    if i + n < |u| { assert (h + u)[|h| + i + n] == u[i + n]; }
  }

  lemma HeaderShifts(u: string, i: nat)
    ensures RowCountStarts(HEADER + u, i) <==> i >= |HEADER| && RowCountStarts(u, i - |HEADER|)
  {
    var h := |HEADER|;
    if RowCountStarts(HEADER + u, i) {
      var j: nat :| RowCountAt(HEADER + u, i, j);
      HeaderHasNone(u, i, j);
      RowCountShifts(u, i - h, j - h);
    }
    if i >= h && RowCountStarts(u, i - h) {
      var j: nat :| RowCountAt(u, i - h, j);
      RowCountShifts(u, i - h, j);
    }
  }

  // ── The code of the text that is sent ──

  function Chs(s: string): seq<Piece> {
    seq(|s|, i requires 0 <= i < |s| => Ch(s[i]))
  }

  lemma {:induction false} PiecesAppend(a: seq<Token>, b: seq<Token>)
    ensures Pieces(a + b) == Pieces(a) + Pieces(b)
  {
    if a == [] {
      assert a + b == b;
    } else {
      assert (a + b)[0] == a[0] && (a + b)[1..] == a[1..] + b;
      PiecesAppend(a[1..], b);
    }
  }

  lemma {:induction false} CodePieces(s: string)
    ensures Pieces(CodeTokens(s)) == Chs(s)
  {
    if s != "" {
      CodeTokensStep(s);
      CodePieces(s[1..]);
      assert CodeTokens(s)[0] == Code(s[0]) && CodeTokens(s)[1..] == CodeTokens(s[1..]);
      assert Chs(s) == [Ch(s[0])] + Chs(s[1..]);
    }
  }

  lemma HeaderLexes(u: string)
    ensures Lex(HEADER + u) == CodeTokens(HEADER) + Lex(u) && Strip(HEADER + u) == HEADER + Strip(u)
  {
    forall i | 0 <= i < |HEADER| ensures Plain(HEADER[i]) { HeaderLetters(i); }
    PlainLexes(HEADER);
    HeaderStart();
    assert Lex(HEADER)[|Lex(HEADER)| - 1] == Code('\n');
    LexComposes(HEADER, u);
    StripComposes(HEADER, u);
  }

  lemma HeaderRegions(u: string)
    ensures Regions(HEADER + u) == Chs(HEADER) + Regions(u)
  {
    HeaderLexes(u);
    PiecesAppend(CodeTokens(HEADER), Lex(u));
    CodePieces(HEADER);
  }

  /** The pieces of a wrapped batch, as sent: header, prefix, the batch's own, suffix. */
  function WrappedPieces(sqlText: string, maxRows: nat): seq<Piece> {
    Chs(HEADER) + (Chs(Prefix(maxRows)) + (Regions(sqlText) + Chs(SUFFIX)))
  }

  lemma WrappedRegions(sqlText: string, maxRows: nat)
    requires !EndsOpen(sqlText)
    ensures Regions(HEADER + (Prefix(maxRows) + (sqlText + SUFFIX))) == WrappedPieces(sqlText, maxRows)
  {
    var p := Prefix(maxRows);
    WrapSurvivesIffClosed(sqlText, maxRows);
    WrapperLexes(maxRows);
    HeaderRegions(p + (sqlText + SUFFIX));
    PiecesAppend(CodeTokens(p), Lex(sqlText) + CodeTokens(SUFFIX));
    PiecesAppend(Lex(sqlText), CodeTokens(SUFFIX));
    CodePieces(p);
    CodePieces(SUFFIX);
  }

  /** A SET ROWCOUNT in code shows in the stripped text, at the place its first piece has there. */
  lemma CodeRowCountShows(sent: string, off: seq<nat>, k: nat)
    requires Layout(Regions(sent), Strip(sent), off) && k < |Regions(sent)|
             && CodePhraseAt(Regions(sent), k, SET_ROWCOUNT)
    ensures RowCountStarts(Strip(sent), off[k])
  {
    LexCovers(sent);
    PiecesAreProper(Lex(sent));
    PhraseShows(Regions(sent), Strip(sent), off, k, SET_ROWCOUNT);
    var j := PhraseIsRowCount(Strip(sent), off[k]);
  }

  lemma SentLayout(sent: string) returns (off: seq<nat>)
    ensures Layout(Regions(sent), Strip(sent), off) && Proper(Regions(sent))
  {
    LexCovers(sent);
    PiecesAreProper(Lex(sent));
    off := HasLayout(Regions(sent));
  }

  lemma {:induction false} OffsetsRise(ps: seq<Piece>, t: string, off: seq<nat>, a: nat, b: nat)
    requires Proper(ps) && Layout(ps, t, off) && a < b <= |ps|
    ensures off[a] < off[b]
    decreases b
  {
    PieceEdges(ps, t, off, b - 1);
    if a < b - 1 { OffsetsRise(ps, t, off, a, b - 1); }
  }

  lemma {:induction false} ChOffsets(ps: seq<Piece>, t: string, off: seq<nat>, a: nat, b: nat)
    requires Layout(ps, t, off) && a <= b <= |ps| && forall j :: a <= j < b ==> ps[j].Ch?
    ensures off[b] == off[a] + (b - a)
    decreases b
  {
    if a < b {
      ChOffsets(ps, t, off, a, b - 1);
      assert Sits(ps, t, off, b - 1);
    }
  }

  /** An unwrapped batch without it has none in its code, header included. */
  lemma NoneInCode(sqlText: string, k: nat)
    requires NoRowCount(sqlText) && k < |Regions(HEADER + sqlText)|
    ensures !CodePhraseAt(Regions(HEADER + sqlText), k, SET_ROWCOUNT)
  {
    var sent := HEADER + sqlText;
    if CodePhraseAt(Regions(sent), k, SET_ROWCOUNT) {
      var off := SentLayout(sent);
      CodeRowCountShows(sent, off, k);
      HeaderLexes(sqlText);
      HeaderShifts(Strip(sqlText), off[k]);
      NoneInStripped(sqlText, off[k] - |HEADER|);
    }
  }

  lemma PrefixPlaces(maxRows: nat)
    ensures |Prefix(maxRows)| == 15 + |Decimal(maxRows + 1)| && |SUFFIX| == 16
  {
  }

  /** Where the pieces of the wrapper sit in the stripped text. */
  lemma WrapperOffsets(sqlText: string, maxRows: nat, t: string, off: seq<nat>)
    requires Layout(WrappedPieces(sqlText, maxRows), t, off)
    ensures var ps := WrappedPieces(sqlText, maxRows);
            |ps| > 65 && off[|HEADER|] == |HEADER| && off[|ps| - 15] == |t| - 15
  {
    var ps := WrappedPieces(sqlText, maxRows);
    HeaderStart();
    PrefixPlaces(maxRows);
    ChOffsets(ps, t, off, 0, |HEADER|);
    ChOffsets(ps, t, off, |ps| - 15, |ps|);
  }

  lemma SentStrips(sqlText: string, maxRows: nat)
    requires !EndsOpen(sqlText)
    ensures Strip(HEADER + (Prefix(maxRows) + (sqlText + SUFFIX)))
            == HEADER + (Prefix(maxRows) + (Strip(sqlText) + SUFFIX))
  {
    HeaderLexes(Prefix(maxRows) + (sqlText + SUFFIX));
    WrapSurvivesIffClosed(sqlText, maxRows);
  }

  lemma PlacesInText(sqlText: string, maxRows: nat, i: nat)
    requires NoRowCount(sqlText)
    ensures var t := HEADER + (Prefix(maxRows) + (Strip(sqlText) + SUFFIX));
            RowCountStarts(t, i) ==> i == |HEADER| || i == |t| - 15
  {
    var u := Prefix(maxRows) + (Strip(sqlText) + SUFFIX);
    HeaderShifts(u, i);
    if RowCountStarts(HEADER + u, i) { ExactlyAtEnds(sqlText, maxRows, i - |HEADER|); }
  }

  lemma SamePlace(ps: seq<Piece>, t: string, off: seq<nat>, a: nat, b: nat)
    requires Proper(ps) && Layout(ps, t, off) && a <= |ps| && b <= |ps| && off[a] == off[b]
    ensures a == b
  {
    if a < b { OffsetsRise(ps, t, off, a, b); }
    if b < a { OffsetsRise(ps, t, off, b, a); }
  }

  /** In the code of a wrapped batch that is sent, SET ROWCOUNT occurs at most at the wrapper's two places. */
  lemma OnlyTheWrappersInCode(sqlText: string, maxRows: nat, k: nat)
    requires NoRowCount(sqlText) && !EndsOpen(sqlText)
    requires k < |WrappedPieces(sqlText, maxRows)| && CodePhraseAt(WrappedPieces(sqlText, maxRows), k, SET_ROWCOUNT)
    ensures k == |HEADER| || k + 15 == |WrappedPieces(sqlText, maxRows)|
  {
    var sent, ps := HEADER + (Prefix(maxRows) + (sqlText + SUFFIX)), WrappedPieces(sqlText, maxRows);
    WrappedRegions(sqlText, maxRows);
    var off := SentLayout(sent);
    CodeRowCountShows(sent, off, k);
    SentStrips(sqlText, maxRows);
    PlacesInText(sqlText, maxRows, off[k]);
    PieceIsWrappers(sqlText, maxRows, Strip(sent), off, k);
  }

  lemma PieceIsWrappers(sqlText: string, maxRows: nat, t: string, off: seq<nat>, k: nat)
    requires Proper(WrappedPieces(sqlText, maxRows)) && Layout(WrappedPieces(sqlText, maxRows), t, off)
    requires k < |WrappedPieces(sqlText, maxRows)| && (off[k] == |HEADER| || off[k] == |t| - 15)
    ensures k == |HEADER| || k + 15 == |WrappedPieces(sqlText, maxRows)|
  {
    var ps := WrappedPieces(sqlText, maxRows);
    WrapperOffsets(sqlText, maxRows, t, off);
    if off[k] == |HEADER| { SamePlace(ps, t, off, k, |HEADER|); } else { SamePlace(ps, t, off, k, |ps| - 15); }
  }

  /** A stretch of pieces that are the characters of `s`. */
  predicate Spells(ps: seq<Piece>, k: nat, s: string) {
    k + |s| <= |ps| && forall j :: k <= j < k + |s| ==> ps[j] == Ch(s[j - k])
  }

  lemma SpelledWord(ps: seq<Piece>, k: nat, w: string)
    requires Spells(ps, k, w) && w != "" && forall i :: 0 <= i < |w| ==> IsWordChar(w[i])
    requires (k > 0 ==> !WordPiece(ps[k - 1])) && (k + |w| < |ps| ==> !WordPiece(ps[k + |w|]))
    ensures CodeWordAt(ps, k, |w|) && Chars(ps[k..k + |w|]) == w
  {
    assert forall j :: k <= j < k + |w| ==> ps[j] == Ch(w[j - k]);
  }

  lemma SpelledPart(ps: seq<Piece>, k: nat, s: string, a: nat, b: nat)
    requires Spells(ps, k, s) && a <= b <= |s|
    ensures Spells(ps, k + a, s[a..b])
  {
    forall j | k + a <= j < k + b ensures ps[j] == Ch(s[a..b][j - (k + a)]) { assert s[a..b][j - (k + a)] == s[j - k]; }
  }

  const STATEMENT := "SET ROWCOUNT "

  lemma StatementParts()
    ensures |STATEMENT| == 13 && STATEMENT[0..3] == "SET" && STATEMENT[4..12] == "ROWCOUNT" && STATEMENT[3] == ' '
            && STATEMENT[12] == ' '
  {
  }

  /** The statement's characters in a row, standing alone. */
  lemma StatementWords(ps: seq<Piece>, k: nat)
    requires Spells(ps, k, STATEMENT) && (k > 0 ==> !WordPiece(ps[k - 1]))
    ensures CodeWordAt(ps, k, 3) && Chars(ps[k..k + 3]) == "SET"
    ensures CodeWordAt(ps, k + 4, 8) && Chars(ps[k + 4..k + 12]) == "ROWCOUNT"
    ensures k + 13 <= |ps| && ps[k + 3] == Ch(' ') && ps[k + 12] == Ch(' ')
  {
    StatementParts();
    SpelledPart(ps, k, STATEMENT, 0, 3);
    SpelledPart(ps, k, STATEMENT, 4, 12);
    assert ps[k + 3] == Ch(STATEMENT[3]) && ps[k + 12] == Ch(STATEMENT[12]);
    SpelledWord(ps, k, "SET");
    SpelledWord(ps, k + 4, "ROWCOUNT");
  }

  lemma StatementIsPhrase(ps: seq<Piece>, k: nat)
    requires Spells(ps, k, STATEMENT) && (k > 0 ==> !WordPiece(ps[k - 1]))
    ensures CodePhraseAt(ps, k, SET_ROWCOUNT)
  {
    var second := SET_ROWCOUNT[1..];
    StatementWords(ps, k);
    OneOfOne("ROWCOUNT", "ROWCOUNT");
    OneOfOne("SET", "SET");
    assert CodeBegins(ps, k + 4, 8, 0, second);
    CodePhraseJoins(ps, k + 4, 8, 0, second);
    assert BlankPieces(ps, k + 3, k + 4);
    assert CodeBegins(ps, k, 3, k + 4, SET_ROWCOUNT);
    CodePhraseJoins(ps, k, 3, k + 4, SET_ROWCOUNT);
  }

  lemma WrapperSpells(sqlText: string, maxRows: nat)
    ensures var ps := WrappedPieces(sqlText, maxRows);
            |ps| > 65 && Spells(ps, |HEADER|, Prefix(maxRows)) && Spells(ps, |ps| - 16, SUFFIX)
              && ps[|HEADER| - 1] == Ch('\n')
  {
    var ps := WrappedPieces(sqlText, maxRows);
    HeaderStart();
    PrefixPlaces(maxRows);
    assert ps[|HEADER| - 1] == Chs(HEADER)[|HEADER| - 1];
  }

  lemma WrapperStatements(maxRows: nat)
    ensures Prefix(maxRows)[0..13] == STATEMENT && SUFFIX[1..14] == STATEMENT && SUFFIX[0] == '\n'
  {
    StatementParts();
  }

  lemma PlaceIsPhrase(ps: seq<Piece>, k: nat, s: string, a: nat)
    requires Spells(ps, k, s) && a + 13 <= |s| && s[a..a + 13] == STATEMENT && (k + a > 0 ==> !WordPiece(ps[k + a - 1]))
    ensures CodePhraseAt(ps, k + a, SET_ROWCOUNT)
  {
    SpelledPart(ps, k, s, a, a + 13);
    StatementIsPhrase(ps, k + a);
  }

  /** And it does occur there. */
  lemma FirstWrapperIsInCode(sqlText: string, maxRows: nat)
    ensures CodePhraseAt(WrappedPieces(sqlText, maxRows), |HEADER|, SET_ROWCOUNT)
  {
    WrapperSpells(sqlText, maxRows);
    WrapperStatements(maxRows);
    PrefixPlaces(maxRows);
    PlaceIsPhrase(WrappedPieces(sqlText, maxRows), |HEADER|, Prefix(maxRows), 0);
  }

  lemma SuffixIsPhrase(ps: seq<Piece>)
    requires |ps| >= 16 && Spells(ps, |ps| - 16, SUFFIX)
    ensures CodePhraseAt(ps, |ps| - 15, SET_ROWCOUNT)
  {
    assert SUFFIX[1..14] == STATEMENT && !WordPiece(ps[|ps| - 16]) by {
      WrapperStatements(0);
      assert ps[|ps| - 16] == Ch(SUFFIX[0]);
    }
    PlaceIsPhrase(ps, |ps| - 16, SUFFIX, 1);
  }

  lemma LastWrapperIsInCode(sqlText: string, maxRows: nat)
    ensures var ps := WrappedPieces(sqlText, maxRows); |ps| > 65 && CodePhraseAt(ps, |ps| - 15, SET_ROWCOUNT)
  {
    WrapperSpells(sqlText, maxRows);
    PrefixPlaces(maxRows);
    SuffixIsPhrase(WrappedPieces(sqlText, maxRows));
  }

  /**
   * In a wrapped batch whose last token is closed and that has none of its own, the code that is sent (see
   * WrappedRegions) has exactly two SET ROWCOUNT: right behind the header, and 15 pieces before the end.
   */
  lemma OnlyTheWrappers(sqlText: string, maxRows: nat, k: nat)
    requires NoRowCount(sqlText) && !EndsOpen(sqlText) && k < |WrappedPieces(sqlText, maxRows)|
    ensures CodePhraseAt(WrappedPieces(sqlText, maxRows), k, SET_ROWCOUNT)
       <==> k == |HEADER| || k + 15 == |WrappedPieces(sqlText, maxRows)|
  {
    hide WrappedPieces, CodePhraseAt;
    if k == |HEADER| {
      FirstWrapperIsInCode(sqlText, maxRows);
    } else if k + 15 == |WrappedPieces(sqlText, maxRows)| {
      LastWrapperIsInCode(sqlText, maxRows);
    } else if CodePhraseAt(WrappedPieces(sqlText, maxRows), k, SET_ROWCOUNT) {
      OnlyTheWrappersInCode(sqlText, maxRows, k);
    }
  }
}
