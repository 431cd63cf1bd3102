/**
 * A batch the read guard accepts and the row cap falsifies: rows copied into a temporary table, then counted. An entry
 * of the guard's table that goes by words needs a word that begins as the entry does, and no word of the batch that
 * is long enough does.
 */
module CopyAndCount {
  import opened Text
  import opened Lexer
  import opened LexerLaws
  import opened Words
  import opened Patterns
  import opened Guards
  import opened RowCap
  import opened Limits
  import opened Batches

  const COPY := "SELECT a INTO #t FROM b "
  const COUNT_ALL := "SELECT COUNT(*) FROM #t"
  const BATCH := COPY + COUNT_ALL

  /** The first three letters of a word, in capitals. */
  datatype Start = Start(a: char, b: char, c: char)

  function StartAt(t: string, i: nat): Start
    requires i + 3 <= |t|
  {
    Start(Fold(t[i]), Fold(t[i + 1]), Fold(t[i + 2]))
  }

  /** How the words of the batch that have three letters begin. */
  predicate InBatch(s: Start) {
    s == Start('S', 'E', 'L') || s == Start('I', 'N', 'T') || s == Start('F', 'R', 'O') || s == Start('C', 'O', 'U')
  }

  predicate StartsWordAt(t: string, i: nat) {
    i + 3 <= |t| && (i > 0 ==> !IsWordChar(t[i - 1])) && IsWordChar(t[i]) && IsWordChar(t[i + 1])
      && IsWordChar(t[i + 2])
  }

  lemma CopyStarts(i: nat)
    requires StartsWordAt(COPY, i)
    ensures InBatch(StartAt(COPY, i))
  {
  }

  lemma CountStarts(i: nat)
    requires StartsWordAt(COUNT_ALL, i)
    ensures InBatch(StartAt(COUNT_ALL, i))
  {
  }

  lemma BatchStarts(i: nat)
    requires StartsWordAt(BATCH, i)
    ensures InBatch(StartAt(BATCH, i))
  {
    assert |COPY| == 24 && COPY[23] == ' ';
    if i < 24 {
      CopyStarts(i);
    } else {
      assert forall j :: 24 <= j < |BATCH| ==> BATCH[j] == COUNT_ALL[j - 24];
      CountStarts(i - 24);
    }
  }

  /** No word of the batch begins as `h` does. */
  predicate HeadElsewhere(h: string) {
    |h| >= 3 && !InBatch(StartAt(h, 0))
  }

  predicate AllElsewhere(alts: seq<string>) {
    forall m :: 0 <= m < |alts| ==> HeadElsewhere(alts[m])
  }

  /** An entry that begins as no word of the batch does, or one of the two that are looked at on their own. */
  predicate Elsewhere(p: Pattern) {
    match p
    case Word(alts) => AllElsewhere(alts)
    case Stem(stem) => HeadElsewhere(stem)
    case Infix(stem, _) => HeadElsewhere(stem)
    case Phrase(words) => words != [] && words[0].Among? && AllElsewhere(words[0].alts)
    case After(mark, _) => mark == ';'
    case Before(_, _) => false
    case Apart(_, _, _) => p == SELECT_INTO
  }

  lemma NoHeadInBatch(h: string, i: nat, n: nat)
    requires HeadElsewhere(h) && WordAt(BATCH, i, n) && |h| <= n
    ensures !SameWord(BATCH[i..i + |h|], h)
  {
    var w := BATCH[i..i + |h|];
    assert w[0] == BATCH[i] && w[1] == BATCH[i + 1] && w[2] == BATCH[i + 2];
    BatchStarts(i);
  }

  lemma NoAltInBatch(alts: seq<string>, i: nat, n: nat)
    requires AllElsewhere(alts) && WordAt(BATCH, i, n)
    ensures !OneOf(BATCH[i..i + n], alts)
  {
    forall k | 0 <= k < |alts| ensures !SameWord(BATCH[i..i + n], alts[k]) {
      assert HeadElsewhere(alts[k]);
      if |alts[k]| == n { NoHeadInBatch(alts[k], i, n); }
    }
  }

  lemma NoStemInBatch(stem: string, i: nat, n: nat)
    requires HeadElsewhere(stem) && WordAt(BATCH, i, n) && |stem| <= n
    ensures !SameWord(BATCH[i..i + n][..|stem|], stem)
  {
    assert BATCH[i..i + n][..|stem|] == BATCH[i..i + |stem|];
    NoHeadInBatch(stem, i, n);
  }

  lemma NoWordMatches(p: Pattern, i: nat, n: nat)
    requires SingleWord(p) && Elsewhere(p) && WordAt(BATCH, i, n)
    ensures !WordTest(p)(BATCH[i..i + n])
  {
    match p
    case Word(alts) => NoAltInBatch(alts, i, n);
    case Stem(stem) =>
      hide HeadElsewhere, SameWord, WordAt;
      if |stem| <= n { NoStemInBatch(stem, i, n); }
    case Infix(stem, _) =>
      hide HeadElsewhere, SameWord, WordAt, IsLetter;
      if |stem| <= n { NoStemInBatch(stem, i, n); }
  }

  lemma NoSingleInBatch(p: Pattern)
    requires SingleWord(p) && Elsewhere(p)
    ensures !HasWord(BATCH, WordTest(p))
  {
    hide WordTest, Elsewhere, WordAt;
    forall i, n | 0 <= i < |BATCH| && 0 < n <= |BATCH| - i && WordAt(BATCH, i, n)
      ensures !WordTest(p)(BATCH[i..i + n])
    {
      NoWordMatches(p, i, n);
    }
  }

  lemma NoPhraseAt(words: seq<Part>, i: nat)
    requires words != [] && Elsewhere(Phrase(words))
    ensures !PhraseAt(BATCH, i, words)
  {
    hide HeadElsewhere, WordAt, Blank;
    if PhraseAt(BATCH, i, words) {
      var n, j := PhraseSplits(BATCH, i, words);
      NoAltInBatch(words[0].alts, i, n);
    }
  }

  lemma NoPhraseInBatch(words: seq<Part>)
    requires words != [] && Elsewhere(Phrase(words))
    ensures !HasPhrase(BATCH, words)
  {
    hide PhraseAt, Elsewhere;
    forall i | 0 <= i < |BATCH| ensures !PhraseAt(BATCH, i, words) { NoPhraseAt(words, i); }
  }

  // ── SELECT ... INTO, and what goes with a semicolon ──

  lemma CopyInto(i: nat)
    requires i < 24
    ensures |COPY| == 24 && COPY[13] == ' ' && COPY[14] == '#' && COPY[i] != ';'
    ensures Fold(COPY[i]) == 'I' ==> i == 9
  {
  }

  lemma CountInto(i: nat)
    requires i < 23
    ensures |COUNT_ALL| == 23 && COUNT_ALL[i] != ';' && Fold(COUNT_ALL[i]) != 'I'
  {
  }

  lemma BatchInto(i: nat)
    requires i < |BATCH|
    ensures |BATCH| == 47 && BATCH[13] == ' ' && BATCH[14] == '#' && BATCH[i] != ';'
    ensures Fold(BATCH[i]) == 'I' ==> i == 9
  {
    CopyInto(if i < 24 then i else 0);
    CountInto(if i < 24 then 0 else i - 24);
  }

  lemma MoreThanOneBlank(q: nat)
    requires 14 < q <= |BATCH|
    ensures !Blank(BATCH[13..q])
  {
    BatchInto(14);
    assert BATCH[13..q][1] == BATCH[14];
  }

  /** The only INTO of the batch has one blank behind it, and then a `#`. */
  lemma IntoEnds(j: nat, m: nat, q: nat)
    requires j + m < q < |BATCH| && SameWord(BATCH[j..j + m], "INTO") && Blank(BATCH[j + m..q])
    ensures BATCH[q] == '#'
  {
    assert BATCH[j..j + m][0] == BATCH[j] && "INTO"[0] == 'I';
    BatchInto(j);
    if q > 14 { MoreThanOneBlank(q); }
  }

  lemma NotSelectInto(i: nat, n: nat, j: nat, m: nat, q: nat)
    ensures !ApartAt(BATCH, i, n, j, m, q, SELECT_INTO)
  {
    hide WordAt, SameWord, Blank;
    if ApartAt(BATCH, i, n, j, m, q, SELECT_INTO) { IntoEnds(j, m, q); }
  }

  lemma NothingAfter(mark: char, alts: seq<string>)
    requires mark == ';'
    ensures !HasAfter(BATCH, mark, alts)
  {
    forall i | 0 <= i < |BATCH| ensures BATCH[i] != ';' { BatchInto(i); }
    hide WordAt, Blank, OneOf;
  }

  lemma NothingApart(p: Pattern)
    requires p == SELECT_INTO
    ensures !HasApart(BATCH, p)
  {
    forall i: nat, n: nat, j: nat, m: nat, q: nat
      ensures !ApartAt(BATCH, i, n, j, m, q, p)
    {
      NotSelectInto(i, n, j, m, q);
    }
    hide ApartAt;
  }

  lemma NoEntryMatches(p: Pattern)
    requires Elsewhere(p)
    ensures !Matches(p, BATCH)
  {
    match p
    case Phrase(words) => NoPhraseInBatch(words);
    case After(mark, alts) => NothingAfter(mark, alts);
    case Apart(_, _, _) => NothingApart(p);
    case _ => NoSingleInBatch(p);
    hide HasWord, HasPhrase, HeadElsewhere;
  }

  lemma Changes0(k: nat)
    requires 0 <= k < 5
    ensures k < |READ_CHANGES| && Elsewhere(READ_CHANGES[k])
  {
  }

  lemma Changes5(k: nat)
    requires 5 <= k < 8
    ensures k < |READ_CHANGES| && Elsewhere(READ_CHANGES[k])
  {
  }

  lemma Changes8(k: nat)
    requires 8 <= k < 10
    ensures k < |READ_CHANGES| && Elsewhere(READ_CHANGES[k])
  {
  }

  lemma ChangesElsewhere(k: nat)
    requires k < |READ_CHANGES|
    ensures Elsewhere(READ_CHANGES[k])
  {
    assert |READ_CHANGES| == 10;
    if k < 5 {
      Changes0(k);
    } else if k < 8 {
      Changes5(k);
    } else {
      Changes8(k);
    }
  }

  lemma Server0(k: nat)
    requires 0 <= k < 3
    ensures k < |READ_SERVER| && Elsewhere(READ_SERVER[k])
  {
  }

  lemma Server3(k: nat)
    requires 3 <= k < 8
    ensures k < |READ_SERVER| && Elsewhere(READ_SERVER[k])
  {
  }

  lemma Server8(k: nat)
    requires 8 <= k < 10
    ensures k < |READ_SERVER| && Elsewhere(READ_SERVER[k])
  {
  }

  lemma Server10(k: nat)
    requires 10 <= k < 13
    ensures k < |READ_SERVER| && Elsewhere(READ_SERVER[k])
  {
  }

  lemma ServerElsewhere(k: nat)
    requires k < |READ_SERVER|
    ensures Elsewhere(READ_SERVER[k])
  {
    assert |READ_SERVER| == 13;
    if k < 3 {
      Server0(k);
    } else if k < 8 {
      Server3(k);
    } else if k < 10 {
      Server8(k);
    } else {
      Server10(k);
    }
  }

  lemma Procedures0(k: nat)
    requires 0 <= k < 4
    ensures k < |READ_PROCEDURES| && Elsewhere(READ_PROCEDURES[k])
  {
  }

  lemma Procedures4(k: nat)
    requires 4 <= k < 7
    ensures k < |READ_PROCEDURES| && Elsewhere(READ_PROCEDURES[k])
  {
  }

  lemma Procedures7(k: nat)
    requires 7 <= k < 10
    ensures k < |READ_PROCEDURES| && Elsewhere(READ_PROCEDURES[k])
  {
  }

  lemma Procedures10(k: nat)
    requires 10 <= k < 13
    ensures k < |READ_PROCEDURES| && Elsewhere(READ_PROCEDURES[k])
  {
  }

  lemma ProceduresElsewhere(k: nat)
    requires k < |READ_PROCEDURES|
    ensures Elsewhere(READ_PROCEDURES[k])
  {
    assert |READ_PROCEDURES| == 13;
    if k < 4 {
      Procedures0(k);
    } else if k < 7 {
      Procedures4(k);
    } else if k < 10 {
      Procedures7(k);
    } else {
      Procedures10(k);
    }
  }

  /** No entry of the read guard's table can match a word or a phrase of the batch. */
  lemma TableElsewhere(k: nat)
    requires k < |READ_TABLE|
    ensures Elsewhere(READ_TABLE[k])
  {
    hide Elsewhere;
    assert |READ_CHANGES| == 10 && |READ_SERVER| == 13;
    if k < 10 {
      ChangesElsewhere(k);
    } else if k < 23 {
      ServerElsewhere(k - 10);
    } else {
      ProceduresElsewhere(k - 23);
    }
  }

  lemma CopyIsPlain(i: nat)
    requires i < |COPY|
    ensures Plain(COPY[i]) && COPY[i] != '\r'
  {
  }

  lemma CountIsPlain(i: nat)
    requires i < |COUNT_ALL|
    ensures Plain(COUNT_ALL[i]) && COUNT_ALL[i] != '\r'
  {
  }

  lemma BatchIsPlain(i: nat)
    requires i < |BATCH|
    ensures Plain(BATCH[i]) && BATCH[i] != '\r'
  {
    if i < |COPY| { CopyIsPlain(i); } else { CountIsPlain(i - |COPY|); }
  }

  lemma BatchEnds()
    ensures |BATCH| == 47 && !IsSpace(BATCH[0]) && !IsSpace(BATCH[46])
    ensures BATCH[0..6] == "SELECT" && WordAt(BATCH, 0, 6)
  {
    assert |COPY| == 24 && |COUNT_ALL| == 23 && COPY[0] == 'S' && COUNT_ALL[22] == 't';
    assert BATCH[46] == COUNT_ALL[22];
    assert COPY[0..6] == "SELECT" && COPY[6] == ' ';
    assert BATCH[0..6] == COPY[0..6] && BATCH[6] == COPY[6];
    assert forall j :: 0 <= j < 6 ==> BATCH[j] == BATCH[0..6][j] == "SELECT"[j];
  }

  lemma BatchLexes()
    ensures Strip(BATCH) == BATCH && Trim(BATCH) == BATCH && !EndsOpen(BATCH) && !HasBareReturn(BATCH)
    ensures |Regions(BATCH)| == 47
  {
    forall i | 0 <= i < |BATCH| ensures Plain(BATCH[i]) && BATCH[i] != '\r' { BatchIsPlain(i); }
    PlainLexes(BATCH);
    BatchEnds();
    CodePieces(BATCH);
    assert InkStart(BATCH) == 0 && InkEnd(BATCH) == 47;
  }

  lemma BatchBegins()
    ensures PhraseAt(BATCH, 0, [Among(READ_STARTS)])
  {
    BatchEnds();
    assert READ_STARTS[0] == "SELECT" && SameWord("SELECT", READ_STARTS[0]);
    assert Begins(BATCH, 0, 6, 0, [Among(READ_STARTS)]);
    PhraseJoins(BATCH, 0, 6, 0, [Among(READ_STARTS)]);
  }

  /** Nothing bounds the scan. */
  lemma BatchIsUnbounded()
    ensures !Says(BATCH, "WHERE") && !Says(BATCH, "TOP") && !Says(BATCH, "OFFSET")
  {
    NoSingleInBatch(Word(["WHERE"]));
    NoSingleInBatch(Word(["TOP"]));
    NoSingleInBatch(Word(["OFFSET"]));
  }

  /** The read guard accepts it, unless it scans a configured sensitive table and the caller did not opt in. */
  lemma BatchIsAccepted(allowLargeScan: bool, sensitive: seq<string>)
    ensures ValidateQuery(BATCH, allowLargeScan, sensitive)
         == if !allowLargeScan && Mentions(BATCH, sensitive) then Unbounded else Accepted
  {
    BatchLexes();
    BatchEnds();
    BatchBegins();
    BatchIsUnbounded();
    hide Matches, PhraseAt, HasBareReturn, Trim, Strip, Mentions, Says;
    forall k | 0 <= k < |READ_TABLE| ensures !Matches(READ_TABLE[k], BATCH) {
      TableElsewhere(k);
      NoEntryMatches(READ_TABLE[k]);
    }
    Judges(READ_TABLE, READ_STARTS, UnboundedRead(allowLargeScan, sensitive), BATCH);
  }

  lemma Judges(table: seq<Pattern>, starts: seq<string>, unbounded: string -> bool, q: string)
    requires |q| <= MAX_QUERY_LENGTH && !HasBareReturn(q) && Trim(Strip(q)) == q && PhraseAt(q, 0, [Among(starts)])
    requires forall k :: 0 <= k < |table| ==> !Matches(table[k], q)
    ensures Judge(table, starts, unbounded, q) == if unbounded(q) then Unbounded else Accepted
  {
    hide Matches, PhraseAt, HasBareReturn, Trim, Strip;
  }

  const SENSITIVE_DEFAULT := ["messageLog"]

  lemma CopyHasNoMe(i: nat)
    requires i + 1 < 24
    ensures |COPY| == 24 && COPY[23] == ' ' && !(Fold(COPY[i]) == 'M' && Fold(COPY[i + 1]) == 'E')
  {
  }

  lemma CountHasNoMe(i: nat)
    requires i + 1 < 23
    ensures |COUNT_ALL| == 23 && !(Fold(COUNT_ALL[i]) == 'M' && Fold(COUNT_ALL[i + 1]) == 'E')
  {
  }

  /** By default it is accepted outright. */
  lemma DefaultAccepts(allowLargeScan: bool)
    ensures ValidateQuery(BATCH, allowLargeScan, SENSITIVE_DEFAULT) == Accepted
  {
    BatchIsAccepted(allowLargeScan, SENSITIVE_DEFAULT);
    forall i: nat ensures !MentionedAt(BATCH, i, "messageLog") { NotMentioned(i); }
    hide MentionedAt, ValidateQuery;
  }

  lemma NotMentioned(i: nat)
    ensures !MentionedAt(BATCH, i, "messageLog")
  {
    var name := "messageLog";
    if MentionedAt(BATCH, i, name) {
      assert BATCH[i..i + 10][0] == BATCH[i] && BATCH[i..i + 10][1] == BATCH[i + 1] && name[0] == 'm' && name[1] == 'e';
      CopyHasNoMe(if i < 23 then i else 0);
      CountHasNoMe(if i < 24 then 0 else i - 24);
    }
  }

  /**
   * Accepted, sent, and told wrong: with more rows in the table than the cap and one, the caller is given the number
   * of rows the cap let through as the count, with `truncated` false and nothing noted.
   */
  lemma AcceptedAndWrong(maxRows: nat, d: Data, instance: string, noteTruncation: Option<bool>, allowLargeScan: bool)
    requires maxRows > 0 && "b" in d && |d["b"]| > maxRows + 1
    ensures ValidateQuery(BATCH, allowLargeScan, SENSITIVE_DEFAULT) == Accepted && !EndsOpen(BATCH)
    ensures var batch := CopyThenCount(0, 24);
            && WellPlaced(batch, BATCH)
            && Outcome(batch, BATCH, maxRows, true, d, instance, noteTruncation)
              == (Capped([Decimal(maxRows + 1)], false), [])
            && Truth(batch, BATCH, maxRows, true, d, instance, noteTruncation)
              == (Capped([Decimal(|d["b"]|)], false), [])
  {
    BatchLexes();
    DefaultAccepts(allowLargeScan);
    hide ValidateQuery, Strip, Trim, HasBareReturn, NoRowCount, EndsOpen, Regions, BATCH;
    WrappedHasNoRowCount(BATCH, true, allowLargeScan, SENSITIVE_DEFAULT);
    CountIsWrongSilently(BATCH, maxRows, 0, 24, d, instance, noteTruncation);
  }
}
