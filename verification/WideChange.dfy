/** A change of a whole table that the write guard accepts without the opt-in: its target stands in double quotes. */
module WideChange {
  import opened Text
  import opened Lexer
  import opened LexerLaws
  import opened Words
  import opened Patterns
  import opened Guards
  import opened Bounds
  import opened Verdicts
  import opened Forbidden
  import opened RowCap

  const WIDE := "DELETE \"T\""

  lemma WideText()
    ensures |WIDE| == 10 && WIDE[0..6] == "DELETE" && WIDE[6] == ' ' && WIDE[7] == '"' && WIDE[8] == 'T'
            && WIDE[9] == '"'
    ensures WIDE == "DELETE " + (Enclosed("T", false) + "")
  {
    assert Doubled("T", '"') == "T" + Doubled("", '"');
    assert Enclosed("T", false) == "\"T\"";
  }

  const FRONT := "DELETE "

  lemma FrontLexes()
    ensures Lex(FRONT) == CodeTokens(FRONT) && Strip(FRONT) == FRONT && Seam(FRONT, Enclosed("T", false))
  {
    assert forall i :: 0 <= i < |FRONT| ==> Plain(FRONT[i]);
    PlainLexes(FRONT);
    assert FRONT[|FRONT| - 1] == ' ' && Enclosed("T", false)[0] == '"';
  }

  lemma WideLexes()
    ensures Strip(WIDE) == WIDE
  {
    WideText();
    FrontLexes();
    hide Enclosed;
    NameStays(FRONT, "T", false, "");
  }

  lemma WideTrims()
    ensures Trim(WIDE) == WIDE
  {
    WideText();
    assert InkStart(WIDE) == 0 && InkEnd(WIDE) == 10;
  }

  /** Its words are DELETE and T. */
  lemma WideWords(i: nat, n: nat)
    requires WordAt(WIDE, i, n)
    ensures (i == 0 && n == 6) || (i == 8 && n == 1)
  {
    WideText();
    assert IsWordChar(WIDE[i]) && IsWordChar(WIDE[i + n - 1]);
    assert !IsWordChar(WIDE[6]) && !IsWordChar(WIDE[7]) && !IsWordChar(WIDE[9]);
    assert forall k :: 0 <= k < 6 ==> WIDE[k] == WIDE[0..6][k];
  }

  /** What begins so is longer than T and does not begin as DELETE does. */
  predicate NotOfWide(h: string) {
    |h| >= 3 && !(Fold(h[0]) == 'D' && Fold(h[1]) == 'E' && Fold(h[2]) == 'L')
  }

  lemma NoneOfWide(h: string)
    requires NotOfWide(h)
    ensures !HasWord(WIDE, BeginsLike(h))
  {
    WideText();
    hide WordAt;
    forall i, n | 0 <= i < |WIDE| && 0 < n <= |WIDE| - i && WordAt(WIDE, i, n) ensures !BeginsLike(h)(WIDE[i..i + n]) {
      WideWords(i, n);
      if i == 0 && n >= |h| {
        var w := WIDE[0..6][..|h|];
        assert w[0] == 'D' && w[1] == 'E' && w[2] == 'L';
      }
    }
  }

  lemma Heads0(k: nat)
    requires k < 10
    ensures |WRITE_HEADS| == 37 && NotOfWide(WRITE_HEADS[k])
  {
  }

  lemma Heads10(k: nat)
    requires 10 <= k < 20
    ensures |WRITE_HEADS| == 37 && NotOfWide(WRITE_HEADS[k])
  {
  }

  lemma Heads20(k: nat)
    requires 20 <= k < 29
    ensures |WRITE_HEADS| == 37 && NotOfWide(WRITE_HEADS[k])
  {
  }

  lemma Heads29(k: nat)
    requires 29 <= k < 37
    ensures |WRITE_HEADS| == 37 && NotOfWide(WRITE_HEADS[k])
  {
  }

  lemma NoAlarm()
    ensures !Alarms(WIDE, WRITE_HEADS)
  {
    Heads0(0);
    hide NotOfWide, HasWord, WRITE_HEADS;
    forall k | 0 <= k < |WRITE_HEADS| ensures !HasWord(WIDE, BeginsLike(WRITE_HEADS[k])) {
      if k < 10 {
        Heads0(k);
      } else if k < 20 {
        Heads10(k);
      } else if k < 29 {
        Heads20(k);
      } else {
        Heads29(k);
      }
      NoneOfWide(WRITE_HEADS[k]);
    }
  }

  lemma NoEntry(k: nat)
    requires k < |WRITE_TABLE|
    ensures !Matches(WRITE_TABLE[k], WIDE)
  {
    TableHeads(k);
    if Matches(WRITE_TABLE[k], WIDE) {
      MatchAlarms(WIDE, WRITE_TABLE[k]);
      MoreAlarms(WIDE, Heads(WRITE_TABLE[k]), WRITE_HEADS);
      NoAlarm();
    }
  }

  lemma MoreAlarms(t: string, few: seq<string>, many: seq<string>)
    requires Alarms(t, few) && forall k :: 0 <= k < |few| ==> few[k] in many
    ensures Alarms(t, many)
  {
    hide HasWord;
    var k :| 0 <= k < |few| && HasWord(t, BeginsLike(few[k]));
    var j :| 0 <= j < |many| && many[j] == few[k];
  }

  lemma NoDelete(i: nat, a: nat)
    ensures !DeleteAt(WIDE, i, a)
  {
    WideText();
    if DeleteAt(WIDE, i, a) {
      WideWords(i, 6);
    }
  }

  lemma NoUpdate(i: nat, a: nat, b: nat, c: nat)
    ensures !UpdateAt(WIDE, i, a, b, c)
  {
    WideText();
    hide Blank, TargetChar;
  }

  lemma NotSeen()
    ensures !ChangesTable(WIDE)
  {
    forall i: nat, a: nat ensures !DeleteAt(WIDE, i, a) { NoDelete(i, a); }
    forall i: nat, a: nat, b: nat, c: nat ensures !UpdateAt(WIDE, i, a, b, c) { NoUpdate(i, a, b, c); }
    hide DeleteAt, UpdateAt;
  }

  lemma WideBegins()
    ensures PhraseAt(WIDE, 0, [Among(WRITE_STARTS)])
  {
    WideText();
    var words := [Among(WRITE_STARTS)];
    assert forall k :: 0 <= k < 6 ==> WIDE[k] == WIDE[0..6][k];
    assert WRITE_STARTS[5] == "DELETE" && SameWord(WIDE[0..6], WRITE_STARTS[5]);
    assert Begins(WIDE, 0, 6, 0, words);
    PhraseJoins(WIDE, 0, 6, 0, words);
  }

  lemma NameAtEnd(p: string, x: string)
    requires Seam(p, Enclosed(x, false))
    ensures Lex(p + Enclosed(x, false)) == Lex(p) + [Delimited(Enclosed(x, false))]
  {
    NameStays(p, x, false, "");
    var e := Enclosed(x, false);
    hide Enclosed, Seam;
    assert e + "" == e && [Delimited(e)] + Lex("") == [Delimited(e)];
  }

  lemma TInQuotes()
    ensures Enclosed("T", false) == "\"T\""
  {
    assert Doubled("T", '"') == "T" + Doubled("", '"');
  }

  lemma WideIsFront()
    ensures WIDE == FRONT + "\"T\""
  {
  }

  lemma WideTokens()
    ensures Lex(WIDE) == CodeTokens(FRONT) + [Delimited("\"T\"")]
  {
    hide FRONT, WIDE, Enclosed, Seam, CodeTokens, Lex;
    FrontLexes();
    TInQuotes();
    WideIsFront();
    NameAtEnd(FRONT, "T");
  }

  lemma WideRegions()
    ensures Regions(WIDE) == Chs(FRONT) + [Name("\"T\"")]
  {
    WideTokens();
    var last := [Delimited("\"T\"")];
    assert last[1..] == [];
    hide FRONT, WIDE, CodeTokens, Lex, Chs;
    PiecesAppend(CodeTokens(FRONT), last);
    CodePieces(FRONT);
  }

  lemma SaysDelete()
    ensures var ps := Chs(FRONT) + [Name("\"T\"")]; |ps| == 8 && CodeSaysAt(ps, 0, "DELETE") && ps[7] == Name("\"T\"")
  {
    var ps := Chs(FRONT) + [Name("\"T\"")];
    assert |FRONT| == 7 && FRONT[6] == ' ' && FRONT[0..6] == "DELETE";
    assert forall k :: 0 <= k < 6 ==> ps[k] == Ch(FRONT[k]) && FRONT[k] == FRONT[0..6][k];
    assert CodeWordAt(ps, 0, 6);
    assert Chars(ps[0..6]) == FRONT[0..6];
  }

  lemma WideHasNoReturn()
    ensures |WIDE| <= 20000 && OnlyCrLf(WIDE)
  {
  }

  lemma WideIsAccepted()
    ensures ValidateWriteQuery(WIDE, false) == Accepted
  {
    WideLexes();
    WideTrims();
    WideBegins();
    NotSeen();
    WideHasNoReturn();
    hide Matches, PhraseAt, Says, ChangesTable, Trim, Strip, Judge, OnlyCrLf, WIDE, WRITE_TABLE, WRITE_STARTS;
    forall k | 0 <= k < |WRITE_TABLE| ensures !Matches(WRITE_TABLE[k], WIDE) { NoEntry(k); }
    JudgeExactly(WRITE_TABLE, WRITE_STARTS, UnboundedWrite(false), WIDE);
  }

  /** DELETE in code, a name in double quotes behind it, no WHERE anywhere, and nothing opted in: accepted. */
  lemma QuotedTargetPasses()
    ensures var ps := Regions("DELETE \"T\"");
            && ValidateWriteQuery("DELETE \"T\"", false) == Accepted
            && |ps| == 8 && CodeSaysAt(ps, 0, "DELETE") && ps[7] == Name("\"T\"") && !SaysSomewhere(ps, "WHERE")
  {
    WideIsAccepted();
    WideRegions();
    SaysDelete();
    NoneOfWide("WHERE");
    SaidBegins("WHERE");
    WideLexes();
    WideTrims();
    SaysExactly(WIDE, "WHERE");
    hide ValidateWriteQuery, Says, SaysSomewhere, Trim, Strip, Regions, CodeSaysAt, HasWord;
  }

  lemma SaidBegins(h: string)
    requires !HasWord(WIDE, BeginsLike(h))
    ensures !Says(WIDE, h)
  {
    hide WordAt;
    forall i, n | 0 <= i < |WIDE| && 0 < n <= |WIDE| - i && WordAt(WIDE, i, n) ensures !OneOf(WIDE[i..i + n], [h]) {
      OneIsSame(WIDE[i..i + n], h);
      assert !BeginsLike(h)(WIDE[i..i + n]);
      assert WIDE[i..i + n][..n] == WIDE[i..i + n];
    }
  }
}
