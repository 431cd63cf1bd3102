/** What the guards' verdicts say of the code of a batch. */
module Verdicts {
  import opened Text
  import opened Lexer
  import opened LexerLaws
  import opened Words
  import opened Patterns
  import opened PhraseOrigins
  import opened Guards
  import opened Bounds

  // ── Words, wherever they are said ──

  predicate SaysInCode(ps: seq<Piece>, w: string) {
    exists k, n :: 0 <= k < |ps| && 0 < n <= |ps| - k && CodeWordAt(ps, k, n) && SameWord(Chars(ps[k..k + n]), w)
  }

  predicate SaysInName(ps: seq<Piece>, w: string) {
    exists k :: 0 <= k < |ps| && ps[k].Name? && TextSays(ps[k].text, w)
  }

  predicate TextSays(t: string, w: string) {
    exists i, n :: 0 <= i < |t| && 0 < n <= |t| - i && WordAt(t, i, n) && SameWord(t[i..i + n], w)
  }

  predicate SaysSomewhere(ps: seq<Piece>, w: string) {
    SaysInCode(ps, w) || SaysInName(ps, w)
  }

  lemma OneIsSame(v: string, w: string)
    ensures OneOf(v, [w]) <==> SameWord(v, w)
  {
    assert [w][0] == w;
  }

  lemma TextSaysWord(t: string, w: string)
    ensures HasWord(t, IsOneOf([w])) <==> TextSays(t, w)
  {
    forall v: string ensures OneOf(v, [w]) <==> SameWord(v, w) { OneIsSame(v, w); }
    hide WordAt, OneOf, SameWord;
  }

  lemma CodeSaysWord(ps: seq<Piece>, w: string)
    ensures CodeHasWord(ps, IsOneOf([w])) <==> SaysInCode(ps, w)
    ensures NameHasWord(ps, IsOneOf([w])) <==> SaysInName(ps, w)
  {
    forall v: string ensures OneOf(v, [w]) <==> SameWord(v, w) { OneIsSame(v, w); }
    forall t: string ensures HasWord(t, IsOneOf([w])) <==> TextSays(t, w) { TextSaysWord(t, w); }
    hide CodeWordAt, OneOf, SameWord, HasWord, TextSays;
  }

  /** The guards find a word iff the code says it, or a delimited name. */
  lemma SaysExactly(query: string, w: string)
    ensures Says(Trim(Strip(query)), w) <==> SaysSomewhere(Regions(query), w)
  {
    MatchesExactly(Word([w]), query);
    CodeSaysWord(Regions(query), w);
    hide HasWord, CodeHasWord, NameHasWord, SaysInCode, SaysInName;
  }

  // ── How a batch begins ──

  /** The first thing in code that is neither white space nor a comment is one of these words. */
  predicate CodeStarts(ps: seq<Piece>, starts: seq<string>) {
    exists k, n :: 0 <= k < |ps| && 0 < n <= |ps| - k && StartsAt(ps, k, n, starts)
  }

  predicate StartsAt(ps: seq<Piece>, k: nat, n: nat, starts: seq<string>) {
    k + n <= |ps| && BlankPieces(ps, 0, k) && CodeWordAt(ps, k, n) && OneOf(Chars(ps[k..k + n]), starts)
  }

  lemma StartIsWord(t: string, starts: seq<string>)
    ensures PhraseAt(t, 0, [Among(starts)]) <==> exists n :: 0 < n <= |t| && WordAt(t, 0, n) && OneOf(t[0..n], starts)
  {
    var words := [Among(starts)];
    if PhraseAt(t, 0, words) {
      var n, j := PhraseSplits(t, 0, words);
    }
    if exists n :: 0 < n <= |t| && WordAt(t, 0, n) && OneOf(t[0..n], starts) {
      var n :| 0 < n <= |t| && WordAt(t, 0, n) && OneOf(t[0..n], starts);
      PhraseJoins(t, 0, n, 0, words);
    }
  }

  lemma CodeStartShows(ps: seq<Piece>, k: nat, n: nat, starts: seq<string>)
    requires Proper(ps) && StartsAt(ps, k, n, starts)
    ensures var u := Trim(Flat(ps)); n <= |u| && WordAt(u, 0, n) && OneOf(u[0..n], starts)
  {
    hide Trim, Proper, Layout, OneOf, Window, Blank, WordAt, Chars;
    var t := Flat(ps);
    var off := HasLayout(ps);
    TrimIsWindow(t);
    NoHiding(ps, t, off, k, n);
    BlankRun(ps, t, off, 0, k);
    FirstOffset(ps, t, off);
    WordInWindow(t, InkStart(t), InkEnd(t), off[k], n);
    WordInside(t, off[k], n);
    BlankPrefix(t, off[k]);
  }

  lemma WordInside(t: string, i: nat, n: nat)
    requires WordAt(t, i, n)
    ensures 0 < n && i + n <= |t| && !IsSpace(t[i])
  {
    assert IsWordChar(t[i]);
  }

  lemma BlankPrefix(t: string, x: nat)
    requires x < |t| && Blank(t[0..x]) && !IsSpace(t[x])
    ensures InkStart(t) == x
  {
    assert forall j :: 0 <= j < x ==> t[0..x][j] == t[j];
  }

  lemma StartHasOrigin(ps: seq<Piece>, n: nat, starts: seq<string>)
    requires Proper(ps)
    requires var u := Trim(Flat(ps)); 0 < n <= |u| && WordAt(u, 0, n) && OneOf(u[0..n], starts)
    ensures CodeStarts(ps, starts)
  {
    var t := Flat(ps);
    var a, b := InkStart(t), InkEnd(t);
    TrimIsWindow(t);
    hide Trim, Proper, OneOf, Window, WordAt, StartsAt;
    WindowBounds(t, a, b);
    WordOutOfWindow(t, a, b, 0, n);
    WordInside(t, a, n);
    BlankBefore(t, a);
    var off := HasLayout(ps);
    var k := FirstWordIsCode(ps, t, off, a, n, starts);
    StartIsIn(ps, k, n, starts);
  }

  lemma StartIsIn(ps: seq<Piece>, k: nat, n: nat, starts: seq<string>)
    requires StartsAt(ps, k, n, starts)
    ensures 0 < n <= |ps| - k
  {
  }

  lemma FirstWordIsCode(ps: seq<Piece>, t: string, off: seq<nat>, a: nat, n: nat, starts: seq<string>) returns (k: nat)
    requires Proper(ps) && Layout(ps, t, off) && WordAt(t, a, n)
    requires Blank(t[0..a]) && OneOf(t[a..a + n], starts)
    ensures StartsAt(ps, k, n, starts)
  {
    hide Proper, Layout, OneOf, Blank, WordAt, CodeWordAt, Chars;
    k := NoGluing(ps, t, off, a, n);
    FirstOffset(ps, t, off);
    OnlyCodeStarts(ps, t, off, k, a, n);
    NoHiding(ps, t, off, k, n);
    CodeWordIn(ps, k, n);
    OffsetsGrow(ps, t, off, 0, k);
    BlanksAreBlank(ps, t, off, 0, k);
  }

  lemma WindowBounds(t: string, a: nat, b: nat)
    requires Window(t, a, b)
    ensures a <= b <= |t|
  {
  }

  lemma BlankBefore(t: string, a: nat)
    requires a == InkStart(t) && a <= |t|
    ensures Blank(t[0..a])
  {
    assert forall j :: 0 <= j < a ==> t[0..a][j] == t[j];
  }

  /** The first word cannot be in a name: the name's opening delimiter would come before it. */
  lemma OnlyCodeStarts(ps: seq<Piece>, t: string, off: seq<nat>, k: nat, a: nat, n: nat)
    requires Proper(ps) && Layout(ps, t, off) && ComesFrom(ps, off, k, a, n) && WordAt(t, a, n) && Blank(t[0..a])
    ensures CodeWordAt(ps, k, n) && off[k] == a
  {
    if ps[k].Name? {
      NameEdges(ps, t, off, k);
      WordEnds(t, a, n);
      if off[k] < a { NoDelimiterIn(t, 0, a, off[k]); }
    }
  }

  /** The test for how a batch begins looks at the code behind leading white space and comments, and at nothing else. */
  lemma StartsExactly(query: string, starts: seq<string>)
    ensures PhraseAt(Trim(Strip(query)), 0, [Among(starts)]) <==> CodeStarts(Regions(query), starts)
  {
    var ps, u := Regions(query), Trim(Strip(query));
    RegionsAreProper(query);
    StartIsWord(u, starts);
    hide Regions, Strip, Trim, PhraseAt, Proper;
    if CodeStarts(ps, starts) {
      var k, n :| 0 <= k < |ps| && 0 < n <= |ps| - k && StartsAt(ps, k, n, starts);
      CodeStartShows(ps, k, n, starts);
    }
    if exists n :: 0 < n <= |u| && WordAt(u, 0, n) && OneOf(u[0..n], starts) {
      var n :| 0 < n <= |u| && WordAt(u, 0, n) && OneOf(u[0..n], starts);
      StartHasOrigin(ps, n, starts);
    }
  }

  // ── The whole verdicts ──

  lemma ChangeIsSaid(t: string)
    requires ChangesTable(t)
    ensures Says(t, "DELETE") || (Says(t, "UPDATE") && Says(t, "SET"))
  {
    TextSaysWord(t, "DELETE");
    TextSaysWord(t, "UPDATE");
    TextSaysWord(t, "SET");
    hide HasWord, WordAt, SameWord, Blank;
  }

  /** Every carriage return is followed by a line feed. */
  predicate OnlyCrLf(query: string) {
    forall i :: 0 <= i < |query| && query[i] == '\r' ==> i + 1 < |query| && query[i + 1] == '\n'
  }

  /** Which test refuses a batch: the first one, in this order, that it fails. */
  lemma JudgeExactly(table: seq<Pattern>, starts: seq<string>, unbounded: string -> bool, query: string)
    ensures var t, v := Trim(Strip(query)), Judge(table, starts, unbounded, query);
            var begins := |query| <= 20000 && OnlyCrLf(query) && PhraseAt(t, 0, [Among(starts)]);
            var passes := begins && forall k :: 0 <= k < |table| ==> !Matches(table[k], t);
            && (v == TooLong <==> |query| > 20000)
            && (v == BareReturn <==> |query| <= 20000 && !OnlyCrLf(query))
            && (v == BadStart <==> |query| <= 20000 && OnlyCrLf(query) && !PhraseAt(t, 0, [Among(starts)]))
            && (v == Accepted <==> passes && !unbounded(t))
            && (v == Unbounded <==> passes && unbounded(t))
  {
    hide Matches, PhraseAt, Trim, Strip;
  }

  predicate BeginsWell(starts: seq<string>, query: string) {
    |query| <= 20000 && OnlyCrLf(query) && PhraseAt(Trim(Strip(query)), 0, [Among(starts)])
  }

  /** And which entry: the first that matches. */
  lemma BlockedExactly(table: seq<Pattern>, starts: seq<string>, unbounded: string -> bool, query: string, k: nat)
    ensures Judge(table, starts, unbounded, query) == Blocked(k)
       <==> && BeginsWell(starts, query) && k < |table| && Matches(table[k], Trim(Strip(query)))
            && forall j :: 0 <= j < k ==> !Matches(table[j], Trim(Strip(query)))
  {
    hide Matches, PhraseAt, Trim, Strip;
  }

  predicate NoEntryMatches(table: seq<Pattern>, query: string) {
    forall k :: 0 <= k < |table| ==> !Matches(table[k], Trim(Strip(query)))
  }

  /** Exactly what the read guard accepts. */
  lemma ReadExactly(query: string, allowLargeScan: bool, sensitive: seq<string>)
    ensures var ps := Regions(query);
            var bounded := SaysSomewhere(ps, "WHERE") || SaysSomewhere(ps, "TOP") || SaysSomewhere(ps, "OFFSET");
            var passes := && |query| <= 20000 && OnlyCrLf(query) && CodeStarts(ps, ["SELECT", "WITH", "DECLARE"])
                          && NoEntryMatches(READ_TABLE, query);
            var large := !allowLargeScan && Mentions(Trim(Strip(query)), sensitive) && !bounded;
            && (ValidateQuery(query, allowLargeScan, sensitive) == Accepted <==> passes && !large)
            && (ValidateQuery(query, allowLargeScan, sensitive) == Unbounded <==> passes && large)
  {
    JudgeExactly(READ_TABLE, READ_STARTS, UnboundedRead(allowLargeScan, sensitive), query);
    StartsExactly(query, ["SELECT", "WITH", "DECLARE"]);
    SaysExactly(query, "WHERE");
    SaysExactly(query, "TOP");
    SaysExactly(query, "OFFSET");
    hide Judge, Says, PhraseAt, CodeStarts, SaysSomewhere, Matches, Mentions, Trim, Strip, Regions;
  }

  /** Exactly what the write guard accepts. */
  lemma WriteExactly(query: string, allowUnfiltered: bool)
    ensures var ps := Regions(query);
            var starts := ["SELECT", "WITH", "DECLARE", "INSERT", "UPDATE", "DELETE", "MERGE", "EXEC", "EXECUTE"];
            var passes := && |query| <= 20000 && OnlyCrLf(query) && CodeStarts(ps, starts)
                          && NoEntryMatches(WRITE_TABLE, query);
            var wide := !allowUnfiltered && ChangesTable(Trim(Strip(query))) && !SaysSomewhere(ps, "WHERE");
            && (ValidateWriteQuery(query, allowUnfiltered) == Accepted <==> passes && !wide)
            && (ValidateWriteQuery(query, allowUnfiltered) == Unbounded <==> passes && wide)
  {
    JudgeExactly(WRITE_TABLE, WRITE_STARTS, UnboundedWrite(allowUnfiltered), query);
    StartsExactly(query, ["SELECT", "WITH", "DECLARE", "INSERT", "UPDATE", "DELETE", "MERGE", "EXEC", "EXECUTE"]);
    SaysExactly(query, "WHERE");
    hide Judge, Says, PhraseAt, CodeStarts, SaysSomewhere, Matches, ChangesTable, Trim, Strip, Regions;
  }

  /**
   * A batch the write guard accepts without the opt-in, and whose code deletes from or updates a table, says WHERE. It
   * is refused for want of one only if it says DELETE, or UPDATE and SET, and, where no delimited name has a blank,
   * only if its code does such a thing; never when it says WHERE or was opted in.
   */
  lemma WriteIsFiltered(query: string, allowUnfiltered: bool)
    ensures ValidateWriteQuery(query, false) == Accepted && CodeChangesTable(Regions(query)) ==>
              SaysSomewhere(Regions(query), "WHERE")
    ensures ValidateWriteQuery(query, allowUnfiltered) == Unbounded ==>
              && !allowUnfiltered && !SaysSomewhere(Regions(query), "WHERE")
              && (|| SaysSomewhere(Regions(query), "DELETE")
                  || (SaysSomewhere(Regions(query), "UPDATE") && SaysSomewhere(Regions(query), "SET")))
              && (SolidNames(Regions(query)) ==> CodeChangesTable(Regions(query)))
  {
    WriteExactly(query, false);
    WriteExactly(query, allowUnfiltered);
    RegionsAreProper(query);
    SaysExactly(query, "DELETE");
    SaysExactly(query, "UPDATE");
    SaysExactly(query, "SET");
    hide ValidateWriteQuery, Says, CodeStarts, SaysSomewhere, Matches, ChangesTable, Trim, Strip, Regions;
    hide CodeChangesTable, NoEntryMatches, SolidNames;
    if CodeChangesTable(Regions(query)) { CodeChangeShows(Regions(query)); }
    if SolidNames(Regions(query)) { ChangeIsReal(Regions(query)); }
    if ChangesTable(Trim(Strip(query))) { ChangeIsSaid(Trim(Strip(query))); }
  }

  predicate CodeMentionsAny(ps: seq<Piece>, names: seq<string>) {
    exists k :: 0 <= k < |names| && CodeMentions(ps, names[k])
  }

  predicate AllSpellable(names: seq<string>) {
    forall k :: 0 <= k < |names| ==> Spellable(names[k])
  }

  lemma MentionOfOne(t: string, names: seq<string>)
    ensures Mentions(t, names) <==> exists k :: 0 <= k < |names| && MentionsOne(t, names[k])
  {
    hide MentionedAt;
    if Mentions(t, names) {
      var k, i :| 0 <= k < |names| && 0 <= i <= |t| && MentionedAt(t, i, names[k]);
      assert MentionsOne(t, names[k]);
    }
    if exists k :: 0 <= k < |names| && MentionsOne(t, names[k]) {
      var k :| 0 <= k < |names| && MentionsOne(t, names[k]);
      var i :| 0 <= i <= |t| && MentionedAt(t, i, names[k]);
    }
  }

  lemma NameExactly(query: string, name: string)
    ensures CodeMentions(Regions(query), name) ==> MentionsOne(Trim(Strip(query)), name)
    ensures Spellable(name) && MentionsOne(Trim(Strip(query)), name) ==> CodeMentions(Regions(query), name)
  {
    RegionsAreProper(query);
    MentionsShow(Regions(query), name);
    TrimInvisibleToMentions(Strip(query), name);
  }

  lemma MentionsExactly(query: string, names: seq<string>)
    ensures CodeMentionsAny(Regions(query), names) ==> Mentions(Trim(Strip(query)), names)
    ensures AllSpellable(names) && Mentions(Trim(Strip(query)), names) ==> CodeMentionsAny(Regions(query), names)
  {
    MentionOfOne(Trim(Strip(query)), names);
    hide MentionsOne, CodeMentions, Mentions, Trim, Strip, Regions, Spellable;
    forall k | 0 <= k < |names|
      ensures CodeMentions(Regions(query), names[k]) ==> MentionsOne(Trim(Strip(query)), names[k])
      ensures AllSpellable(names) && MentionsOne(Trim(Strip(query)), names[k]) ==>
                CodeMentions(Regions(query), names[k])
    {
      NameExactly(query, names[k]);
    }
  }

  /**
   * A batch the read guard accepts without the opt-in, and which names a configured table, says WHERE, TOP or OFFSET.
   * It is refused for want of one only if it names such a table, and never when it says one or was opted in.
   */
  lemma ReadIsBounded(query: string, allowLargeScan: bool, sensitive: seq<string>)
    ensures ValidateQuery(query, false, sensitive) == Accepted && CodeMentionsAny(Regions(query), sensitive) ==>
              || SaysSomewhere(Regions(query), "WHERE") || SaysSomewhere(Regions(query), "TOP")
              || SaysSomewhere(Regions(query), "OFFSET")
    ensures ValidateQuery(query, allowLargeScan, sensitive) == Unbounded ==>
              && !allowLargeScan && !SaysSomewhere(Regions(query), "WHERE") && !SaysSomewhere(Regions(query), "TOP")
              && !SaysSomewhere(Regions(query), "OFFSET")
              && (AllSpellable(sensitive) ==> CodeMentionsAny(Regions(query), sensitive))
  {
    ReadExactly(query, false, sensitive);
    ReadExactly(query, allowLargeScan, sensitive);
    MentionsExactly(query, sensitive);
    hide ValidateQuery, CodeStarts, SaysSomewhere, Mentions, Trim, Strip, Regions, NoEntryMatches, CodeMentionsAny;
  }

  /**
   * What the opt-ins change, where no delimited name has a blank and every configured name is spelled without one: a
   * batch passes without them iff it passes with them and, if its code changes a table with a target the guard can
   * read, says WHERE, or, if it names a configured table, says WHERE, TOP or OFFSET.
   */
  lemma OptInsExactly(query: string, sensitive: seq<string>)
    requires SolidNames(Regions(query)) && AllSpellable(sensitive)
    ensures ValidateWriteQuery(query, false) == Accepted
       <==> && ValidateWriteQuery(query, true) == Accepted
            && (CodeChangesTable(Regions(query)) ==> SaysSomewhere(Regions(query), "WHERE"))
    ensures ValidateQuery(query, false, sensitive) == Accepted
       <==> && ValidateQuery(query, true, sensitive) == Accepted
            && (CodeMentionsAny(Regions(query), sensitive) ==>
                  || SaysSomewhere(Regions(query), "WHERE") || SaysSomewhere(Regions(query), "TOP")
                  || SaysSomewhere(Regions(query), "OFFSET"))
  {
    WriteExactly(query, false);
    WriteExactly(query, true);
    ReadExactly(query, false, sensitive);
    ReadExactly(query, true, sensitive);
    RegionsAreProper(query);
    MentionsExactly(query, sensitive);
    hide ValidateQuery, ValidateWriteQuery, CodeStarts, SaysSomewhere, Mentions, Trim, Strip, Regions, NoEntryMatches;
    hide ChangesTable, CodeChangesTable, CodeMentionsAny, SolidNames, AllSpellable, OnlyCrLf;
    ChangeIsReal(Regions(query));
  }
}
