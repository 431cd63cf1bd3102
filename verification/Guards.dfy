/** The two query guards, over their constant pattern tables. */
module Guards {
  import opened Text
  import opened Lexer
  import opened LexerLaws
  import opened Words
  import opened Patterns
  import opened PhraseOrigins

  const MAX_QUERY_LENGTH := 20000

  const READ_CHANGES: seq<Pattern> := [
    Word(["INSERT"]), Phrase([Among(["UPDATE"]), AnyWord]), Phrase([Among(["DELETE"]), AnyWord]),
    Phrase([Among(["MERGE"]), AnyWord]), Phrase([Among(["TRUNCATE"]), Among(["TABLE"])]),
    SELECT_INTO, Phrase([Among(["BULK"]), Among(["INSERT"])]), Word(["CREATE", "ALTER", "DROP"]),
    Phrase([Among(["ALTER"]), Among(["ANY"])]), Word(["GRANT", "REVOKE", "DENY"])]

  const READ_SERVER: seq<Pattern> := [
    Phrase([Among(["BACKUP"]), Among(["DATABASE", "LOG", "CERTIFICATE"])]),
    Phrase([Among(["RESTORE"]), Among(["DATABASE", "LOG", "VERIFYONLY", "HEADERONLY", "FILELISTONLY"])]),
    Word(["RECONFIGURE"]), Word(["SP_CONFIGURE"]), Word(["SHUTDOWN"]), Word(["KILL"]), Word(["CHECKPOINT"]),
    Word(["RAISERROR"]), Phrase([Among(["BEGIN", "COMMIT", "ROLLBACK"]), Among(["TRAN", "TRANSACTION"])]),
    Phrase([Among(["SEND"]), Among(["ON"]), Among(["CONVERSATION"])]), Phrase([Among(["BEGIN"]), Among(["DIALOG"])]),
    Phrase([Among(["SET"]), Among(["CONTEXT_INFO"])]), Phrase(SET_ROWCOUNT)]

  const READ_PROCEDURES: seq<Pattern> := [
    Word(["DBCC"]), Word(["WAITFOR"]), Word(["RESTORE"]), Word(["XP_CMDSHELL"]), Stem("XP_"), Stem("SP_OA"),
    Stem("SP_ADD"), Word(["SP_EXECUTESQL"]), Word(["OPENROWSET"]), Word(["OPENDATASOURCE"]), Word(["OPENQUERY"]),
    After(';', SECOND_STATEMENTS), Word(["EXEC", "EXECUTE"])]

  const READ_TABLE: seq<Pattern> := READ_CHANGES + (READ_SERVER + READ_PROCEDURES)

  const SELECT_INTO := Apart("SELECT", "INTO", "@#")

  const SECOND_STATEMENTS := ["EXEC", "EXECUTE", "INSERT", "UPDATE", "DELETE", "MERGE", "CREATE", "ALTER", "DROP",
                              "GRANT", "REVOKE", "DENY", "BACKUP", "RESTORE", "TRUNCATE"]

  const WRITE_CHANGES: seq<Pattern> := [
    Word(["CREATE", "ALTER", "DROP"]), Phrase([Among(["ALTER"]), Among(["ANY"])]),
    Phrase([Among(["TRUNCATE"]), Among(["TABLE"])]), Word(["GRANT", "REVOKE", "DENY"]),
    Word(["SP_ADDROLEMEMBER", "SP_DROPROLEMEMBER", "SP_ADDSRVROLEMEMBER", "SP_DROPSRVROLEMEMBER"]),
    Word(["SP_ADDROLE", "SP_DROPROLE"]), Word(["SP_ADDLOGIN", "SP_DROPLOGIN"]), Word(["SP_PASSWORD"]),
    Phrase([Among(["ADD"]), Among(["MEMBER"])])]

  const WRITE_SERVER: seq<Pattern> := [
    Word(["RECONFIGURE"]), Word(["SP_CONFIGURE"]), Word(["SHUTDOWN"]), Phrase([Among(["KILL"]), Numeral(["UOW"])]),
    Word(["DBCC"]), Word(["WAITFOR"]), Phrase([Among(["BACKUP"]), Among(["DATABASE", "LOG", "CERTIFICATE"])]),
    Word(["RESTORE"]), Word(["MSDB"]), Infix("SP_", "JOB"), Infix("SP_", "SCHEDULE"), Word(["SP_ADD_OPERATOR"])]

  const WRITE_PROCEDURES: seq<Pattern> := [
    Word(["SP_EXECUTESQL"]), Before(["EXEC", "EXECUTE"], '('), Stem("XP_"), Stem("SP_OA"), Stem("SP_ADDLINKED"),
    Word(["OPENROWSET"]), Word(["OPENDATASOURCE"]), Word(["OPENQUERY"]), After(';', FORBIDDEN_STATEMENTS)]

  const WRITE_TABLE: seq<Pattern> := WRITE_CHANGES + (WRITE_SERVER + WRITE_PROCEDURES)

  const FORBIDDEN_STATEMENTS := ["CREATE", "ALTER", "DROP", "GRANT", "REVOKE", "DENY", "BACKUP", "RESTORE",
                                 "SHUTDOWN", "DBCC", "TRUNCATE", "RECONFIGURE"]

  const SET_ROWCOUNT: seq<Part> := [Among(["SET"]), Among(["ROWCOUNT"])]
  const READ_STARTS := ["SELECT", "WITH", "DECLARE"]
  const WRITE_STARTS := ["SELECT", "WITH", "DECLARE", "INSERT", "UPDATE", "DELETE", "MERGE", "EXEC", "EXECUTE"]

  datatype Verdict = Accepted | TooLong | BareReturn | BadStart | Blocked(entry: nat) | Unbounded

  /** A carriage return that is not part of CRLF. */
  predicate HasBareReturn(q: string) {
    exists i :: 0 <= i < |q| && q[i] == '\r' && (i + 1 == |q| || q[i + 1] != '\n')
  }

  /** The first table entry, from `k` on, that matches. */
  function FirstMatch(table: seq<Pattern>, k: nat, t: string): (r: Option<nat>)
    requires k <= |table|
    ensures r.Some? ==> k <= r.value < |table| && Matches(table[r.value], t)
    ensures forall j :: k <= j < (if r.Some? then r.value else |table|) ==> !Matches(table[j], t)
    decreases |table| - k
  {
    if k == |table| then None
    else if Matches(table[k], t) then Some(k)
    else FirstMatch(table, k + 1, t)
  }

  /** The part common to both guards; `unbounded` is the verdict's last test. */
  function Judge(table: seq<Pattern>, starts: seq<string>, unbounded: string -> bool, query: string): Verdict {
    if |query| > MAX_QUERY_LENGTH then TooLong
    else if HasBareReturn(query) then BareReturn
    else
      var cleaned := Trim(Strip(query));
      if !PhraseAt(cleaned, 0, [Among(starts)]) then BadStart
      else match FirstMatch(table, 0, cleaned)
        case Some(k) => Blocked(k)
        case None => if unbounded(cleaned) then Unbounded else Accepted
  }

  predicate Says(t: string, word: string) {
    HasWord(t, IsOneOf([word]))
  }

  /** `\b`: a word character on exactly one side. */
  predicate Boundary(t: string, i: nat)
    requires i <= |t|
  {
    (i > 0 && IsWordChar(t[i - 1])) != (i < |t| && IsWordChar(t[i]))
  }

  /** One of the configured names, which need not be words, between two boundaries. */
  predicate Mentions(t: string, names: seq<string>) {
    exists k, i :: 0 <= k < |names| && 0 <= i <= |t| && MentionedAt(t, i, names[k])
  }

  predicate MentionedAt(t: string, i: nat, name: string) {
    && name != "" && i + |name| <= |t| && SameWord(t[i..i + |name|], name)
    && Boundary(t, i) && Boundary(t, i + |name|)
  }

  /** A large table scanned without a bound, unless the caller opted in. */
  function UnboundedRead(allowLargeScan: bool, sensitive: seq<string>): string -> bool {
    t => !allowLargeScan && Mentions(t, sensitive) && !Says(t, "WHERE") && !Says(t, "TOP") && !Says(t, "OFFSET")
  }

  /** What a name of a table is spelled with. */
  predicate TargetChar(c: char) {
    IsWordChar(c) || c == '.' || c == '[' || c == ']'
  }

  /** `\bUPDATE\s+[\w.\[\]]+\s+SET\b` */
  predicate UpdateAt(t: string, i: nat, a: nat, b: nat, c: nat) {
    && i + 6 < a < b < c && c + 3 <= |t|
    && WordAt(t, i, 6) && SameWord(t[i..i + 6], "UPDATE") && Blank(t[i + 6..a])
    && (forall m :: a <= m < b ==> TargetChar(t[m])) && Blank(t[b..c])
    && WordAt(t, c, 3) && SameWord(t[c..c + 3], "SET")
  }

  /** `\bDELETE\s+(FROM\s+)?[\w.\[\]]+` */
  predicate DeleteAt(t: string, i: nat, a: nat) {
    && i + 6 < a < |t| && WordAt(t, i, 6) && SameWord(t[i..i + 6], "DELETE") && Blank(t[i + 6..a]) && TargetChar(t[a])
  }

  predicate ChangesTable(t: string) {
    || (exists i, a, b, c :: 0 <= i < |t| && 0 <= a < |t| && 0 <= b < |t| && 0 <= c < |t| && UpdateAt(t, i, a, b, c))
    || (exists i, a :: 0 <= i < |t| && 0 <= a < |t| && DeleteAt(t, i, a))
  }

  /** An UPDATE or DELETE without a WHERE, unless the caller opted in. */
  function UnboundedWrite(allowUnfiltered: bool): string -> bool {
    t => !allowUnfiltered && ChangesTable(t) && !Says(t, "WHERE")
  }

  /** `sensitive` is the configured list of tables. */
  function ValidateQuery(query: string, allowLargeScan: bool, sensitive: seq<string>): Verdict {
    Judge(READ_TABLE, READ_STARTS, UnboundedRead(allowLargeScan, sensitive), query)
  }

  function ValidateWriteQuery(query: string, allowUnfiltered: bool): Verdict {
    Judge(WRITE_TABLE, WRITE_STARTS, UnboundedWrite(allowUnfiltered), query)
  }

  /** An accepted batch matches no entry of its table. */
  lemma AcceptedMatchesNone(table: seq<Pattern>, starts: seq<string>, unbounded: string -> bool, query: string, k: nat)
    requires Judge(table, starts, unbounded, query) == Accepted && k < |table|
    ensures !Matches(table[k], Trim(Strip(query)))
  {
    hide Matches, PhraseAt, HasBareReturn, Trim, Strip;
  }

  lemma ReadMatchesNone(query: string, allowLargeScan: bool, sensitive: seq<string>, k: nat)
    requires ValidateQuery(query, allowLargeScan, sensitive) == Accepted && k < |READ_TABLE|
    ensures !Matches(READ_TABLE[k], Trim(Strip(query)))
  {
    AcceptedMatchesNone(READ_TABLE, READ_STARTS, UnboundedRead(allowLargeScan, sensitive), query, k);
  }

  lemma RowCountEntry()
    ensures |READ_TABLE| == 36 && READ_TABLE[22] == Phrase(SET_ROWCOUNT)
  {
    assert |READ_CHANGES| == 10 && |READ_SERVER| == 13 && READ_SERVER[12] == Phrase(SET_ROWCOUNT);
  }

  /** An accepted batch has no SET ROWCOUNT left once its noise is stripped. */
  lemma AcceptedHasNoRowCount(query: string, allowLargeScan: bool, sensitive: seq<string>)
    requires ValidateQuery(query, allowLargeScan, sensitive) == Accepted
    ensures !HasPhrase(Trim(Strip(query)), SET_ROWCOUNT)
  {
    RowCountEntry();
    hide PhraseAt, Judge, Strip, Trim;
    ReadMatchesNone(query, allowLargeScan, sensitive, 22);
  }

  // ── From tokens to pieces ──

  function PieceOf(t: Token): Piece {
    match t
    case Code(c) => Ch(c)
    case Delimited(text) => Name(text)
    case Literal(_) => Value(Render(t))
    case LineComment(_) => Comment(Render(t))
    case BlockComment(_) => Comment(Render(t))
  }

  function Pieces(ts: seq<Token>): seq<Piece> {
    if ts == [] then [] else [PieceOf(ts[0])] + Pieces(ts[1..])
  }

  /** The code, the names and the noise of a batch. */
  function Regions(q: string): seq<Piece> {
    Pieces(Lex(q))
  }

  lemma {:induction false} PiecesAreProper(ts: seq<Token>)
    requires WellLexed(ts)
    ensures Proper(Pieces(ts)) && Flat(Pieces(ts)) == Renders(ts) && |Pieces(ts)| == |ts|
  {
    if ts != [] {
      PiecesAreProper(ts[1..]);
      var ps, rest := Pieces(ts), Pieces(ts[1..]);
      assert ps[0] == PieceOf(ts[0]) && ps[1..] == rest;
      FirstPieceProper(ts);
      forall k | 0 <= k < |ps| ensures ProperPiece(ps[k], k + 1 == |ps|) {
        if k > 0 { assert ps[k] == rest[k - 1] && ProperPiece(rest[k - 1], k == |rest|); }
      }
    }
  }

  lemma {:induction false} FirstPieceProper(ts: seq<Token>)
    requires WellLexed(ts) && ts != []
    ensures ProperPiece(PieceOf(ts[0]), |ts| == 1) && TextOf(PieceOf(ts[0])) == Render(ts[0])
  {
    var t := ts[0];
    match t
    case Delimited(_) => NameIsProper(ts);
    case _ =>
  }

  lemma {:induction false} NameIsProper(ts: seq<Token>)
    requires WellLexed(ts) && ts != [] && ts[0].Delimited?
    ensures ProperPiece(Name(ts[0].text), |ts| == 1)
  {
    var t, rest := ts[0], Sources(ts[1..]);
    NameOpens(t);
    if |ts| > 1 {
      assert Single(ts[1]) && rest != "";
      hide Delimits;
      NameShuts(t, rest);
    }
  }

  lemma NameOpens(t: Token)
    requires Single(t) && t.Delimited?
    ensures t.text != "" && Delimits(t.text[0]) && (t.text[0] == '[' || t.text[0] == '"')
    ensures ClosingLen(t.text[1..], CloseOf(t.text[0])) == |t.text| - 1
  {
  }

  lemma NameShuts(t: Token, rest: string)
    requires Single(t) && t.Delimited? && Seals(t, rest) && rest != ""
    ensures t.text != "" && Delimits(t.text[|t.text| - 1])
  {
    NameOpens(t);
    ClosesAtEnd(t.text[1..], CloseOf(t.text[0]));
  }

  lemma RegionsAreProper(query: string)
    ensures Proper(Regions(query)) && Flat(Regions(query)) == Strip(query)
  {
    LexCovers(query);
    PiecesAreProper(Lex(query));
  }

  // ── What a verdict means ──

  /** A word-shaped entry matches iff such a word is in the code or in a delimited name. */
  lemma MatchesExactly(p: Pattern, query: string)
    requires SingleWord(p)
    ensures Matches(p, Trim(Strip(query)))
       <==> CodeHasWord(Regions(query), WordTest(p)) || NameHasWord(Regions(query), WordTest(p))
  {
    RegionsAreProper(query);
    TrimInvisible(Strip(query), WordTest(p));
    WordsSurviveExactly(Regions(query), WordTest(p));
  }

  /** A phrase entry matches iff its words are in the code, one behind the other, or in one delimited name. */
  lemma PhraseMatchesExactly(words: seq<Part>, query: string)
    requires words != []
    ensures Matches(Phrase(words), Trim(Strip(query)))
       <==> HasCodePhrase(Regions(query), words) || NameHasPhrase(Regions(query), words)
  {
    RegionsAreProper(query);
    TrimInvisibleToPhrases(Strip(query), words);
    PhrasesSurviveExactly(Regions(query), words);
  }

  /** The kinds of entry that match exactly what is in code or in one delimited name: all but the one with a gap. */
  predicate Exact(p: Pattern) {
    SingleWord(p) || (p.Phrase? && p.words != []) || ((p.After? || p.Before?) && Neutral(p.mark))
  }

  predicate InName(p: Pattern, ps: seq<Piece>)
    requires Exact(p)
  {
    match p
    case Phrase(words) => NameHasPhrase(ps, words)
    case After(mark, alts) => NameHasAfter(ps, mark, alts)
    case Before(alts, mark) => NameHasBefore(ps, alts, mark)
    case _ => NameHasWord(ps, WordTest(p))
  }

  lemma EntryMatchesExactly(p: Pattern, query: string)
    requires Exact(p)
    ensures Matches(p, Trim(Strip(query))) <==> CodeMatches(p, Regions(query)) || InName(p, Regions(query))
  {
    match p
    case Phrase(words) => PhraseMatchesExactly(words, query);
    case After(mark, alts) =>
      RegionsAreProper(query);
      TrimInvisibleAfter(Strip(query), mark, alts);
      AfterSurvivesExactly(Regions(query), mark, alts);
    case Before(alts, mark) =>
      RegionsAreProper(query);
      TrimInvisibleBefore(Strip(query), alts, mark);
      BeforeSurvivesExactly(Regions(query), alts, mark);
    case _ => MatchesExactly(p, query);
  }

  /** No hiding: an accepted batch has nothing in code that an entry of the table blocks, whatever its kind. */
  lemma AcceptedHidesNothing(table: seq<Pattern>, starts: seq<string>, unbounded: string -> bool, query: string, k: nat)
    requires k < |table| && Sensible(table[k]) && Judge(table, starts, unbounded, query) == Accepted
    ensures !CodeMatches(table[k], Regions(query))
    ensures Exact(table[k]) ==> !InName(table[k], Regions(query))
  {
    AcceptedMatchesNone(table, starts, unbounded, query, k);
    RegionsAreProper(query);
    hide Judge, CodeMatches, Matches, InName, Strip, Trim, Regions;
    if CodeMatches(table[k], Regions(query)) { CodeShows(table[k], Regions(query)); }
    if Exact(table[k]) { EntryMatchesExactly(table[k], query); }
  }

  /** No false alarm: an entry without a gap refuses only what is really in code, or in one delimited name. */
  lemma RefusalIsReal(table: seq<Pattern>, starts: seq<string>, unbounded: string -> bool, query: string, k: nat)
    requires k < |table| && Exact(table[k]) && Judge(table, starts, unbounded, query) == Blocked(k)
    ensures CodeMatches(table[k], Regions(query)) || InName(table[k], Regions(query))
  {
    EntryMatchesExactly(table[k], query);
    hide CodeMatches, InName, Regions, Strip, Trim, Matches, PhraseAt, HasBareReturn;
  }

  /** What both guards promise: of what the entries of their tables name, an accepted batch has nothing in code. */
  predicate HidesNothing(table: seq<Pattern>, query: string) {
    forall k :: 0 <= k < |table| ==> !CodeMatches(table[k], Regions(query))
  }

  lemma PartsAreSensible(k: nat)
    ensures k < |READ_CHANGES| ==> Sensible(READ_CHANGES[k])
    ensures k < |READ_SERVER| ==> Sensible(READ_SERVER[k])
    ensures k < |READ_PROCEDURES| ==> Sensible(READ_PROCEDURES[k])
    ensures k < |WRITE_CHANGES| ==> Sensible(WRITE_CHANGES[k])
    ensures k < |WRITE_SERVER| ==> Sensible(WRITE_SERVER[k])
    ensures k < |WRITE_PROCEDURES| ==> Sensible(WRITE_PROCEDURES[k])
  {
  }

  lemma JoinedSensible(a: seq<Pattern>, b: seq<Pattern>, c: seq<Pattern>, k: nat)
    requires forall i :: 0 <= i < |a| ==> Sensible(a[i])
    requires forall i :: 0 <= i < |b| ==> Sensible(b[i])
    requires forall i :: 0 <= i < |c| ==> Sensible(c[i])
    ensures k < |a + (b + c)| ==> Sensible((a + (b + c))[k])
  {
    hide Sensible;
  }

  lemma TablesAreSensible(k: nat)
    ensures k < |READ_TABLE| ==> Sensible(READ_TABLE[k])
    ensures k < |WRITE_TABLE| ==> Sensible(WRITE_TABLE[k])
  {
    forall i: nat
      ensures i < |READ_CHANGES| ==> Sensible(READ_CHANGES[i])
      ensures i < |READ_SERVER| ==> Sensible(READ_SERVER[i])
      ensures i < |READ_PROCEDURES| ==> Sensible(READ_PROCEDURES[i])
      ensures i < |WRITE_CHANGES| ==> Sensible(WRITE_CHANGES[i])
      ensures i < |WRITE_SERVER| ==> Sensible(WRITE_SERVER[i])
      ensures i < |WRITE_PROCEDURES| ==> Sensible(WRITE_PROCEDURES[i])
    {
      PartsAreSensible(i);
    }
    hide Sensible;
    JoinedSensible(READ_CHANGES, READ_SERVER, READ_PROCEDURES, k);
    JoinedSensible(WRITE_CHANGES, WRITE_SERVER, WRITE_PROCEDURES, k);
  }

  lemma GuardsHideNothing(query: string, optIn: bool, sensitive: seq<string>)
    ensures ValidateQuery(query, optIn, sensitive) == Accepted ==> HidesNothing(READ_TABLE, query)
    ensures ValidateWriteQuery(query, optIn) == Accepted ==> HidesNothing(WRITE_TABLE, query)
  {
    hide Judge, CodeMatches, Regions;
    if ValidateQuery(query, optIn, sensitive) == Accepted {
      forall k | 0 <= k < |READ_TABLE| ensures !CodeMatches(READ_TABLE[k], Regions(query)) {
        TablesAreSensible(k);
        AcceptedHidesNothing(READ_TABLE, READ_STARTS, UnboundedRead(optIn, sensitive), query, k);
      }
    }
    if ValidateWriteQuery(query, optIn) == Accepted {
      forall k | 0 <= k < |WRITE_TABLE| ensures !CodeMatches(WRITE_TABLE[k], Regions(query)) {
        TablesAreSensible(k);
        AcceptedHidesNothing(WRITE_TABLE, WRITE_STARTS, UnboundedWrite(optIn), query, k);
      }
    }
  }

  predicate IntoTemp(t: string, i: nat, n: nat, j: nat, m: nat, q: nat) {
    && i + n <= j && j + m < q < |t| && WordAt(t, i, n) && SameWord(t[i..i + n], "SELECT")
    && WordAt(t, j, m) && SameWord(t[j..j + m], "INTO") && Blank(t[j + m..q]) && (t[q] == '#' || t[q] == '@')
  }

  /**
   * A SELECT ... INTO a temporary table is let through by the entry that is about it exactly when one single blank
   * stands in front of the table: with two, the second blank is a character that is none of the excepted ones.
   */
  lemma TempTableExactly(t: string, i: nat, n: nat, j: nat, m: nat, q: nat)
    requires IntoTemp(t, i, n, j, m, q)
    ensures (exists e :: ApartAt(t, i, n, j, m, e, SELECT_INTO)) <==> q > j + m + 1
  {
    assert SELECT_INTO.except[0] == '@' && SELECT_INTO.except[1] == '#';
    if q > j + m + 1 {
      var gap := t[j + m..q];
      assert IsSpace(gap[0]) && IsSpace(gap[1]) && gap[0] == t[j + m] && gap[1] == t[j + m + 1];
      assert Blank(t[j + m..j + m + 1]);
      assert ApartAt(t, i, n, j, m, j + m + 1, SELECT_INTO);
    } else {
      forall e ensures !ApartAt(t, i, n, j, m, e, SELECT_INTO) { OnlyOneBlank(t, j + m, q, e); }
    }
  }

  lemma OnlyOneBlank(t: string, x: nat, q: nat, e: nat)
    requires q == x + 1 && q < |t| && !IsSpace(t[q])
    ensures x < e <= |t| && Blank(t[x..e]) ==> e == q
  {
    if x + 1 < e <= |t| { assert t[x..e][1] == t[q]; }
  }

  /** A verdict depends only on whether the length and the line ends pass, and on the stripped text. */
  lemma VerdictDependsOn(table: seq<Pattern>, starts: seq<string>, unbounded: string -> bool, a: string, b: string)
    requires Strip(a) == Strip(b) && HasBareReturn(a) == HasBareReturn(b)
    requires |a| > MAX_QUERY_LENGTH <==> |b| > MAX_QUERY_LENGTH
    ensures Judge(table, starts, unbounded, a) == Judge(table, starts, unbounded, b)
  {
    hide Strip, HasBareReturn, PhraseAt, Matches, Trim;
  }

  /** Neither guard can be moved by what a literal contains, as long as length and line ends pass. */
  lemma LiteralCannotMoveVerdict(table: seq<Pattern>, starts: seq<string>, unbounded: string -> bool,
                                 p: string, x: string, y: string, s: string)
    requires Seam(p, "'") && (s == "" || s[0] != '\'')
    requires |p + (Quoted(x) + s)| <= MAX_QUERY_LENGTH && |p + (Quoted(y) + s)| <= MAX_QUERY_LENGTH
    requires !HasBareReturn(p + (Quoted(x) + s)) && !HasBareReturn(p + (Quoted(y) + s))
    ensures Judge(table, starts, unbounded, p + (Quoted(x) + s)) == Judge(table, starts, unbounded, p + (Quoted(y) + s))
  {
    LiteralContentVanishes(p, x, s);
    LiteralContentVanishes(p, y, s);
    VerdictDependsOn(table, starts, unbounded, p + (Quoted(x) + s), p + (Quoted(y) + s));
  }
}
