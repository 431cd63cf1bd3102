/**
 * What the two guards never let through, and all they refuse a batch for, spelled out: the words and phrases of their
 * tables, wherever in code or in a delimited name they stand, and the beginnings of words without which none matches.
 */
module Forbidden {
  import opened Text
  import opened Lexer
  import opened Words
  import opened Patterns
  import opened PhraseOrigins
  import opened Guards
  import opened Verdicts

  /** None of the words is in the code or in a delimited name. */
  predicate NoneSaid(ps: seq<Piece>, words: seq<string>) {
    forall k :: 0 <= k < |words| ==> !SaysSomewhere(ps, words[k])
  }

  /** The code has nothing of the kind, and, but for the entry with a gap, no delimited name has. */
  predicate Absent(ps: seq<Piece>, p: Pattern) {
    !CodeMatches(p, ps) && (Exact(p) ==> !InName(p, ps))
  }

  lemma ReadRefuses(query: string, optIn: bool, sensitive: seq<string>, p: Pattern)
    requires ValidateQuery(query, optIn, sensitive) == Accepted
    requires p in READ_CHANGES || p in READ_SERVER || p in READ_PROCEDURES
    ensures Absent(Regions(query), p)
  {
    hide READ_CHANGES, READ_SERVER, READ_PROCEDURES, Judge, CodeMatches, Regions, InName;
    assert p in READ_TABLE;
    var k :| 0 <= k < |READ_TABLE| && READ_TABLE[k] == p;
    TablesAreSensible(k);
    AcceptedHidesNothing(READ_TABLE, READ_STARTS, UnboundedRead(optIn, sensitive), query, k);
  }

  lemma WriteRefuses(query: string, optIn: bool, p: Pattern)
    requires ValidateWriteQuery(query, optIn) == Accepted
    requires p in WRITE_CHANGES || p in WRITE_SERVER || p in WRITE_PROCEDURES
    ensures Absent(Regions(query), p)
  {
    hide WRITE_CHANGES, WRITE_SERVER, WRITE_PROCEDURES, Judge, CodeMatches, Regions, InName;
    assert p in WRITE_TABLE;
    var k :| 0 <= k < |WRITE_TABLE| && WRITE_TABLE[k] == p;
    TablesAreSensible(k);
    AcceptedHidesNothing(WRITE_TABLE, WRITE_STARTS, UnboundedWrite(optIn), query, k);
  }

  lemma WordsAreAbsent(ps: seq<Piece>, alts: seq<string>)
    requires Absent(ps, Word(alts))
    ensures NoneSaid(ps, alts)
  {
    forall k | 0 <= k < |alts| ensures !SaysSomewhere(ps, alts[k]) {
      CodeSaysWord(ps, alts[k]);
      OneOfMany(ps, alts, k);
    }
  }

  lemma OneOfMany(ps: seq<Piece>, alts: seq<string>, k: nat)
    requires k < |alts|
    ensures CodeHasWord(ps, IsOneOf([alts[k]])) ==> CodeHasWord(ps, IsOneOf(alts))
    ensures NameHasWord(ps, IsOneOf([alts[k]])) ==> NameHasWord(ps, IsOneOf(alts))
  {
    forall w: string ensures OneOf(w, [alts[k]]) ==> OneOf(w, alts) { OneIsSame(w, alts[k]); }
    hide OneOf, CodeWordAt, WordAt;
  }

  /** The words a query the read guard accepts has nowhere, in code or in a delimited name. */
  lemma ReadNeverSays(query: string, optIn: bool, sensitive: seq<string>)
    requires ValidateQuery(query, optIn, sensitive) == Accepted
    ensures var ps := Regions(query);
            && NoneSaid(ps, ["INSERT"]) && NoneSaid(ps, ["CREATE", "ALTER", "DROP"])
            && NoneSaid(ps, ["GRANT", "REVOKE", "DENY"]) && NoneSaid(ps, ["RECONFIGURE"])
            && NoneSaid(ps, ["SP_CONFIGURE"]) && NoneSaid(ps, ["SHUTDOWN"]) && NoneSaid(ps, ["KILL"])
            && NoneSaid(ps, ["CHECKPOINT"]) && NoneSaid(ps, ["RAISERROR"])
  {
    hide Absent, NoneSaid, ValidateQuery;
    ReadHasNo(query, optIn, sensitive, ["INSERT"]);
    ReadHasNo(query, optIn, sensitive, ["CREATE", "ALTER", "DROP"]);
    ReadHasNo(query, optIn, sensitive, ["GRANT", "REVOKE", "DENY"]);
    ReadHasNo(query, optIn, sensitive, ["RECONFIGURE"]);
    ReadHasNo(query, optIn, sensitive, ["SP_CONFIGURE"]);
    ReadHasNo(query, optIn, sensitive, ["SHUTDOWN"]);
    ReadHasNo(query, optIn, sensitive, ["KILL"]);
    ReadHasNo(query, optIn, sensitive, ["CHECKPOINT"]);
    ReadHasNo(query, optIn, sensitive, ["RAISERROR"]);
  }

  lemma ReadHasNo(query: string, optIn: bool, sensitive: seq<string>, alts: seq<string>)
    requires ValidateQuery(query, optIn, sensitive) == Accepted
    requires Word(alts) in READ_CHANGES || Word(alts) in READ_SERVER || Word(alts) in READ_PROCEDURES
    ensures NoneSaid(Regions(query), alts)
  {
    hide READ_CHANGES, READ_SERVER, READ_PROCEDURES, Absent, NoneSaid, ValidateQuery, Regions;
    ReadRefuses(query, optIn, sensitive, Word(alts));
    WordsAreAbsent(Regions(query), alts);
  }

  /** And the words that would run something. */
  lemma ReadNeverRuns(query: string, optIn: bool, sensitive: seq<string>)
    requires ValidateQuery(query, optIn, sensitive) == Accepted
    ensures var ps := Regions(query);
            && NoneSaid(ps, ["EXEC", "EXECUTE"]) && NoneSaid(ps, ["SP_EXECUTESQL"]) && NoneSaid(ps, ["DBCC"])
            && NoneSaid(ps, ["WAITFOR"]) && NoneSaid(ps, ["RESTORE"]) && NoneSaid(ps, ["OPENROWSET"])
            && NoneSaid(ps, ["OPENDATASOURCE"]) && NoneSaid(ps, ["OPENQUERY"]) && NoneSaid(ps, ["XP_CMDSHELL"])
            && Absent(ps, Stem("XP_")) && Absent(ps, Stem("SP_OA")) && Absent(ps, Stem("SP_ADD"))
  {
    hide Absent, NoneSaid, ValidateQuery;
    ReadHasNo(query, optIn, sensitive, ["EXEC", "EXECUTE"]);
    ReadHasNo(query, optIn, sensitive, ["SP_EXECUTESQL"]);
    ReadHasNo(query, optIn, sensitive, ["DBCC"]);
    ReadHasNo(query, optIn, sensitive, ["WAITFOR"]);
    ReadHasNo(query, optIn, sensitive, ["RESTORE"]);
    ReadHasNo(query, optIn, sensitive, ["OPENROWSET"]);
    ReadHasNo(query, optIn, sensitive, ["OPENDATASOURCE"]);
    ReadHasNo(query, optIn, sensitive, ["OPENQUERY"]);
    ReadHasNo(query, optIn, sensitive, ["XP_CMDSHELL"]);
    ReadRefuses(query, optIn, sensitive, Stem("XP_"));
    ReadRefuses(query, optIn, sensitive, Stem("SP_OA"));
    ReadRefuses(query, optIn, sensitive, Stem("SP_ADD"));
  }

  /** And the phrases it has nowhere, however many blanks and comments stand between their words. */
  lemma ReadNeverChanges(query: string, optIn: bool, sensitive: seq<string>)
    requires ValidateQuery(query, optIn, sensitive) == Accepted
    ensures var ps := Regions(query);
            && Absent(ps, Phrase([Among(["UPDATE"]), AnyWord])) && Absent(ps, Phrase([Among(["DELETE"]), AnyWord]))
            && Absent(ps, Phrase([Among(["MERGE"]), AnyWord]))
            && Absent(ps, Phrase([Among(["TRUNCATE"]), Among(["TABLE"])]))
            && Absent(ps, Phrase([Among(["BULK"]), Among(["INSERT"])]))
            && Absent(ps, Phrase([Among(["ALTER"]), Among(["ANY"])]))
            && Absent(ps, Apart("SELECT", "INTO", "@#"))
            && Absent(ps, After(';', ["EXEC", "EXECUTE", "INSERT", "UPDATE", "DELETE", "MERGE", "CREATE", "ALTER",
                                      "DROP",
                                      "GRANT", "REVOKE", "DENY", "BACKUP", "RESTORE", "TRUNCATE"]))
  {
    hide Absent, ValidateQuery;
    ReadRefuses(query, optIn, sensitive, Phrase([Among(["UPDATE"]), AnyWord]));
    ReadRefuses(query, optIn, sensitive, Phrase([Among(["DELETE"]), AnyWord]));
    ReadRefuses(query, optIn, sensitive, Phrase([Among(["MERGE"]), AnyWord]));
    ReadRefuses(query, optIn, sensitive, Phrase([Among(["TRUNCATE"]), Among(["TABLE"])]));
    ReadRefuses(query, optIn, sensitive, Phrase([Among(["BULK"]), Among(["INSERT"])]));
    ReadRefuses(query, optIn, sensitive, Phrase([Among(["ALTER"]), Among(["ANY"])]));
    ReadRefuses(query, optIn, sensitive, Apart("SELECT", "INTO", "@#"));
    ReadRefuses(query, optIn, sensitive,
                After(';', ["EXEC", "EXECUTE", "INSERT", "UPDATE", "DELETE", "MERGE", "CREATE", "ALTER", "DROP",
                            "GRANT", "REVOKE", "DENY", "BACKUP", "RESTORE", "TRUNCATE"]));
  }

  lemma ReadNeverControls(query: string, optIn: bool, sensitive: seq<string>)
    requires ValidateQuery(query, optIn, sensitive) == Accepted
    ensures var ps := Regions(query);
            && Absent(ps, Phrase([Among(["BACKUP"]), Among(["DATABASE", "LOG", "CERTIFICATE"])]))
            && Absent(ps, Phrase([Among(["RESTORE"]),
                                  Among(["DATABASE", "LOG", "VERIFYONLY", "HEADERONLY", "FILELISTONLY"])]))
            && Absent(ps, Phrase([Among(["BEGIN", "COMMIT", "ROLLBACK"]), Among(["TRAN", "TRANSACTION"])]))
            && Absent(ps, Phrase([Among(["SEND"]), Among(["ON"]), Among(["CONVERSATION"])]))
            && Absent(ps, Phrase([Among(["BEGIN"]), Among(["DIALOG"])]))
            && Absent(ps, Phrase([Among(["SET"]), Among(["CONTEXT_INFO"])]))
            && Absent(ps, Phrase([Among(["SET"]), Among(["ROWCOUNT"])]))
  {
    hide Absent, ValidateQuery;
    ReadRefuses(query, optIn, sensitive, Phrase([Among(["BACKUP"]), Among(["DATABASE", "LOG", "CERTIFICATE"])]));
    ReadRefuses(query, optIn, sensitive,
                Phrase([Among(["RESTORE"]), Among(["DATABASE", "LOG", "VERIFYONLY", "HEADERONLY", "FILELISTONLY"])]));
    ReadRefuses(query, optIn, sensitive,
                Phrase([Among(["BEGIN", "COMMIT", "ROLLBACK"]), Among(["TRAN", "TRANSACTION"])]));
    ReadRefuses(query, optIn, sensitive, Phrase([Among(["SEND"]), Among(["ON"]), Among(["CONVERSATION"])]));
    ReadRefuses(query, optIn, sensitive, Phrase([Among(["BEGIN"]), Among(["DIALOG"])]));
    ReadRefuses(query, optIn, sensitive, Phrase([Among(["SET"]), Among(["CONTEXT_INFO"])]));
    ReadRefuses(query, optIn, sensitive, Phrase([Among(["SET"]), Among(["ROWCOUNT"])]));
  }

  lemma WriteHasNo(query: string, optIn: bool, alts: seq<string>)
    requires ValidateWriteQuery(query, optIn) == Accepted
    requires Word(alts) in WRITE_CHANGES || Word(alts) in WRITE_SERVER || Word(alts) in WRITE_PROCEDURES
    ensures NoneSaid(Regions(query), alts)
  {
    hide WRITE_CHANGES, WRITE_SERVER, WRITE_PROCEDURES, Absent, NoneSaid, ValidateWriteQuery, Regions;
    WriteRefuses(query, optIn, Word(alts));
    WordsAreAbsent(Regions(query), alts);
  }

  /** The words a batch the write guard accepts has nowhere. */
  lemma WriteNeverSays(query: string, optIn: bool)
    requires ValidateWriteQuery(query, optIn) == Accepted
    ensures var ps := Regions(query);
            && NoneSaid(ps, ["CREATE", "ALTER", "DROP"]) && NoneSaid(ps, ["GRANT", "REVOKE", "DENY"])
            && NoneSaid(ps, ["SP_ADDROLEMEMBER", "SP_DROPROLEMEMBER", "SP_ADDSRVROLEMEMBER", "SP_DROPSRVROLEMEMBER"])
            && NoneSaid(ps, ["SP_ADDROLE", "SP_DROPROLE"]) && NoneSaid(ps, ["SP_ADDLOGIN", "SP_DROPLOGIN"])
            && NoneSaid(ps, ["SP_PASSWORD"]) && NoneSaid(ps, ["RECONFIGURE"]) && NoneSaid(ps, ["SP_CONFIGURE"])
            && NoneSaid(ps, ["SHUTDOWN"])
  {
    hide Absent, NoneSaid, ValidateWriteQuery;
    WriteHasNo(query, optIn, ["CREATE", "ALTER", "DROP"]);
    WriteHasNo(query, optIn, ["GRANT", "REVOKE", "DENY"]);
    WriteHasNo(query, optIn, ["SP_ADDROLEMEMBER", "SP_DROPROLEMEMBER", "SP_ADDSRVROLEMEMBER", "SP_DROPSRVROLEMEMBER"]);
    WriteHasNo(query, optIn, ["SP_ADDROLE", "SP_DROPROLE"]);
    WriteHasNo(query, optIn, ["SP_ADDLOGIN", "SP_DROPLOGIN"]);
    WriteHasNo(query, optIn, ["SP_PASSWORD"]);
    WriteHasNo(query, optIn, ["RECONFIGURE"]);
    WriteHasNo(query, optIn, ["SP_CONFIGURE"]);
    WriteHasNo(query, optIn, ["SHUTDOWN"]);
  }

  lemma WriteNeverRuns(query: string, optIn: bool)
    requires ValidateWriteQuery(query, optIn) == Accepted
    ensures var ps := Regions(query);
            && NoneSaid(ps, ["DBCC"]) && NoneSaid(ps, ["WAITFOR"]) && NoneSaid(ps, ["RESTORE"])
            && NoneSaid(ps, ["MSDB"]) && NoneSaid(ps, ["SP_ADD_OPERATOR"]) && NoneSaid(ps, ["SP_EXECUTESQL"])
            && NoneSaid(ps, ["OPENROWSET"]) && NoneSaid(ps, ["OPENDATASOURCE"]) && NoneSaid(ps, ["OPENQUERY"])
  {
    hide Absent, NoneSaid, ValidateWriteQuery;
    WriteHasNo(query, optIn, ["DBCC"]);
    WriteHasNo(query, optIn, ["WAITFOR"]);
    WriteHasNo(query, optIn, ["RESTORE"]);
    WriteHasNo(query, optIn, ["MSDB"]);
    WriteHasNo(query, optIn, ["SP_ADD_OPERATOR"]);
    WriteHasNo(query, optIn, ["SP_EXECUTESQL"]);
    WriteHasNo(query, optIn, ["OPENROWSET"]);
    WriteHasNo(query, optIn, ["OPENDATASOURCE"]);
    WriteHasNo(query, optIn, ["OPENQUERY"]);
  }

  /** And the kinds of word, phrase and second statement it has nowhere. */
  lemma WriteNeverChanges(query: string, optIn: bool)
    requires ValidateWriteQuery(query, optIn) == Accepted
    ensures var ps := Regions(query);
            && Absent(ps, Stem("XP_")) && Absent(ps, Stem("SP_OA")) && Absent(ps, Stem("SP_ADDLINKED"))
            && Absent(ps, Infix("SP_", "JOB")) && Absent(ps, Infix("SP_", "SCHEDULE"))
            && Absent(ps, Phrase([Among(["ALTER"]), Among(["ANY"])]))
            && Absent(ps, Phrase([Among(["TRUNCATE"]), Among(["TABLE"])]))
            && Absent(ps, Phrase([Among(["ADD"]), Among(["MEMBER"])]))
  {
    hide Absent, ValidateWriteQuery;
    WriteRefuses(query, optIn, Stem("XP_"));
    WriteRefuses(query, optIn, Stem("SP_OA"));
    WriteRefuses(query, optIn, Stem("SP_ADDLINKED"));
    WriteRefuses(query, optIn, Infix("SP_", "JOB"));
    WriteRefuses(query, optIn, Infix("SP_", "SCHEDULE"));
    WriteRefuses(query, optIn, Phrase([Among(["ALTER"]), Among(["ANY"])]));
    WriteRefuses(query, optIn, Phrase([Among(["TRUNCATE"]), Among(["TABLE"])]));
    WriteRefuses(query, optIn, Phrase([Among(["ADD"]), Among(["MEMBER"])]));
  }

  lemma WriteNeverControls(query: string, optIn: bool)
    requires ValidateWriteQuery(query, optIn) == Accepted
    ensures var ps := Regions(query);
            && Absent(ps, Phrase([Among(["KILL"]), Numeral(["UOW"])]))
            && Absent(ps, Phrase([Among(["BACKUP"]), Among(["DATABASE", "LOG", "CERTIFICATE"])]))
            && Absent(ps, Before(["EXEC", "EXECUTE"], '('))
            && Absent(ps, After(';', ["CREATE", "ALTER", "DROP", "GRANT", "REVOKE", "DENY", "BACKUP", "RESTORE",
                                      "SHUTDOWN", "DBCC", "TRUNCATE", "RECONFIGURE"]))
  {
    hide Absent, ValidateWriteQuery;
    WriteRefuses(query, optIn, Phrase([Among(["KILL"]), Numeral(["UOW"])]));
    WriteRefuses(query, optIn, Phrase([Among(["BACKUP"]), Among(["DATABASE", "LOG", "CERTIFICATE"])]));
    WriteRefuses(query, optIn, Before(["EXEC", "EXECUTE"], '('));
    WriteRefuses(query, optIn, After(';', ["CREATE", "ALTER", "DROP", "GRANT", "REVOKE", "DENY", "BACKUP", "RESTORE",
                                           "SHUTDOWN", "DBCC", "TRUNCATE", "RECONFIGURE"]));
  }

  // ── No false alarm ──

  function BeginsLike(h: string): string -> bool {
    w => |w| >= |h| && SameWord(w[..|h|], h)
  }

  /** What a word must begin with for the entry to match. */
  function Heads(p: Pattern): seq<string> {
    match p
    case Word(alts) => alts
    case Stem(stem) => [stem]
    case Infix(stem, _) => [stem]
    case Phrase(words) => if words != [] && words[0].Among? then words[0].alts else []
    case After(_, alts) => alts
    case Before(alts, _) => alts
    case Apart(_, second, _) => [second]
  }

  predicate HasHead(p: Pattern) {
    p.Phrase? ==> p.words != [] && p.words[0].Among?
  }

  /** Some word of the text begins with one of these. */
  predicate Alarms(t: string, heads: seq<string>) {
    exists k :: 0 <= k < |heads| && HasWord(t, BeginsLike(heads[k]))
  }

  lemma WordAlarms(t: string, i: nat, n: nat, alts: seq<string>)
    requires WordAt(t, i, n) && OneOf(t[i..i + n], alts)
    ensures Alarms(t, alts)
  {
    var w := t[i..i + n];
    var k :| 0 <= k < |alts| && SameWord(w, alts[k]);
    assert w[..|alts[k]|] == w;
    assert BeginsLike(alts[k])(w);
  }

  lemma StemAlarms(t: string, p: Pattern)
    requires (p.Stem? || p.Infix?) && Matches(p, t)
    ensures Alarms(t, [p.stem])
  {
    var i, n :| 0 <= i < |t| && 0 < n <= |t| - i && WordAt(t, i, n) && WordTest(p)(t[i..i + n]);
    hide WordAt, SameWord;
    assert BeginsLike(p.stem)(t[i..i + n]);
    assert [p.stem][0] == p.stem && HasWord(t, BeginsLike(p.stem));
  }

  lemma WordEntryAlarms(t: string, alts: seq<string>)
    requires HasWord(t, IsOneOf(alts))
    ensures Alarms(t, alts)
  {
    hide WordAt, OneOf, Alarms;
    var i, n :| 0 <= i < |t| && 0 < n <= |t| - i && WordAt(t, i, n) && IsOneOf(alts)(t[i..i + n]);
    WordAlarms(t, i, n, alts);
  }

  lemma PhraseAlarms(t: string, words: seq<Part>)
    requires words != [] && words[0].Among? && HasPhrase(t, words)
    ensures Alarms(t, words[0].alts)
  {
    hide PhraseAt, WordAt, OneOf, Alarms;
    var i :| 0 <= i < |t| && PhraseAt(t, i, words);
    var n, j := PhraseSplits(t, i, words);
    WordAlarms(t, i, n, words[0].alts);
  }

  lemma MarkAlarms(t: string, alts: seq<string>, mark: char)
    requires HasAfter(t, mark, alts) || HasBefore(t, alts, mark)
    ensures Alarms(t, alts)
  {
    hide WordAt, OneOf, Alarms, Blank;
    if HasAfter(t, mark, alts) {
      var i, j, n :| 0 <= i < |t| && 0 <= j < |t| && 0 < n <= |t| && AfterAt(t, i, j, n, mark, alts);
      WordAlarms(t, j, n, alts);
    } else {
      var i, n, j :| 0 <= i < |t| && 0 < n <= |t| && 0 <= j < |t| && BeforeAt(t, i, n, j, alts, mark);
      WordAlarms(t, i, n, alts);
    }
  }

  lemma ApartAlarms(t: string, p: Pattern)
    requires p.Apart? && HasApart(t, p)
    ensures Alarms(t, [p.second])
  {
    hide WordAt, SameWord, OneOf, Alarms, Blank;
    var n, m := |p.first|, |p.second|;
    var i, j, q :| 0 <= i < |t| && 0 <= j < |t| && 0 <= q < |t| && ApartAt(t, i, n, j, m, q, p);
    OneIsSame(t[j..j + m], p.second);
    WordAlarms(t, j, m, [p.second]);
  }

  lemma MatchAlarms(t: string, p: Pattern)
    requires HasHead(p) && Matches(p, t)
    ensures Alarms(t, Heads(p))
  {
    hide HasWord, HasPhrase, HasAfter, HasBefore, HasApart, Alarms;
    match p
    case Word(alts) => WordEntryAlarms(t, alts);
    case Phrase(words) => PhraseAlarms(t, words);
    case After(mark, alts) => MarkAlarms(t, alts, mark);
    case Before(alts, mark) => MarkAlarms(t, alts, mark);
    case Apart(_, _, _) => ApartAlarms(t, p);
    case _ => StemAlarms(t, p);
  }

  const READ_HEADS := ["INSERT", "UPDATE", "DELETE", "MERGE", "TRUNCATE", "INTO", "BULK", "CREATE", "ALTER", "DROP",
                       "GRANT", "REVOKE", "DENY", "BACKUP", "RESTORE", "RECONFIGURE", "SP_CONFIGURE", "SHUTDOWN",
                           "KILL",
                       "CHECKPOINT", "RAISERROR", "BEGIN", "COMMIT", "ROLLBACK", "SEND", "SET", "DBCC", "WAITFOR",
                           "XP_",
                       "XP_CMDSHELL", "SP_OA", "SP_ADD", "SP_EXECUTESQL", "OPENROWSET", "OPENDATASOURCE", "OPENQUERY",
                       "EXEC", "EXECUTE"]

  const WRITE_HEADS := ["CREATE", "ALTER", "DROP", "TRUNCATE", "GRANT", "REVOKE", "DENY", "SP_ADDROLEMEMBER",
                        "SP_DROPROLEMEMBER", "SP_ADDSRVROLEMEMBER", "SP_DROPSRVROLEMEMBER", "SP_ADDROLE", "SP_DROPROLE",
                        "SP_ADDLOGIN", "SP_DROPLOGIN", "SP_PASSWORD", "ADD", "RECONFIGURE", "SP_CONFIGURE", "SHUTDOWN",
                        "KILL", "DBCC", "WAITFOR", "BACKUP", "RESTORE", "MSDB", "SP_", "EXEC", "EXECUTE", "XP_",
                            "SP_OA",
                        "SP_ADDLINKED", "SP_ADD_OPERATOR", "SP_EXECUTESQL", "OPENROWSET", "OPENDATASOURCE", "OPENQUERY"]

  predicate HeadsAmong(p: Pattern, heads: seq<string>) {
    HasHead(p) && forall k :: 0 <= k < |Heads(p)| ==> Heads(p)[k] in heads
  }

  lemma ReadChangesHeads(k: nat)
    ensures k < |READ_CHANGES| ==> HeadsAmong(READ_CHANGES[k], READ_HEADS)
  {
  }

  lemma ReadServerHeads(k: nat)
    ensures k < |READ_SERVER| ==> HeadsAmong(READ_SERVER[k], READ_HEADS)
  {
  }

  lemma ReadProceduresHeads(k: nat)
    ensures k < |READ_PROCEDURES| ==> HeadsAmong(READ_PROCEDURES[k], READ_HEADS)
  {
  }

  lemma WriteChangesHeads(k: nat)
    ensures k < |WRITE_CHANGES| ==> HeadsAmong(WRITE_CHANGES[k], WRITE_HEADS)
  {
  }

  lemma WriteServerHeads(k: nat)
    ensures k < |WRITE_SERVER| ==> HeadsAmong(WRITE_SERVER[k], WRITE_HEADS)
  {
  }

  lemma WriteProceduresHeads(k: nat)
    ensures k < |WRITE_PROCEDURES| ==> HeadsAmong(WRITE_PROCEDURES[k], WRITE_HEADS)
  {
  }

  /** Some word, in code or in a delimited name, begins with one of these. */
  predicate AlarmIn(ps: seq<Piece>, heads: seq<string>) {
    exists k :: 0 <= k < |heads| && (CodeHasWord(ps, BeginsLike(heads[k])) || NameHasWord(ps, BeginsLike(heads[k])))
  }

  lemma AlarmHasOrigin(query: string, p: Pattern, heads: seq<string>)
    requires HeadsAmong(p, heads) && Matches(p, Trim(Strip(query)))
    ensures AlarmIn(Regions(query), heads)
  {
    var t, ps := Trim(Strip(query)), Regions(query);
    MatchAlarms(t, p);
    RegionsAreProper(query);
    hide Matches, CodeHasWord, NameHasWord, HasWord, Trim, Strip, Regions, Proper, BeginsLike;
    var k :| 0 <= k < |Heads(p)| && HasWord(t, BeginsLike(Heads(p)[k]));
    var h := Heads(p)[k];
    TrimInvisible(Strip(query), BeginsLike(h));
    WordsSurviveExactly(ps, BeginsLike(h));
    var j :| 0 <= j < |heads| && heads[j] == h;
  }

  lemma TableHeads(k: nat)
    ensures k < |READ_TABLE| ==> HeadsAmong(READ_TABLE[k], READ_HEADS)
    ensures k < |WRITE_TABLE| ==> HeadsAmong(WRITE_TABLE[k], WRITE_HEADS)
  {
    hide HeadsAmong;
    forall i: nat
      ensures i < |READ_CHANGES| ==> HeadsAmong(READ_CHANGES[i], READ_HEADS)
      ensures i < |READ_SERVER| ==> HeadsAmong(READ_SERVER[i], READ_HEADS)
      ensures i < |READ_PROCEDURES| ==> HeadsAmong(READ_PROCEDURES[i], READ_HEADS)
    {
      ReadChangesHeads(i);
      ReadServerHeads(i);
      ReadProceduresHeads(i);
    }
    forall i: nat
      ensures i < |WRITE_CHANGES| ==> HeadsAmong(WRITE_CHANGES[i], WRITE_HEADS)
      ensures i < |WRITE_SERVER| ==> HeadsAmong(WRITE_SERVER[i], WRITE_HEADS)
      ensures i < |WRITE_PROCEDURES| ==> HeadsAmong(WRITE_PROCEDURES[i], WRITE_HEADS)
    {
      WriteChangesHeads(i);
      WriteServerHeads(i);
      WriteProceduresHeads(i);
    }
    JoinedHeads(READ_CHANGES, READ_SERVER, READ_PROCEDURES, READ_HEADS, k);
    JoinedHeads(WRITE_CHANGES, WRITE_SERVER, WRITE_PROCEDURES, WRITE_HEADS, k);
  }

  lemma JoinedHeads(a: seq<Pattern>, b: seq<Pattern>, c: seq<Pattern>, heads: seq<string>, k: nat)
    requires forall i :: 0 <= i < |a| ==> HeadsAmong(a[i], heads)
    requires forall i :: 0 <= i < |b| ==> HeadsAmong(b[i], heads)
    requires forall i :: 0 <= i < |c| ==> HeadsAmong(c[i], heads)
    ensures k < |a + (b + c)| ==> HeadsAmong((a + (b + c))[k], heads)
  {
    hide HeadsAmong;
  }

  /** No entry refuses a batch none of whose words begins with one of these. */
  lemma RefusedOnlyFor(query: string, optIn: bool, sensitive: seq<string>, k: nat)
    ensures ValidateQuery(query, optIn, sensitive) == Blocked(k) ==> AlarmIn(Regions(query), READ_HEADS)
    ensures ValidateWriteQuery(query, optIn) == Blocked(k) ==> AlarmIn(Regions(query), WRITE_HEADS)
  {
    BlockedExactly(READ_TABLE, READ_STARTS, UnboundedRead(optIn, sensitive), query, k);
    BlockedExactly(WRITE_TABLE, WRITE_STARTS, UnboundedWrite(optIn), query, k);
    TableHeads(k);
    hide Judge, Matches, Trim, Strip, Regions, AlarmIn, HeadsAmong;
    if ValidateQuery(query, optIn, sensitive) == Blocked(k) { AlarmHasOrigin(query, READ_TABLE[k], READ_HEADS); }
    if ValidateWriteQuery(query, optIn) == Blocked(k) { AlarmHasOrigin(query, WRITE_TABLE[k], WRITE_HEADS); }
  }
}
