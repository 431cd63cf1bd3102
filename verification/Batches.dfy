/** Batches under the row cap: what the caller is told, and exactly when it is true. */
module Batches {
  import opened Text
  import opened Lexer
  import opened Words
  import opened Patterns
  import opened Guards
  import opened Notices
  import opened RowCap
  import opened Limits

  type Row = string

  /** Temporary tables and variables, by name. */
  type Data = map<string, seq<Row>>

  /** A statement that returns rows, one that puts rows somewhere, or one that does neither. */
  datatype Stmt =
    | Emit(rows: Data -> seq<Row>)
    | Store(rows: Data -> seq<Row>, put: (Data, seq<Row>) -> Data)
    | Quiet(effect: Data -> Data)

  /** A statement and the piece of the batch's own code at which it begins. */
  datatype Placed = Placed(at: nat, stmt: Stmt)

  /** SET ROWCOUNT n stops every statement after n rows, and 0 means no limit. */
  function Limited(n: nat, rows: seq<Row>): seq<Row> {
    if n == 0 || |rows| <= n then rows else rows[..n]
  }

  predicate WellPlaced(batch: seq<Placed>, sqlText: string) {
    forall i :: 0 <= i < |batch| ==> batch[i].at <= |Regions(sqlText)|
  }

  /**
   * The result sets when the batch, whose code begins at piece `base` of `ps`, runs as part of that code: its
   * statements one after the other, each under the ROWCOUNT in force where it stands.
   */
  function Execute(batch: seq<Placed>, ps: seq<Piece>, base: nat, d: Data): seq<seq<Row>>
    requires forall i :: 0 <= i < |batch| ==> base + batch[i].at <= |ps|
  {
    if batch == [] then [] else
      var limit := InForce(ps, base + batch[0].at);
      match batch[0].stmt
      case Emit(rows) => [Limited(limit, rows(d))] + Execute(batch[1..], ps, base, d)
      case Store(rows, put) => Execute(batch[1..], ps, base, put(d, Limited(limit, rows(d))))
      case Quiet(effect) => Execute(batch[1..], ps, base, effect(d))
  }

  lemma SentPlaces(sqlText: string, maxRows: nat, userSql: bool)
    requires !EndsOpen(sqlText)
    ensures Regions(HEADER + sqlText) == Chs(HEADER) + Regions(sqlText)
    ensures !Exempt(sqlText, userSql) ==>
              Regions(SentText(sqlText, maxRows, userSql)) == WrappedPieces(sqlText, maxRows)
    ensures Exempt(sqlText, userSql) ==> SentText(sqlText, maxRows, userSql) == HEADER + sqlText
  {
    HeaderRegions(sqlText);
    WrappedRegions(sqlText, maxRows);
  }

  /** What comes back for the batch itself, nothing put in front of it but the header. */
  function ByItself(batch: seq<Placed>, sqlText: string, d: Data): seq<seq<Row>>
    requires !EndsOpen(sqlText) && WellPlaced(batch, sqlText)
  {
    SentPlaces(sqlText, 0, true);
    Execute(batch, Regions(HEADER + sqlText), |HEADER|, d)
  }

  /** What comes back for the text that is sent. */
  function Received(batch: seq<Placed>, sqlText: string, maxRows: nat, userSql: bool, d: Data): seq<seq<Row>>
    requires !EndsOpen(sqlText) && WellPlaced(batch, sqlText)
  {
    SentPlaces(sqlText, maxRows, userSql);
    var base := if Exempt(sqlText, userSql) then |HEADER| else Base(maxRows);
    Execute(batch, Regions(SentText(sqlText, maxRows, userSql)), base, d)
  }

  // ── The same under one limit for all ──

  function Stmts(batch: seq<Placed>): seq<Stmt> {
    seq(|batch|, i requires 0 <= i < |batch| => batch[i].stmt)
  }

  function Under(limit: nat, stmts: seq<Stmt>, d: Data): seq<seq<Row>> {
    if stmts == [] then []
    else match stmts[0]
      case Emit(rows) => [Limited(limit, rows(d))] + Under(limit, stmts[1..], d)
      case Store(rows, put) => Under(limit, stmts[1..], put(d, Limited(limit, rows(d))))
      case Quiet(effect) => Under(limit, stmts[1..], effect(d))
  }

  predicate LimitIs(p: Placed, ps: seq<Piece>, base: nat, limit: nat) {
    base + p.at <= |ps| && InForce(ps, base + p.at) == limit
  }

  lemma {:induction false} OneLimit(batch: seq<Placed>, ps: seq<Piece>, base: nat, d: Data, limit: nat)
    requires forall i :: 0 <= i < |batch| ==> LimitIs(batch[i], ps, base, limit)
    ensures forall i :: 0 <= i < |batch| ==> base + batch[i].at <= |ps|
    ensures Execute(batch, ps, base, d) == Under(limit, Stmts(batch), d)
  {
    if batch != [] {
      assert Stmts(batch)[1..] == Stmts(batch[1..]) && Stmts(batch)[0] == batch[0].stmt;
      assert LimitIs(batch[0], ps, base, limit);
      assert forall i :: 0 <= i < |batch[1..]| ==> batch[1..][i] == batch[i + 1];
      match batch[0].stmt
      case Emit(_) => OneLimit(batch[1..], ps, base, d, limit);
      case Store(rows, put) => OneLimit(batch[1..], ps, base, put(d, Limited(limit, rows(d))), limit);
      case Quiet(effect) => OneLimit(batch[1..], ps, base, effect(d), limit);
    }
  }

  lemma ByItselfIsUnlimited(batch: seq<Placed>, sqlText: string, d: Data)
    requires !EndsOpen(sqlText) && WellPlaced(batch, sqlText) && NoRowCount(sqlText)
    ensures ByItself(batch, sqlText, d) == Under(0, Stmts(batch), d)
  {
    hide InForce, Execute, Under, Stmts, Regions, EndsOpen, NoRowCount;
    SentPlaces(sqlText, 0, true);
    var ps, base := Regions(HEADER + sqlText), |HEADER|;
    assert |ps| == base + |Regions(sqlText)|;
    forall i | 0 <= i < |batch| ensures LimitIs(batch[i], ps, base, 0) {
      UnlimitedByItself(sqlText, base + batch[i].at);
    }
    OneLimit(batch, ps, base, d, 0);
  }

  lemma WrappedIsLimited(batch: seq<Placed>, sqlText: string, maxRows: nat, userSql: bool, d: Data)
    requires !EndsOpen(sqlText) && WellPlaced(batch, sqlText) && NoRowCount(sqlText) && !Exempt(sqlText, userSql)
    ensures Received(batch, sqlText, maxRows, userSql, d) == Under(maxRows + 1, Stmts(batch), d)
  {
    hide WrappedPieces, InForce, Execute, Under, Stmts, Regions, EndsOpen, NoRowCount, Exempt, SentText, Base;
    SentPlaces(sqlText, maxRows, userSql);
    var ps := WrappedPieces(sqlText, maxRows);
    forall i | 0 <= i < |batch| ensures LimitIs(batch[i], ps, Base(maxRows), maxRows + 1) {
      LimitedWhenWrapped(sqlText, maxRows, batch[i].at);
    }
    OneLimit(batch, ps, Base(maxRows), d, maxRows + 1);
  }

  // ── When the caller is told the truth ──

  function FirstSet(sets: seq<seq<Row>>): seq<Row> {
    if sets == [] then [] else sets[0]
  }

  /** As far as rows, `truncated` and the number of result sets go, `got` is reported as `all` would be. */
  predicate ReportedAs(got: seq<seq<Row>>, all: seq<seq<Row>>, maxRows: nat) {
    CapRows(FirstSet(got), maxRows) == CapRows(FirstSet(all), maxRows) && |got| == |all|
  }

  lemma ReportsAlike(got: seq<seq<Row>>, all: seq<seq<Row>>, maxRows: nat, instance: string,
                     noteTruncation: Option<bool>, userSql: bool)
    requires ReportedAs(got, all, maxRows)
    ensures FinishQuery(instance, Some(got), maxRows, noteTruncation, userSql)
            == FinishQuery(instance, Some(all), maxRows, noteTruncation, userSql)
  {
  }

  datatype Kind = Emits | Stores | Quiets

  function KindOf(s: Stmt): Kind {
    match s
    case Emit(_) => Emits
    case Store(_, _) => Stores
    case Quiet(_) => Quiets
  }

  function Kinds(stmts: seq<Stmt>): seq<Kind> {
    seq(|stmts|, i requires 0 <= i < |stmts| => KindOf(stmts[i]))
  }

  /** No statement that puts rows somewhere comes before the first that returns rows, if any does. */
  predicate ResultFirst(kinds: seq<Kind>) {
    kinds == [] || kinds[0] == Emits || (if kinds[0] == Stores then Emits !in kinds else ResultFirst(kinds[1..]))
  }

  /** Up to the first result, nothing that is put somewhere is more than `n` rows. */
  predicate NothingCut(n: nat, stmts: seq<Stmt>, d: Data) {
    stmts == [] ||
    match stmts[0]
    case Emit(_) => true
    case Store(rows, put) => |rows(d)| <= n && NothingCut(n, stmts[1..], put(d, rows(d)))
    case Quiet(effect) => NothingCut(n, stmts[1..], effect(d))
  }

  lemma {:induction false} AsManySets(a: nat, b: nat, stmts: seq<Stmt>, d: Data, e: Data)
    ensures |Under(a, stmts, d)| == |Under(b, stmts, e)|
  {
    if stmts != [] {
      match stmts[0]
      case Emit(_) => AsManySets(a, b, stmts[1..], d, e);
      case Store(rows, put) => AsManySets(a, b, stmts[1..], put(d, Limited(a, rows(d))), put(e, Limited(b, rows(e))));
      case Quiet(effect) => AsManySets(a, b, stmts[1..], effect(d), effect(e));
    }
  }

  lemma LimitedReports(rows: seq<Row>, maxRows: nat)
    ensures CapRows(Limited(maxRows + 1, rows), maxRows) == CapRows(rows, maxRows)
  {
    if |rows| > maxRows + 1 { assert rows[..maxRows + 1][..maxRows] == rows[..maxRows]; }
  }

  /** A batch whose stores are not cut is reported exactly, whatever its statements do. */
  lemma {:induction false} UncutIsExact(maxRows: nat, stmts: seq<Stmt>, d: Data)
    requires NothingCut(maxRows + 1, stmts, d)
    ensures ReportedAs(Under(maxRows + 1, stmts, d), Under(0, stmts, d), maxRows)
  {
    if stmts != [] {
      match stmts[0]
      case Emit(rows) =>
        LimitedReports(rows(d), maxRows);
        AsManySets(maxRows + 1, 0, stmts[1..], d, d);
      case Store(rows, put) => UncutIsExact(maxRows, stmts[1..], put(d, rows(d)));
      case Quiet(effect) => UncutIsExact(maxRows, stmts[1..], effect(d));
    }
  }

  lemma {:induction false} NoResultNoSets(n: nat, stmts: seq<Stmt>, d: Data)
    requires Emits !in Kinds(stmts)
    ensures Under(n, stmts, d) == []
  {
    if stmts != [] {
      assert Kinds(stmts)[1..] == Kinds(stmts[1..]) && Kinds(stmts)[0] == KindOf(stmts[0]);
      match stmts[0]
      case Store(rows, put) => NoResultNoSets(n, stmts[1..], put(d, Limited(n, rows(d))));
      case Quiet(effect) => NoResultNoSets(n, stmts[1..], effect(d));
      case Emit(_) =>
    }
  }

  lemma {:induction false} ResultFirstIsExact(maxRows: nat, stmts: seq<Stmt>, d: Data)
    requires ResultFirst(Kinds(stmts))
    ensures ReportedAs(Under(maxRows + 1, stmts, d), Under(0, stmts, d), maxRows)
  {
    if stmts != [] {
      assert Kinds(stmts)[1..] == Kinds(stmts[1..]) && Kinds(stmts)[0] == KindOf(stmts[0]);
      match stmts[0]
      case Emit(_) => UncutIsExact(maxRows, stmts, d);
      case Store(_, _) =>
        NoResultNoSets(maxRows + 1, stmts, d);
        NoResultNoSets(0, stmts, d);
      case Quiet(effect) => ResultFirstIsExact(maxRows, stmts[1..], effect(d));
    }
  }

  // ── The batches it is wrong about ──

  function Repeat(n: nat): seq<Row> {
    if n == 0 then [] else ["x"] + Repeat(n - 1)
  }

  lemma {:induction false} RepeatLength(n: nat)
    ensures |Repeat(n)| == n
  {
    if n > 0 { RepeatLength(n - 1); }
  }

  /** How many rows were put in the table, told by the one row returned, or by none. */
  function Told(d: Data, full: nat): seq<Row> {
    if "#t" in d && |d["#t"]| == full then [] else ["cut"]
  }

  /** A statement of a given kind: it fills the table with one row too many, or tells whether the table is full. */
  function Teller(k: Kind, maxRows: nat): Stmt {
    match k
    case Emits => Emit(d => Told(d, maxRows + 2))
    case Stores => Store(_ => Repeat(maxRows + 2), (d: Data, rows) => d["#t" := rows])
    case Quiets => Quiet(d => d)
  }

  function Tellers(kinds: seq<Kind>, maxRows: nat): seq<Stmt> {
    seq(|kinds|, i requires 0 <= i < |kinds| => Teller(kinds[i], maxRows))
  }

  lemma TellersFit(kinds: seq<Kind>, maxRows: nat)
    ensures Kinds(Tellers(kinds, maxRows)) == kinds
    ensures kinds != [] ==> Tellers(kinds, maxRows)[1..] == Tellers(kinds[1..], maxRows)
  {
  }

  /** Once the table has been filled, the first result tells whether it was cut. */
  lemma {:induction false} FilledTells(kinds: seq<Kind>, maxRows: nat, limit: nat, d: Data)
    requires Emits in kinds && "#t" in d && d["#t"] == Limited(limit, Repeat(maxRows + 2))
    requires limit == 0 || limit == maxRows + 1
    ensures var sets := Under(limit, Tellers(kinds, maxRows), d);
            sets != [] && sets[0] == if limit == 0 then [] else ["cut"]
  {
    RepeatLength(maxRows + 2);
    TellersFit(kinds, maxRows);
    match kinds[0]
    case Emits =>
    case Stores => FilledTells(kinds[1..], maxRows, limit, d["#t" := Limited(limit, Repeat(maxRows + 2))]);
    case Quiets => FilledTells(kinds[1..], maxRows, limit, d);
  }

  lemma {:induction false} StoredFirstTells(kinds: seq<Kind>, maxRows: nat, d: Data)
    requires !ResultFirst(kinds)
    ensures !ReportedAs(Under(maxRows + 1, Tellers(kinds, maxRows), d), Under(0, Tellers(kinds, maxRows), d), maxRows)
  {
    TellersFit(kinds, maxRows);
    if kinds[0] == Stores {
      FilledTells(kinds[1..], maxRows, maxRows + 1, d["#t" := Limited(maxRows + 1, Repeat(maxRows + 2))]);
      FilledTells(kinds[1..], maxRows, 0, d["#t" := Limited(0, Repeat(maxRows + 2))]);
    } else {
      StoredFirstTells(kinds[1..], maxRows, d);
    }
  }

  // ── The row cap, end to end ──

  /** What the caller of `queryInstance` gets, and what is noted. */
  function Outcome(batch: seq<Placed>, sqlText: string, maxRows: nat, userSql: bool, d: Data, instance: string,
                   noteTruncation: Option<bool>): (Capped<Row>, seq<Notice>)
    requires !EndsOpen(sqlText) && WellPlaced(batch, sqlText)
  {
    FinishQuery(instance, Some(Received(batch, sqlText, maxRows, userSql, d)), maxRows, noteTruncation, userSql)
  }

  /** What it should be: the report of all the batch produces by itself. */
  function Truth(batch: seq<Placed>, sqlText: string, maxRows: nat, userSql: bool, d: Data, instance: string,
                 noteTruncation: Option<bool>): (Capped<Row>, seq<Notice>)
    requires !EndsOpen(sqlText) && WellPlaced(batch, sqlText)
  {
    FinishQuery(instance, Some(ByItself(batch, sqlText, d)), maxRows, noteTruncation, userSql)
  }

  /** Every batch of these kinds of statement, in any places of this text and on any data, is reported as it is. */
  ghost predicate AlwaysExact(sqlText: string, kinds: seq<Kind>, maxRows: nat, userSql: bool)
    requires !EndsOpen(sqlText)
  {
    forall batch, d, instance, noteTruncation :: WellPlaced(batch, sqlText) && Kinds(Stmts(batch)) == kinds ==>
      Outcome(batch, sqlText, maxRows, userSql, d, instance, noteTruncation)
        == Truth(batch, sqlText, maxRows, userSql, d, instance, noteTruncation)
  }

  lemma ExactIfResultFirst(sqlText: string, maxRows: nat, userSql: bool, batch: seq<Placed>, d: Data,
                           instance: string, noteTruncation: Option<bool>)
    requires !EndsOpen(sqlText) && WellPlaced(batch, sqlText)
    requires Exempt(sqlText, userSql) || (NoRowCount(sqlText) && ResultFirst(Kinds(Stmts(batch))))
    ensures Outcome(batch, sqlText, maxRows, userSql, d, instance, noteTruncation)
            == Truth(batch, sqlText, maxRows, userSql, d, instance, noteTruncation)
  {
    if Exempt(sqlText, userSql) {
      SentPlaces(sqlText, maxRows, userSql);
    } else {
      WrappedIsLimited(batch, sqlText, maxRows, userSql, d);
      ByItselfIsUnlimited(batch, sqlText, d);
      ResultFirstIsExact(maxRows, Stmts(batch), d);
      ReportsAlike(Received(batch, sqlText, maxRows, userSql, d), ByItself(batch, sqlText, d), maxRows, instance,
                   noteTruncation, userSql);
    }
  }

  function TellersAtStart(kinds: seq<Kind>, maxRows: nat): seq<Placed> {
    seq(|kinds|, i requires 0 <= i < |kinds| => Placed(0, Teller(kinds[i], maxRows)))
  }

  lemma {:induction false} WrongOtherwise(sqlText: string, kinds: seq<Kind>, maxRows: nat, userSql: bool)
    requires !EndsOpen(sqlText) && NoRowCount(sqlText) && !Exempt(sqlText, userSql) && !ResultFirst(kinds)
    ensures var batch := TellersAtStart(kinds, maxRows);
            && WellPlaced(batch, sqlText) && Kinds(Stmts(batch)) == kinds
            && Outcome(batch, sqlText, maxRows, userSql, map[], "i", None)
              != Truth(batch, sqlText, maxRows, userSql, map[], "i", None)
  {
    var batch := TellersAtStart(kinds, maxRows);
    assert Stmts(batch) == Tellers(kinds, maxRows);
    TellersFit(kinds, maxRows);
    WrappedIsLimited(batch, sqlText, maxRows, userSql, map[]);
    ByItselfIsUnlimited(batch, sqlText, map[]);
    StoredFirstTells(kinds, maxRows, map[]);
    AsManySets(maxRows + 1, 0, Stmts(batch), map[], map[]);
  }

  /**
   * For a text whose last token is closed and that, if wrapped, has no SET ROWCOUNT of its own (see
   * WrappedHasNoRowCount): rows, `truncated` and notices are those of all the batch produces, on any data, exactly
   * when the text is exempt or no statement that puts rows somewhere comes before the first that returns rows.
   */
  lemma {:induction false} ExactTruncation(sqlText: string, kinds: seq<Kind>, maxRows: nat, userSql: bool)
    requires !EndsOpen(sqlText) && (Exempt(sqlText, userSql) || NoRowCount(sqlText))
    ensures AlwaysExact(sqlText, kinds, maxRows, userSql) <==> Exempt(sqlText, userSql) || ResultFirst(kinds)
  {
    if Exempt(sqlText, userSql) || ResultFirst(kinds) {
      forall batch, d, instance, noteTruncation | WellPlaced(batch, sqlText) && Kinds(Stmts(batch)) == kinds
        ensures Outcome(batch, sqlText, maxRows, userSql, d, instance, noteTruncation)
                == Truth(batch, sqlText, maxRows, userSql, d, instance, noteTruncation)
      {
        ExactIfResultFirst(sqlText, maxRows, userSql, batch, d, instance, noteTruncation);
      }
    } else {
      WrongOtherwise(sqlText, kinds, maxRows, userSql);
    }
  }

  /** Rows copied into a temporary table, then counted. */
  function CopyThenCount(copyAt: nat, countAt: nat): seq<Placed> {
    [Placed(copyAt, Store(d => if "b" in d then d["b"] else [], (d: Data, rows) => d["#t" := rows])),
     Placed(countAt, Emit(d => [Decimal(if "#t" in d then |d["#t"]| else 0)]))]
  }

  lemma CopyThenCountUnder(limit: nat, copyAt: nat, countAt: nat, d: Data)
    requires "b" in d
    ensures limit == 0 ==> Under(limit, Stmts(CopyThenCount(copyAt, countAt)), d) == [[Decimal(|d["b"]|)]]
    ensures 0 < limit < |d["b"]| ==> Under(limit, Stmts(CopyThenCount(copyAt, countAt)), d) == [[Decimal(limit)]]
  {
    var stmts := Stmts(CopyThenCount(copyAt, countAt));
    var rest := stmts[1..];
    assert rest[1..] == [];
    var filled := d["#t" := Limited(limit, d["b"])];
    assert Under(limit, stmts, d) == Under(limit, rest, filled);
    assert Under(limit, rest, filled) == [Limited(limit, [Decimal(|filled["#t"]|)])] + Under(limit, rest[1..], filled);
  }

  /**
   * The simplest batch it is wrong about: with more rows than the cap and one, the caller is given the number of
   * rows the cap let through as the count, with `truncated` false and nothing noted.
   */
  lemma CountIsWrongSilently(sqlText: string, maxRows: nat, copyAt: nat, countAt: nat, d: Data, instance: string,
                             noteTruncation: Option<bool>)
    requires !EndsOpen(sqlText) && NoRowCount(sqlText) && copyAt <= |Regions(sqlText)| && countAt <= |Regions(sqlText)|
    requires maxRows > 0 && "b" in d && |d["b"]| > maxRows + 1
    ensures var batch := CopyThenCount(copyAt, countAt);
            && Outcome(batch, sqlText, maxRows, true, d, instance, noteTruncation)
              == (Capped([Decimal(maxRows + 1)], false), [])
            && Truth(batch, sqlText, maxRows, true, d, instance, noteTruncation)
              == (Capped([Decimal(|d["b"]|)], false), [])
  {
    var batch := CopyThenCount(copyAt, countAt);
    WrappedIsLimited(batch, sqlText, maxRows, true, d);
    ByItselfIsUnlimited(batch, sqlText, d);
    CopyThenCountUnder(maxRows + 1, copyAt, countAt, d);
    CopyThenCountUnder(0, copyAt, countAt, d);
    OneRowReport(Decimal(maxRows + 1), maxRows, instance, noteTruncation, true);
    OneRowReport(Decimal(|d["b"]|), maxRows, instance, noteTruncation, true);
  }

  lemma OneRowReport(r: Row, maxRows: nat, instance: string, noteTruncation: Option<bool>, userSql: bool)
    requires maxRows > 0
    ensures FinishQuery(instance, Some([[r]]), maxRows, noteTruncation, userSql) == (Capped([r], false), [])
  {
    var none: seq<Notice> := [];
    assert none + none == none;
  }
}
