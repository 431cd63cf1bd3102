/** What the guards' last tests see of code. */
module Bounds {
  import opened Text
  import opened Words
  import opened Patterns
  import opened PhraseOrigins
  import opened Guards

  // ── Table-wide changes ──

  /** A piece that begins what `[\w.\[\]]` allows of a target. */
  predicate BeginsTarget(p: Piece) {
    match p
    case Ch(c) => IsWordChar(c) || c == '.' || c == '[' || c == ']'
    case Name(text) => text != "" && text[0] != '"'
    case _ => false
  }

  /** A piece that is nothing else. */
  predicate WithinTarget(p: Piece) {
    match p
    case Ch(c) => IsWordChar(c) || c == '.' || c == '[' || c == ']'
    case Name(text) =>
      forall i :: 0 <= i < |text| ==>
        || IsWordChar(text[i]) || text[i] == '.' || text[i] == '[' || text[i] == ']'
    case _ => false
  }

  predicate CodeSaysAt(ps: seq<Piece>, k: nat, w: string) {
    CodeWordAt(ps, k, |w|) && SameWord(Chars(ps[k..k + |w|]), w)
  }

  /** DELETE in code, with a target behind it: FROM counts as one, and so does what follows it. */
  predicate DeletesAt(ps: seq<Piece>, k: nat, m: nat) {
    k + 6 < m < |ps| && CodeSaysAt(ps, k, "DELETE") && BlankPieces(ps, k + 6, m) && BeginsTarget(ps[m])
  }

  /** UPDATE in code, a target, and SET. */
  predicate UpdatesAt(ps: seq<Piece>, k: nat, a: nat, b: nat, c: nat) {
    && k + 6 < a < b < c < |ps| && CodeSaysAt(ps, k, "UPDATE") && BlankPieces(ps, k + 6, a)
    && (forall m :: a <= m < b ==> WithinTarget(ps[m])) && BlankPieces(ps, b, c) && CodeSaysAt(ps, c, "SET")
  }

  predicate CodeChangesTable(ps: seq<Piece>) {
    || (exists k, m :: 0 <= k < |ps| && 0 <= m < |ps| && DeletesAt(ps, k, m))
    || (exists k, a, b, c ::
          0 <= k < |ps| && 0 <= a < |ps| && 0 <= b < |ps| && 0 <= c < |ps| && UpdatesAt(ps, k, a, b, c))
  }

  lemma DeleteShows(ps: seq<Piece>, t: string, off: seq<nat>, k: nat, m: nat)
    requires Proper(ps) && Layout(ps, t, off) && DeletesAt(ps, k, m)
    ensures DeleteAt(t, off[k], off[m])
  {
    NoHiding(ps, t, off, k, 6);
    RunEnd(ps, t, off, k, 6);
    BlankRun(ps, t, off, k + 6, m);
    CharOfCode(ps, t, off, m);
  }

  lemma {:induction false} TargetRun(ps: seq<Piece>, t: string, off: seq<nat>, a: nat, b: nat)
    requires Proper(ps) && Layout(ps, t, off) && a <= b <= |ps| && forall m :: a <= m < b ==> WithinTarget(ps[m])
    ensures off[a] <= off[b] <= |t| && forall j :: off[a] <= j < off[b] ==> TargetChar(t[j])
  {
    if a < b {
      TargetRun(ps, t, off, a, b - 1);
      CharOfCode(ps, t, off, b - 1);
      NameChars(ps, t, off, b - 1, off[b - 1], off[b]);
      assert WithinTarget(ps[b - 1]);
      var text := TextOf(ps[b - 1]);
      forall j | off[b - 1] <= j < off[b] ensures TargetChar(t[j]) {
        assert text[0..off[b] - off[b - 1]][j - off[b - 1]] == t[off[b - 1]..off[b]][j - off[b - 1]];
      }
    } else {
      OffsetsGrow(ps, t, off, a, |ps|);
    }
  }

  lemma UpdateShows(ps: seq<Piece>, t: string, off: seq<nat>, k: nat, a: nat, b: nat, c: nat)
    requires Proper(ps) && Layout(ps, t, off) && UpdatesAt(ps, k, a, b, c)
    ensures UpdateAt(t, off[k], off[a], off[b], off[c])
  {
    NoHiding(ps, t, off, k, 6);
    RunEnd(ps, t, off, k, 6);
    BlankRun(ps, t, off, k + 6, a);
    TargetRun(ps, t, off, a, b);
    OffsetsGrow(ps, t, off, a, b);
    BlankRun(ps, t, off, b, c);
    NoHiding(ps, t, off, c, 3);
    hide WordAt, CodeWordAt, Proper, Blank, TargetChar;
  }

  lemma DeleteInWindow(t: string, x: nat, y: nat, i: nat, a: nat)
    requires Window(t, x, y) && DeleteAt(t, i, a)
    ensures x <= i && DeleteAt(t[x..y], i - x, a - x)
  {
    WordInWindow(t, x, y, i, 6);
    BlankInWindow(t, x, y, i + 6, a);
  }

  lemma SameInWindow(t: string, x: nat, y: nat, i: nat, n: nat, w: string)
    requires Window(t, x, y) && WordAt(t, i, n) && SameWord(t[i..i + n], w)
    ensures x <= i && i + n <= y <= |t| && WordAt(t[x..y], i - x, n)
    ensures SameWord(t[x..y][i - x..i - x + n], w)
  {
    WordInWindow(t, x, y, i, n);
  }

  lemma TargetsInWindow(t: string, x: nat, y: nat, a: nat, b: nat)
    requires x <= a <= b <= y <= |t| && forall m :: a <= m < b ==> TargetChar(t[m])
    ensures forall m :: a - x <= m < b - x ==> TargetChar(t[x..y][m])
  {
    forall m | a - x <= m < b - x ensures TargetChar(t[x..y][m]) { assert t[x..y][m] == t[x + m]; }
  }

  lemma UpdateInWindow(t: string, x: nat, y: nat, i: nat, a: nat, b: nat, c: nat)
    requires Window(t, x, y) && UpdateAt(t, i, a, b, c)
    ensures x <= i && UpdateAt(t[x..y], i - x, a - x, b - x, c - x)
  {
    hide WordAt, Blank, Window, SameWord, TargetChar;
    SameInWindow(t, x, y, i, 6, "UPDATE");
    SameInWindow(t, x, y, c, 3, "SET");
    TargetsInWindow(t, x, y, a, b);
    BlankInWindow(t, x, y, i + 6, a);
    BlankInWindow(t, x, y, b, c);
  }

  lemma CodeChangeShows(ps: seq<Piece>)
    requires Proper(ps) && CodeChangesTable(ps)
    ensures ChangesTable(Trim(Flat(ps)))
  {
    var t := Flat(ps);
    var off := HasLayout(ps);
    TrimIsWindow(t);
    if exists k, m :: 0 <= k < |ps| && 0 <= m < |ps| && DeletesAt(ps, k, m) {
      var k, m :| 0 <= k < |ps| && 0 <= m < |ps| && DeletesAt(ps, k, m);
      DeleteShows(ps, t, off, k, m);
      DeleteInWindow(t, InkStart(t), InkEnd(t), off[k], off[m]);
    } else {
      var k, a, b, c :|
        0 <= k < |ps| && 0 <= a < |ps| && 0 <= b < |ps| && 0 <= c < |ps| && UpdatesAt(ps, k, a, b, c);
      UpdateShows(ps, t, off, k, a, b, c);
      UpdateInWindow(t, InkStart(t), InkEnd(t), off[k], off[a], off[b], off[c]);
    }
  }

  // ── And only those, where no delimited name has a blank ──

  predicate SolidNames(ps: seq<Piece>) {
    forall k, i :: 0 <= k < |ps| && ps[k].Name? && 0 <= i < |TextOf(ps[k])| ==> !IsSpace(TextOf(ps[k])[i])
  }

  /** A piece is blank or has no blank. */
  lemma SolidPiece(ps: seq<Piece>, t: string, off: seq<nat>, m: nat, x: nat, y: nat)
    requires Proper(ps) && SolidNames(ps) && Layout(ps, t, off) && m < |ps|
    requires off[m] <= x < off[m + 1] <= |t| && off[m] <= y < off[m + 1]
    ensures IsSpace(t[x]) == IsSpace(t[y])
  {
    assert Sits(ps, t, off, m) && ProperPiece(ps[m], m + 1 == |ps|);
    assert t[off[m] + (x - off[m])] == TextOf(ps[m])[x - off[m]];
    assert t[off[m] + (y - off[m])] == TextOf(ps[m])[y - off[m]];
  }

  /** Where white space ends, or begins, a piece begins. */
  lemma PieceBegins(ps: seq<Piece>, t: string, off: seq<nat>, x: nat) returns (m: nat)
    requires Proper(ps) && SolidNames(ps) && Layout(ps, t, off) && 0 < x < |t| && IsSpace(t[x - 1]) != IsSpace(t[x])
    ensures m < |ps| && off[m] == x
  {
    m := PieceAt(ps, t, off, x, |ps|);
    CharOfCode(ps, t, off, m);
    if off[m] < x { SolidPiece(ps, t, off, m, x - 1, x); }
  }

  /** A word with a blank behind it is code. */
  lemma BlankBehind(ps: seq<Piece>, t: string, off: seq<nat>, i: nat, n: nat) returns (k: nat)
    requires Proper(ps) && SolidNames(ps) && Layout(ps, t, off) && WordAt(t, i, n) && i + n < |t| && IsSpace(t[i + n])
    ensures CodeWordAt(ps, k, n) && off[k] == i && off[k + n] == i + n && t[i..i + n] == Chars(ps[k..k + n])
  {
    k := NoGluing(ps, t, off, i, n);
    WordLies(t, i, n);
    if ps[k].Name? {
      NameEdges(ps, t, off, k);
      NameWordLies(ps, t, off, k, i, n);
      if i + n < off[k + 1] { SolidPiece(ps, t, off, k, i + n - 1, i + n); }
    }
    RunEnd(ps, t, off, k, n);
    NoHiding(ps, t, off, k, n);
  }

  lemma WordLies(t: string, i: nat, n: nat)
    requires WordAt(t, i, n)
    ensures 0 < n && i + n <= |t| && IsWordChar(t[i]) && IsWordChar(t[i + n - 1])
  {
  }

  lemma NameWordLies(ps: seq<Piece>, t: string, off: seq<nat>, k: nat, i: nat, n: nat)
    requires Layout(ps, t, off) && k < |ps| && ps[k].Name? && ComesFrom(ps, off, k, i, n)
    ensures off[k] <= i && i + n <= off[k + 1]
  {
    assert Sits(ps, t, off, k);
  }

  /** A word with a blank before it is code. */
  lemma BlankAhead(ps: seq<Piece>, t: string, off: seq<nat>, i: nat, n: nat) returns (k: nat)
    requires Proper(ps) && SolidNames(ps) && Layout(ps, t, off) && WordAt(t, i, n) && i > 0 && IsSpace(t[i - 1])
    ensures CodeWordAt(ps, k, n) && off[k] == i && t[i..i + n] == Chars(ps[k..k + n])
  {
    k := NoGluing(ps, t, off, i, n);
    WordLies(t, i, n);
    if ps[k].Name? {
      NameEdges(ps, t, off, k);
      NameWordLies(ps, t, off, k, i, n);
      SolidPiece(ps, t, off, k, i - 1, i);
    }
    NoHiding(ps, t, off, k, n);
  }

  lemma BlankAt(t: string, x: nat, y: nat, z: nat)
    requires x <= z < y <= |t| && Blank(t[x..y])
    ensures IsSpace(t[z])
  {
    assert t[x..y][z - x] == t[z];
  }

  lemma DeleteHasOrigin(ps: seq<Piece>, t: string, off: seq<nat>, i: nat, a: nat)
    requires Proper(ps) && SolidNames(ps) && Layout(ps, t, off) && DeleteAt(t, i, a)
    ensures CodeChangesTable(ps)
  {
    hide SolidNames, Proper, CodeWordAt, WordAt;
    BlankAt(t, i + 6, a, i + 6);
    BlankAt(t, i + 6, a, a - 1);
    var k := BlankBehind(ps, t, off, i, 6);
    var m := PieceBegins(ps, t, off, a);
    CodeWordIn(ps, k, 6);
    BlanksBetween(ps, t, off, k + 6, m);
    TargetBegins(ps, t, off, m);
    assert DeletesAt(ps, k, m);
  }

  lemma CodeWordIn(ps: seq<Piece>, k: nat, n: nat)
    requires CodeWordAt(ps, k, n)
    ensures 0 < n && k + n <= |ps|
  {
  }

  lemma TargetBegins(ps: seq<Piece>, t: string, off: seq<nat>, m: nat)
    requires Proper(ps) && Layout(ps, t, off) && m < |ps| && off[m] < |t| && TargetChar(t[off[m]])
    ensures BeginsTarget(ps[m])
  {
    CharOfCode(ps, t, off, m);
    assert ProperPiece(ps[m], m + 1 == |ps|);
  }

  lemma TargetsWithin(ps: seq<Piece>, t: string, off: seq<nat>, a: nat, b: nat)
    requires Proper(ps) && Layout(ps, t, off) && a <= b <= |ps| && off[a] <= off[b] <= |t|
    requires forall j :: off[a] <= j < off[b] ==> TargetChar(t[j])
    ensures forall m :: a <= m < b ==> WithinTarget(ps[m])
  {
    forall m | a <= m < b ensures WithinTarget(ps[m]) {
      OffsetsGrow(ps, t, off, a, m);
      OffsetsGrow(ps, t, off, m + 1, b);
      OffsetsGrow(ps, t, off, m, m + 1);
      PieceWithin(ps, t, off, m);
    }
  }

  lemma PieceWithin(ps: seq<Piece>, t: string, off: seq<nat>, m: nat)
    requires Proper(ps) && Layout(ps, t, off) && m < |ps| && off[m] <= off[m + 1] <= |t|
    requires forall j :: off[m] <= j < off[m + 1] ==> TargetChar(t[j])
    ensures WithinTarget(ps[m])
  {
    CharOfCode(ps, t, off, m);
    assert Sits(ps, t, off, m) && ProperPiece(ps[m], m + 1 == |ps|);
    var text := TextOf(ps[m]);
    forall i | 0 <= i < |text| ensures TargetChar(text[i]) { assert t[off[m] + i] == text[i]; }
  }

  lemma UpdateHasOrigin(ps: seq<Piece>, t: string, off: seq<nat>, i: nat, a: nat, b: nat, c: nat)
    requires Proper(ps) && SolidNames(ps) && Layout(ps, t, off) && UpdateAt(t, i, a, b, c)
    ensures CodeChangesTable(ps)
  {
    hide SolidNames, Proper, CodeWordAt, WordAt, Layout, Chars;
    FirstOffset(ps, t, off);
    BlankAt(t, i + 6, a, i + 6);
    BlankAt(t, i + 6, a, a - 1);
    BlankAt(t, b, c, b);
    BlankAt(t, b, c, c - 1);
    var k := BlankBehind(ps, t, off, i, 6);
    var x := PieceBegins(ps, t, off, a);
    var y := PieceBegins(ps, t, off, b);
    var z := BlankAhead(ps, t, off, c, 3);
    CodeWordIn(ps, k, 6);
    CodeWordIn(ps, z, 3);
    BlanksBetween(ps, t, off, k + 6, x);
    BlanksBetween(ps, t, off, y, z);
    if y <= x { OffsetsGrow(ps, t, off, y, x); }
    TargetsWithin(ps, t, off, x, y);
    assert UpdatesAt(ps, k, x, y, z);
  }

  lemma FirstOffset(ps: seq<Piece>, t: string, off: seq<nat>)
    requires Layout(ps, t, off)
    ensures |off| == |ps| + 1 && off[0] == 0
  {
  }

  lemma DeleteOutOfWindow(t: string, x: nat, y: nat, i: nat, a: nat)
    requires x <= y <= |t| && Window(t, x, y) && DeleteAt(t[x..y], i, a)
    ensures DeleteAt(t, x + i, x + a)
  {
    WordOutOfWindow(t, x, y, i, 6);
    BlankInWindow(t, x, y, x + i + 6, x + a);
  }

  lemma TargetsOutOfWindow(t: string, x: nat, y: nat, a: nat, b: nat)
    requires x <= y <= |t| && a <= b <= y - x && forall m :: a <= m < b ==> TargetChar(t[x..y][m])
    ensures forall m :: x + a <= m < x + b ==> TargetChar(t[m])
  {
    forall m | x + a <= m < x + b ensures TargetChar(t[m]) { assert t[x..y][m - x] == t[m]; }
  }

  lemma SameOutOfWindow(t: string, x: nat, y: nat, i: nat, n: nat, w: string)
    requires x <= y <= |t| && Window(t, x, y) && WordAt(t[x..y], i, n) && SameWord(t[x..y][i..i + n], w)
    ensures x + i + n <= y && WordAt(t, x + i, n) && SameWord(t[x + i..x + i + n], w)
  {
    WordOutOfWindow(t, x, y, i, n);
  }

  lemma UpdateOutOfWindow(t: string, x: nat, y: nat, i: nat, a: nat, b: nat, c: nat)
    requires x <= y <= |t| && Window(t, x, y) && UpdateAt(t[x..y], i, a, b, c)
    ensures UpdateAt(t, x + i, x + a, x + b, x + c)
  {
    hide WordAt, Blank, Window, SameWord, TargetChar;
    SameOutOfWindow(t, x, y, i, 6, "UPDATE");
    SameOutOfWindow(t, x, y, c, 3, "SET");
    TargetsOutOfWindow(t, x, y, a, b);
    BlankInWindow(t, x, y, x + i + 6, x + a);
    BlankInWindow(t, x, y, x + b, x + c);
  }

  lemma DeleteIsReal(ps: seq<Piece>, i: nat, a: nat)
    requires Proper(ps) && SolidNames(ps) && DeleteAt(Trim(Flat(ps)), i, a)
    ensures CodeChangesTable(ps)
  {
    var t := Flat(ps);
    var off := HasLayout(ps);
    TrimIsWindow(t);
    hide Proper, SolidNames, DeleteAt, Layout, CodeChangesTable;
    DeleteOutOfWindow(t, InkStart(t), InkEnd(t), i, a);
    DeleteHasOrigin(ps, t, off, InkStart(t) + i, InkStart(t) + a);
  }

  lemma UpdateIsReal(ps: seq<Piece>, i: nat, a: nat, b: nat, c: nat)
    requires Proper(ps) && SolidNames(ps) && UpdateAt(Trim(Flat(ps)), i, a, b, c)
    ensures CodeChangesTable(ps)
  {
    var t := Flat(ps);
    var off := HasLayout(ps);
    TrimIsWindow(t);
    var x := InkStart(t);
    hide Proper, SolidNames, UpdateAt, Layout, CodeChangesTable;
    UpdateOutOfWindow(t, x, InkEnd(t), i, a, b, c);
    UpdateHasOrigin(ps, t, off, x + i, x + a, x + b, x + c);
  }

  /** Where no delimited name has a blank, the guard sees a change of a table iff the code has one. */
  lemma ChangeIsReal(ps: seq<Piece>)
    requires Proper(ps) && SolidNames(ps)
    ensures ChangesTable(Trim(Flat(ps))) <==> CodeChangesTable(ps)
  {
    hide Proper, SolidNames, UpdateAt, DeleteAt, CodeChangesTable, Trim;
    var u := Trim(Flat(ps));
    if CodeChangesTable(ps) { CodeChangeShows(ps); }
    if exists i, a :: 0 <= i < |u| && 0 <= a < |u| && DeleteAt(u, i, a) {
      var i, a :| 0 <= i < |u| && 0 <= a < |u| && DeleteAt(u, i, a);
      DeleteIsReal(ps, i, a);
    }
    if exists i, a, b, c :: 0 <= i < |u| && 0 <= a < |u| && 0 <= b < |u| && 0 <= c < |u| && UpdateAt(u, i, a, b, c) {
      var i, a, b, c :| 0 <= i < |u| && 0 <= a < |u| && 0 <= b < |u| && 0 <= c < |u| && UpdateAt(u, i, a, b, c);
      UpdateIsReal(ps, i, a, b, c);
    }
  }

  // ── Configured names ──

  predicate PieceBoundary(ps: seq<Piece>, k: nat)
    requires k <= |ps|
  {
    (k > 0 && WordPiece(ps[k - 1])) != (k < |ps| && WordPiece(ps[k]))
  }

  /** The name, spelled in code between two boundaries. */
  predicate SpelledAt(ps: seq<Piece>, k: nat, name: string) {
    && name != "" && k + |name| <= |ps| && (forall j :: k <= j < k + |name| ==> ps[j].Ch?)
    && SameWord(Chars(ps[k..k + |name|]), name) && PieceBoundary(ps, k) && PieceBoundary(ps, k + |name|)
  }

  predicate WithinName(ps: seq<Piece>, k: nat, i: nat, name: string) {
    k < |ps| && ps[k].Name? && MentionedAt(ps[k].text, i, name)
  }

  /** Code spells the name, or one delimited name has it in it. */
  predicate CodeMentions(ps: seq<Piece>, name: string) {
    || (exists k :: 0 <= k < |ps| && SpelledAt(ps, k, name))
    || (exists k, i :: 0 <= k < |ps| && 0 <= i <= |TextOf(ps[k])| && WithinName(ps, k, i, name))
  }

  lemma {:induction false} CharsRun(ps: seq<Piece>, t: string, off: seq<nat>, k: nat, n: nat)
    requires Proper(ps) && Layout(ps, t, off) && k + n <= |ps| && forall j :: k <= j < k + n ==> ps[j].Ch?
    ensures off[k + n] == off[k] + n <= |t| && t[off[k]..off[k] + n] == Chars(ps[k..k + n])
  {
    if n > 0 {
      CharsRun(ps, t, off, k, n - 1);
      CharOfCode(ps, t, off, k + n - 1);
      assert t[off[k]..off[k] + n] == t[off[k]..off[k] + n - 1] + [t[off[k] + n - 1]];
      assert Chars(ps[k..k + n]) == Chars(ps[k..k + n - 1]) + [ps[k + n - 1].c];
    } else {
      OffsetsGrow(ps, t, off, k, |ps|);
    }
  }

  lemma BoundaryOfPiece(ps: seq<Piece>, t: string, off: seq<nat>, k: nat)
    requires Proper(ps) && Layout(ps, t, off) && k <= |ps| && (k == |ps| > 0 ==> ps[k - 1].Ch?)
    ensures off[k] <= |t| && (Boundary(t, off[k]) <==> PieceBoundary(ps, k))
  {
    if k < |ps| { PieceEdges(ps, t, off, k); }
    if k > 0 {
      PieceEdges(ps, t, off, k - 1);
      if k == |ps| { CharOfCode(ps, t, off, k - 1); }
    }
  }

  lemma SpellingShows(ps: seq<Piece>, t: string, off: seq<nat>, k: nat, name: string)
    requires Proper(ps) && Layout(ps, t, off) && SpelledAt(ps, k, name)
    ensures MentionedAt(t, off[k], name)
  {
    CharsRun(ps, t, off, k, |name|);
    BoundaryOfPiece(ps, t, off, k);
    BoundaryOfPiece(ps, t, off, k + |name|);
  }

  lemma BoundaryInName(ps: seq<Piece>, t: string, off: seq<nat>, k: nat, i: nat)
    requires Proper(ps) && Layout(ps, t, off) && k < |ps| && ps[k].Name? && i <= |ps[k].text| && Boundary(ps[k].text, i)
    ensures off[k] + i <= |t| && Boundary(t, off[k] + i)
  {
    var text := ps[k].text;
    assert ProperPiece(ps[k], k + 1 == |ps|) && Sits(ps, t, off, k);
    PieceEdges(ps, t, off, k);
    assert i > 0 && t[off[k] + (i - 1)] == TextOf(ps[k])[i - 1];
    if i < |text| { assert t[off[k] + i] == TextOf(ps[k])[i]; }
  }

  lemma NamedShows(ps: seq<Piece>, t: string, off: seq<nat>, k: nat, i: nat, name: string)
    requires Proper(ps) && Layout(ps, t, off) && WithinName(ps, k, i, name)
    ensures MentionedAt(t, off[k] + i, name)
  {
    BoundaryInName(ps, t, off, k, i);
    BoundaryInName(ps, t, off, k, i + |name|);
    assert Sits(ps, t, off, k);
    NameChars(ps, t, off, k, off[k] + i, off[k] + i + |name|);
    hide Boundary, SameWord, Proper;
  }

  /** A name of which no character is a blank, a quote or a delimiter. */
  predicate Spellable(name: string) {
    forall i :: 0 <= i < |name| ==> !IsSpace(name[i]) && !Delimits(name[i]) && name[i] != '\''
  }

  lemma SpellableText(w: string, name: string)
    requires SameWord(w, name) && Spellable(name)
    ensures Spellable(w)
  {
    forall i | 0 <= i < |w| ensures !IsSpace(w[i]) && !Delimits(w[i]) && w[i] != '\'' {
      assert Fold(w[i]) == Fold(name[i]);
    }
  }

  lemma {:induction false} SpellingRun(ps: seq<Piece>, t: string, off: seq<nat>, k: nat, n: nat)
    requires Proper(ps) && Layout(ps, t, off) && k <= |ps| && off[k] + n <= |t|
    requires forall j :: off[k] <= j < off[k] + n ==> !IsSpace(t[j]) && !Delimits(t[j]) && t[j] != '\''
    ensures k + n <= |ps| && forall j :: k <= j < k + n ==> ps[j].Ch?
    decreases n
  {
    if n > 0 {
      CharOfCode(ps, t, off, k);
      assert ProperPiece(ps[k], k + 1 == |ps|);
      SpellingRun(ps, t, off, k + 1, n - 1);
    }
  }

  lemma SpelledHasOrigin(ps: seq<Piece>, t: string, off: seq<nat>, k: nat, name: string)
    requires Proper(ps) && Layout(ps, t, off) && k < |ps| && MentionedAt(t, off[k], name)
    requires forall j :: off[k] <= j < off[k] + |name| ==> !IsSpace(t[j]) && !Delimits(t[j]) && t[j] != '\''
    ensures SpelledAt(ps, k, name)
  {
    SpellingRun(ps, t, off, k, |name|);
    CharsRun(ps, t, off, k, |name|);
    BoundaryOfPiece(ps, t, off, k);
    BoundaryOfPiece(ps, t, off, k + |name|);
  }

  lemma NamedHasOrigin(ps: seq<Piece>, t: string, off: seq<nat>, k: nat, i: nat, name: string)
    requires Proper(ps) && Layout(ps, t, off) && k < |ps| && ps[k].Name? && off[k] <= i < off[k + 1]
    requires MentionedAt(t, i, name)
    requires forall j :: i <= j < i + |name| ==> !IsSpace(t[j]) && !Delimits(t[j]) && t[j] != '\''
    ensures WithinName(ps, k, i - off[k], name)
  {
    NameEdges(ps, t, off, k);
    assert off[k] < i;
    assert i + |name| <= off[k + 1];
    NameChars(ps, t, off, k, i, i + |name|);
    NameChars(ps, t, off, k, i - 1, i);
    var text := ps[k].text;
    assert Sits(ps, t, off, k);
    assert forall j :: 0 <= j < |text| ==> t[off[k] + j] == TextOf(ps[k])[j] == text[j];
    BoundaryFromName(ps, t, off, k, i);
    BoundaryFromName(ps, t, off, k, i + |name|);
  }

  lemma BoundaryFromName(ps: seq<Piece>, t: string, off: seq<nat>, k: nat, i: nat)
    requires Proper(ps) && Layout(ps, t, off) && k < |ps| && ps[k].Name? && off[k] < i <= off[k + 1] <= |t|
    requires Boundary(t, i) && (i == off[k + 1] ==> k + 1 == |ps|)
    ensures off[k] + |ps[k].text| == off[k + 1] && Boundary(ps[k].text, i - off[k])
  {
    var text := ps[k].text;
    assert Sits(ps, t, off, k);
    assert t[off[k] + (i - off[k] - 1)] == TextOf(ps[k])[i - off[k] - 1];
    if i < off[k + 1] { assert t[off[k] + (i - off[k])] == TextOf(ps[k])[i - off[k]]; }
  }

  lemma MentionHasOrigin(ps: seq<Piece>, t: string, off: seq<nat>, i: nat, name: string)
    requires Proper(ps) && Layout(ps, t, off) && MentionedAt(t, i, name) && Spellable(name)
    ensures CodeMentions(ps, name)
  {
    SpellableText(t[i..i + |name|], name);
    forall j | i <= j < i + |name| ensures !IsSpace(t[j]) && !Delimits(t[j]) && t[j] != '\'' {
      assert t[i..i + |name|][j - i] == t[j];
    }
    var k := PieceAt(ps, t, off, i, |ps|);
    hide Boundary, SameWord, Spellable, SpelledAt, MentionedAt;
    CharOfCode(ps, t, off, k);
    assert ProperPiece(ps[k], k + 1 == |ps|) && Sits(ps, t, off, k);
    assert t[off[k] + (i - off[k])] == TextOf(ps[k])[i - off[k]];
    if ps[k].Name? {
      NamedHasOrigin(ps, t, off, k, i, name);
    } else {
      SpelledHasOrigin(ps, t, off, k, name);
    }
  }

  lemma BoundaryInWindow(t: string, a: nat, b: nat, i: nat)
    requires Window(t, a, b) && a <= i <= b
    ensures Boundary(t[a..b], i - a) <==> Boundary(t, i)
  {
    if i > a { assert t[a..b][i - a - 1] == t[i - 1]; }
    if i < b { assert t[a..b][i - a] == t[i]; }
  }

  lemma BoundaryIsInside(t: string, a: nat, b: nat, i: nat)
    requires Window(t, a, b) && i <= |t| && Boundary(t, i)
    ensures a <= i <= b
  {
  }

  lemma MentionInWindow(t: string, a: nat, b: nat, i: nat, name: string)
    requires Window(t, a, b) && MentionedAt(t, i, name)
    ensures a <= i && MentionedAt(t[a..b], i - a, name)
  {
    BoundaryIsInside(t, a, b, i);
    BoundaryIsInside(t, a, b, i + |name|);
    BoundaryInWindow(t, a, b, i);
    BoundaryInWindow(t, a, b, i + |name|);
    hide Boundary, SameWord, Window;
    SliceOfSlice(t, a, b, i - a, i - a + |name|);
  }

  lemma MentionOutOfWindow(t: string, a: nat, b: nat, i: nat, name: string)
    requires a <= b <= |t| && Window(t, a, b) && MentionedAt(t[a..b], i, name)
    ensures MentionedAt(t, a + i, name)
  {
    BoundaryInWindow(t, a, b, a + i);
    BoundaryInWindow(t, a, b, a + i + |name|);
    hide Boundary, SameWord, Window;
    SliceOfSlice(t, a, b, i, i + |name|);
  }

  predicate MentionsOne(t: string, name: string) {
    exists i :: 0 <= i <= |t| && MentionedAt(t, i, name)
  }

  lemma TrimInvisibleToMentions(t: string, name: string)
    ensures MentionsOne(Trim(t), name) <==> MentionsOne(t, name)
  {
    TrimIsWindow(t);
    var a, b, u := InkStart(t), InkEnd(t), Trim(t);
    assert a <= b <= |t|;
    hide MentionedAt, Window;
    if MentionsOne(t, name) {
      var i :| 0 <= i <= |t| && MentionedAt(t, i, name);
      MentionInWindow(t, a, b, i, name);
      MentionFits(u, i - a, name);
    }
    if MentionsOne(u, name) {
      var i :| 0 <= i <= |u| && MentionedAt(u, i, name);
      MentionOutOfWindow(t, a, b, i, name);
      MentionFits(t, a + i, name);
    }
  }

  lemma MentionFits(t: string, i: nat, name: string)
    requires MentionedAt(t, i, name)
    ensures i <= |t|
  {
  }

  lemma NameFits(ps: seq<Piece>, k: nat, i: nat, name: string)
    requires WithinName(ps, k, i, name)
    ensures i <= |TextOf(ps[k])|
  {
  }

  /** A configured name is mentioned when code or a delimited name has it, and, for spellable names, only then. */
  lemma MentionsShow(ps: seq<Piece>, name: string)
    requires Proper(ps)
    ensures CodeMentions(ps, name) ==> MentionsOne(Flat(ps), name)
    ensures Spellable(name) && MentionsOne(Flat(ps), name) ==> CodeMentions(ps, name)
  {
    var t := Flat(ps);
    var off := HasLayout(ps);
    hide SpelledAt, WithinName, MentionedAt, Proper, Spellable;
    if exists k :: 0 <= k < |ps| && SpelledAt(ps, k, name) {
      var k :| 0 <= k < |ps| && SpelledAt(ps, k, name);
      SpellingShows(ps, t, off, k, name);
      MentionFits(t, off[k], name);
    }
    if exists k, i :: 0 <= k < |ps| && 0 <= i <= |TextOf(ps[k])| && WithinName(ps, k, i, name) {
      var k, i :| 0 <= k < |ps| && 0 <= i <= |TextOf(ps[k])| && WithinName(ps, k, i, name);
      NamedShows(ps, t, off, k, i, name);
      MentionFits(t, off[k] + i, name);
    }
    if Spellable(name) && MentionsOne(t, name) {
      var i :| 0 <= i <= |t| && MentionedAt(t, i, name);
      MentionHasOrigin(ps, t, off, i, name);
    }
  }
}
