/** Where a phrase of the stripped text comes from: code, or one name. */
module PhraseOrigins {
  import opened Text
  import opened Words
  import opened Patterns

  /** Some delimited name has the whole phrase in it. */
  predicate NameHasPhrase(ps: seq<Piece>, words: seq<Part>) {
    exists k :: 0 <= k < |ps| && ps[k].Name? && HasPhrase(ps[k].text, words)
  }

  /** The phrase at `i` of the text is code from piece `k` on, or lies in the name `k`. */
  predicate PhraseFrom(ps: seq<Piece>, off: seq<nat>, k: nat, i: nat, words: seq<Part>) {
    && k < |ps| && k < |off|
    && (|| (CodePhraseAt(ps, k, words) && off[k] == i)
        || (ps[k].Name? && off[k] <= i && PhraseAt(ps[k].text, i - off[k], words)))
  }

  /** The blanks between two words contain no delimiter of a name. */
  lemma NoDelimiterIn(t: string, x: nat, y: nat, z: nat)
    requires x <= z < y <= |t| && Blank(t[x..y])
    ensures !Delimits(t[z])
  {
    assert t[x..y][z - x] == t[z];
  }

  lemma NameEdges(ps: seq<Piece>, t: string, off: seq<nat>, k: nat)
    requires Proper(ps) && Layout(ps, t, off) && k < |ps| && ps[k].Name?
    ensures off[k] < off[k + 1] <= |t| && Delimits(t[off[k]])
    ensures k + 1 < |ps| ==> Delimits(t[off[k + 1] - 1])
  {
    var text := ps[k].text;
    assert ProperPiece(ps[k], k + 1 == |ps|) && Sits(ps, t, off, k);
    assert t[off[k] + 0] == TextOf(ps[k])[0] && t[off[k] + (|text| - 1)] == TextOf(ps[k])[|text| - 1];
    PieceEdges(ps, t, off, k);
  }

  lemma NameChars(ps: seq<Piece>, t: string, off: seq<nat>, k: nat, x: nat, y: nat)
    requires Layout(ps, t, off) && k < |ps| && off[k] <= x <= y <= off[k + 1]
    ensures off[k + 1] <= |t| && off[k] + |TextOf(ps[k])| == off[k + 1]
    ensures TextOf(ps[k])[x - off[k]..y - off[k]] == t[x..y]
  {
    assert Sits(ps, t, off, k);
    var text := TextOf(ps[k]);
    forall m | 0 <= m < y - x ensures text[x - off[k]..y - off[k]][m] == t[x..y][m] {
      assert t[off[k] + (x - off[k] + m)] == text[x - off[k] + m];
    }
  }

  /** Pieces that make up blank text are blank pieces. */
  lemma BlanksAreBlank(ps: seq<Piece>, t: string, off: seq<nat>, a: nat, b: nat)
    requires Proper(ps) && Layout(ps, t, off) && a <= b <= |ps| && off[a] <= off[b] <= |t| && Blank(t[off[a]..off[b]])
    ensures BlankPieces(ps, a, b)
  {
    forall k | a <= k < b ensures BlankPiece(ps[k]) {
      OffsetsGrow(ps, t, off, a, k);
      OffsetsGrow(ps, t, off, k + 1, b);
      OffsetsGrow(ps, t, off, k, k + 1);
      BlankText(ps, t, off, k, off[a], off[b]);
    }
  }

  lemma BlankText(ps: seq<Piece>, t: string, off: seq<nat>, k: nat, x: nat, y: nat)
    requires Proper(ps) && Layout(ps, t, off) && k < |ps| && x <= off[k] < off[k + 1] <= y <= |t| && Blank(t[x..y])
    ensures BlankPiece(ps[k])
  {
    PieceEdges(ps, t, off, k);
    NameChars(ps, t, off, k, off[k], off[k + 1]);
    var text := TextOf(ps[k]);
    forall m | 0 <= m < |text| ensures IsSpace(text[m]) { assert t[x..y][off[k] - x + m] == t[off[k] + m] == text[m]; }
    assert ProperPiece(ps[k], k + 1 == |ps|);
  }

  lemma BlanksBetween(ps: seq<Piece>, t: string, off: seq<nat>, a: nat, b: nat)
    requires Proper(ps) && Layout(ps, t, off) && a <= |ps| && b <= |ps| && off[a] < off[b] <= |t|
             && Blank(t[off[a]..off[b]])
    ensures a < b && BlankPieces(ps, a, b)
  {
    if b <= a { OffsetsGrow(ps, t, off, b, a); }
    BlanksAreBlank(ps, t, off, a, b);
  }

  /** Two words of code with blanks between them. */
  lemma {:induction false} CodeGoesOn(ps: seq<Piece>, t: string, off: seq<nat>, k: nat, n: nat, m: nat, j: nat,
                                      words: seq<Part>)
    requires Proper(ps) && Layout(ps, t, off) && CodeWordAt(ps, k, n) && |words| > 1 && m < |ps| && off[m] == j
    requires off[k] + n < j < |t| && Blank(t[off[k] + n..j]) && Fits(Chars(ps[k..k + n]), words[0])
    requires CodePhraseAt(ps, m, words[1..])
    ensures CodePhraseAt(ps, k, words)
  {
    hide CodePhraseAt, Proper, Fits;
    assert k + n < m && BlankPieces(ps, k + n, m) by {
      RunEnd(ps, t, off, k, n);
      BlanksBetween(ps, t, off, k + n, m);
    }
    hide Layout, Blank, BlankPieces, CodeWordAt;
    CodePhraseJoins(ps, k, n, m, words);
  }

  /** A phrase that goes on in a name has begun in it. */
  lemma NameBegins(ps: seq<Piece>, t: string, off: seq<nat>, m: nat, i: nat, n: nat, j: nat)
    requires Proper(ps) && Layout(ps, t, off) && WordAt(t, i, n) && i + n < j < |t| && Blank(t[i + n..j])
    requires m < |ps| && ps[m].Name? && off[m] <= j < off[m + 1] && IsWordChar(t[j])
    ensures off[m] < i
  {
    NameEdges(ps, t, off, m);
    assert IsWordChar(t[i]) && IsWordChar(t[i + n - 1]);
    if i + n <= off[m] < j { NoDelimiterIn(t, i + n, j, off[m]); }
  }

  lemma SamePiece(ps: seq<Piece>, t: string, off: seq<nat>, k: nat, m: nat, i: nat)
    requires Proper(ps) && Layout(ps, t, off) && k < |ps| && m < |ps| && off[k] <= i < off[k + 1]
             && off[m] <= i < off[m + 1]
    ensures k == m
  {
    if k < m { OffsetsGrow(ps, t, off, k + 1, m); }
    if m < k { OffsetsGrow(ps, t, off, m + 1, k); }
  }

  /** A phrase that begins in a name stays in it: the name's closing delimiter is no blank. */
  lemma NameGoesOn(ps: seq<Piece>, t: string, off: seq<nat>, k: nat, i: nat, n: nat, j: nat)
    requires Proper(ps) && Layout(ps, t, off) && k < |ps| && ps[k].Name? && off[k] <= i
             && WordAt(ps[k].text, i - off[k], n)
    requires i + n < j < |t| && Blank(t[i + n..j]) && IsWordChar(t[j])
    ensures j < off[k + 1]
  {
    NameEdges(ps, t, off, k);
    assert Sits(ps, t, off, k);
    if j >= off[k + 1] {
      assert k + 1 < |ps|;
      NameChars(ps, t, off, k, off[k + 1] - 1, off[k + 1]);
      var text := ps[k].text;
      assert text[|text| - 1] == t[off[k + 1] - 1] by {
        assert t[off[k] + (|text| - 1)] == TextOf(ps[k])[|text| - 1];
      }
      assert i + n <= off[k + 1] - 1;
      NoDelimiterIn(t, i + n, j, off[k + 1] - 1);
    }
  }

  lemma StartsWithWord(t: string, i: nat, words: seq<Part>)
    requires words != [] && PhraseAt(t, i, words)
    ensures i < |t| && IsWordChar(t[i])
  {
    var n, j := PhraseSplits(t, i, words);
  }

  /** The rest of a phrase that goes on in the name its first word is in. */
  lemma NameJoins(ps: seq<Piece>, t: string, off: seq<nat>, k: nat, i: nat, n: nat, j: nat, words: seq<Part>)
    requires Proper(ps) && Layout(ps, t, off) && k < |ps| && ps[k].Name? && off[k] <= i
             && WordAt(ps[k].text, i - off[k], n)
    requires |words| > 1 && i + n < j < off[k + 1] <= |t| && Blank(t[i + n..j]) && Fits(t[i..i + n], words[0])
    requires PhraseAt(ps[k].text, j - off[k], words[1..])
    ensures PhraseAt(ps[k].text, i - off[k], words)
  {
    NameChars(ps, t, off, k, i, i + n);
    NameChars(ps, t, off, k, i + n, j);
    PhraseJoins(ps[k].text, i - off[k], n, j - off[k], words);
  }

  /** The name that holds a phrase, seen from its rest: it is the name that holds the first word. */
  lemma RestInName(ps: seq<Piece>, t: string, off: seq<nat>, k: nat, m: nat, i: nat, n: nat, j: nat)
    requires Proper(ps) && Layout(ps, t, off) && WordAt(t, i, n) && ComesFrom(ps, off, k, i, n)
    requires i + n < j < |t| && Blank(t[i + n..j]) && IsWordChar(t[j])
    requires m < |ps| && ps[m].Name? && off[m] <= j < off[m + 1]
    ensures k == m && off[k] <= i && WordAt(ps[k].text, i - off[k], n)
  {
    NameBegins(ps, t, off, m, i, n, j);
    PieceEdges(ps, t, off, k);
    if CodeWordAt(ps, k, n) && off[k] == i {
      RunChar(ps, t, off, k, n, 0);
      assert ps[k].Ch?;
      assert Sits(ps, t, off, k);
      SamePiece(ps, t, off, k, m, i);
    } else {
      assert Sits(ps, t, off, k);
      SamePiece(ps, t, off, k, m, i);
    }
  }

  lemma FromParts(ps: seq<Piece>, t: string, off: seq<nat>, k: nat, m: nat, i: nat, n: nat, j: nat, words: seq<Part>)
    requires Proper(ps) && Layout(ps, t, off) && |words| > 1 && Begins(t, i, n, j, words) && ComesFrom(ps, off, k, i, n)
    requires PhraseFrom(ps, off, m, j, words[1..]) && IsWordChar(t[j])
    ensures PhraseFrom(ps, off, k, i, words)
  {
    if CodePhraseAt(ps, m, words[1..]) && off[m] == j {
      if CodeWordAt(ps, k, n) && off[k] == i {
        NoHiding(ps, t, off, k, n);
        CodeGoesOn(ps, t, off, k, n, m, j, words);
      } else {
        NameGoesOn(ps, t, off, k, i, n, j);
        CodeIsNoName(ps, t, off, k, m, words[1..]);
      }
    } else {
      PhraseInside(ps, t, off, m, j, words[1..]);
      RestInName(ps, t, off, k, m, i, n, j);
      NameJoins(ps, t, off, k, i, n, j, words);
    }
  }

  lemma PhraseInside(ps: seq<Piece>, t: string, off: seq<nat>, m: nat, j: nat, words: seq<Part>)
    requires Layout(ps, t, off) && m < |ps| && ps[m].Name? && off[m] <= j && words != []
             && PhraseAt(ps[m].text, j - off[m], words)
    ensures j < off[m + 1] <= |t|
  {
    StartsWithWord(ps[m].text, j - off[m], words);
    assert Sits(ps, t, off, m);
  }

  lemma CodeIsNoName(ps: seq<Piece>, t: string, off: seq<nat>, k: nat, m: nat, words: seq<Part>)
    requires Proper(ps) && Layout(ps, t, off) && words != [] && CodePhraseAt(ps, m, words) && k < |ps| && ps[k].Name?
    ensures m < |ps| && !(off[k] <= off[m] < off[k + 1])
  {
    var n, h := CodePhraseSplits(ps, m, words);
    PieceEdges(ps, t, off, m);
    if off[k] <= off[m] < off[k + 1] { SamePiece(ps, t, off, k, m, off[m]); }
  }

  /** No gluing, for phrases: the words of a phrase all come from code, or all from one delimited name. */
  lemma {:induction false} PhraseComesFrom(ps: seq<Piece>, t: string, off: seq<nat>, i: nat, words: seq<Part>)
    returns (k: nat)
    requires Proper(ps) && Layout(ps, t, off) && words != [] && PhraseAt(t, i, words)
    ensures PhraseFrom(ps, off, k, i, words)
    decreases |words|
  {
    var n, j := PhraseSplits(t, i, words);
    k := NoGluing(ps, t, off, i, n);
    if |words| > 1 {
      var m := PhraseComesFrom(ps, t, off, j, words[1..]);
      StartsWithWord(t, j, words[1..]);
      hide PhraseAt, Proper, Layout;
      FromParts(ps, t, off, k, m, i, n, j, words);
    } else {
      OneWordFrom(ps, t, off, k, i, n, words);
    }
  }

  lemma OneWordFrom(ps: seq<Piece>, t: string, off: seq<nat>, k: nat, i: nat, n: nat, words: seq<Part>)
    requires Proper(ps) && Layout(ps, t, off) && |words| == 1 && Begins(t, i, n, 0, words)
             && ComesFrom(ps, off, k, i, n)
    ensures PhraseFrom(ps, off, k, i, words)
  {
    hide PhraseAt, CodePhraseAt, Fits;
    if CodeWordAt(ps, k, n) && off[k] == i {
      NoHiding(ps, t, off, k, n);
      CodePhraseJoins(ps, k, n, 0, words);
    } else {
      assert Sits(ps, t, off, k);
      NameChars(ps, t, off, k, i, i + n);
      PhraseJoins(ps[k].text, i - off[k], n, 0, words);
    }
  }

  /** A phrase in a delimited name shows. */
  lemma {:induction false} NamePhraseShows(ps: seq<Piece>, t: string, off: seq<nat>, k: nat, i: nat, words: seq<Part>)
    requires Proper(ps) && Layout(ps, t, off) && k < |ps| && ps[k].Name? && words != []
             && PhraseAt(ps[k].text, i, words)
    ensures off[k] + i < |t| && PhraseAt(t, off[k] + i, words)
    decreases |words|
  {
    hide PhraseAt, Fits, Proper;
    var text := ps[k].text;
    var n, j := PhraseSplits(text, i, words);
    NameWordShows(ps, t, off, k, i, n);
    if |words| > 1 {
      NamePhraseShows(ps, t, off, k, j, words[1..]);
      assert Sits(ps, t, off, k);
      NameChars(ps, t, off, k, off[k] + i + n, off[k] + j);
      PhraseJoins(t, off[k] + i, n, off[k] + j, words);
    } else {
      PhraseJoins(t, off[k] + i, n, 0, words);
    }
  }

  /** A phrase is in the output iff it is in the code or in one delimited name of the batch. */
  lemma PhrasesSurviveExactly(ps: seq<Piece>, words: seq<Part>)
    requires Proper(ps) && words != []
    ensures HasPhrase(Flat(ps), words) <==> HasCodePhrase(ps, words) || NameHasPhrase(ps, words)
  {
    var t := Flat(ps);
    var off := HasLayout(ps);
    if HasPhrase(t, words) {
      var i :| 0 <= i < |t| && PhraseAt(t, i, words);
      var k := PhraseComesFrom(ps, t, off, i, words);
      if !CodePhraseAt(ps, k, words) { StartsWithWord(ps[k].text, i - off[k], words); }
    }
    if HasCodePhrase(ps, words) { CodePhraseFlat(ps, words); }
    if NameHasPhrase(ps, words) {
      var k :| 0 <= k < |ps| && ps[k].Name? && HasPhrase(ps[k].text, words);
      var i :| 0 <= i < |ps[k].text| && PhraseAt(ps[k].text, i, words);
      NamePhraseShows(ps, t, off, k, i, words);
    }
  }

  // ── Words with a mark ──

  /** A mark that is none of the characters noise and names begin or end with. */
  predicate Neutral(c: char) {
    !IsSpace(c) && !IsWordChar(c) && !Delimits(c) && c != '\''
  }

  predicate NameHasBefore(ps: seq<Piece>, alts: seq<string>, mark: char) {
    exists k :: 0 <= k < |ps| && ps[k].Name? && HasBefore(ps[k].text, alts, mark)
  }

  predicate NameHasAfter(ps: seq<Piece>, mark: char, alts: seq<string>) {
    exists k :: 0 <= k < |ps| && ps[k].Name? && HasAfter(ps[k].text, mark, alts)
  }

  /** A mark in the text is code, or in a name. */
  lemma MarkComesFrom(ps: seq<Piece>, t: string, off: seq<nat>, j: nat) returns (m: nat)
    requires Proper(ps) && Layout(ps, t, off) && j < |t| && Neutral(t[j])
    ensures m < |ps| && off[m] <= j < off[m + 1]
    ensures (ps[m] == Ch(t[j]) && off[m] == j) || (ps[m].Name? && off[m] < j)
  {
    m := PieceAt(ps, t, off, j, |ps|);
    assert ProperPiece(ps[m], m + 1 == |ps|) && Sits(ps, t, off, m);
    assert t[off[m] + (j - off[m])] == TextOf(ps[m])[j - off[m]];
    match ps[m]
    case Ch(_) =>
    case Name(_) =>
    case Comment(_) => assert false;
    case Value(_) => assert false;
  }

  lemma WordEnds(t: string, i: nat, n: nat)
    requires WordAt(t, i, n)
    ensures IsWordChar(t[i]) && IsWordChar(t[i + n - 1])
  {
  }

  /** A word and a mark with only blanks between them, in this order: both code, or both in one name. */
  lemma BeforeTogether(ps: seq<Piece>, t: string, off: seq<nat>, k: nat, i: nat, n: nat, m: nat, j: nat)
    requires Proper(ps) && Layout(ps, t, off) && WordAt(t, i, n) && ComesFrom(ps, off, k, i, n)
    requires i + n <= j < |t| && Blank(t[i + n..j]) && Neutral(t[j]) && m < |ps| && off[m] <= j < off[m + 1]
    requires (ps[m] == Ch(t[j]) && off[m] == j) || (ps[m].Name? && off[m] < j)
    ensures ps[m].Ch? ==> CodeWordAt(ps, k, n) && off[k] == i && k + n <= m && BlankPieces(ps, k + n, m)
    ensures ps[m].Name? ==> k == m && off[k] <= i && WordAt(ps[k].text, i - off[k], n)
  {
    WordEnds(t, i, n);
    PieceEdges(ps, t, off, k);
    if ps[m].Name? {
      NameEdges(ps, t, off, m);
      if i + n <= off[m] { NoDelimiterIn(t, i + n, j, off[m]); }
      if CodeWordAt(ps, k, n) && off[k] == i {
        RunChar(ps, t, off, k, n, 0);
      } else {
        assert Sits(ps, t, off, k);
      }
      SamePiece(ps, t, off, k, m, i);
    } else {
      BeforeInCode(ps, t, off, k, i, n, m, j);
    }
  }

  lemma BeforeInCode(ps: seq<Piece>, t: string, off: seq<nat>, k: nat, i: nat, n: nat, m: nat, j: nat)
    requires Proper(ps) && Layout(ps, t, off) && WordAt(t, i, n) && ComesFrom(ps, off, k, i, n)
    requires i + n <= j < |t| && Blank(t[i + n..j]) && Neutral(t[j]) && m < |ps| && off[m] == j && ps[m].Ch?
    ensures CodeWordAt(ps, k, n) && off[k] == i && k + n <= m && BlankPieces(ps, k + n, m)
  {
    if CodeWordAt(ps, k, n) && off[k] == i {
      RunEnd(ps, t, off, k, n);
      if m < k + n { OffsetsGrow(ps, t, off, m, k + n); }
      BlanksAreBlank(ps, t, off, k + n, m);
    } else {
      NameEdges(ps, t, off, k);
      assert Sits(ps, t, off, k);
      CharOfCode(ps, t, off, m);
      if off[k + 1] <= j { NameShutsBetween(ps, t, off, k, i, n, j); }
      SamePiece(ps, t, off, k, m, j);
    }
  }

  /** The closing delimiter of a name stands between its last word and what comes after the name. */
  lemma NameShutsBetween(ps: seq<Piece>, t: string, off: seq<nat>, k: nat, i: nat, n: nat, j: nat)
    requires Proper(ps) && Layout(ps, t, off) && k < |ps| && ps[k].Name? && off[k] <= i
             && WordAt(ps[k].text, i - off[k], n)
    requires i + n <= j < |t| && off[k + 1] <= j
    ensures !Blank(t[i + n..j])
  {
    NameEdges(ps, t, off, k);
    assert Sits(ps, t, off, k) && k + 1 < |ps|;
    var text := ps[k].text;
    assert text[|text| - 1] == t[off[k + 1] - 1] by {
      assert t[off[k] + (|text| - 1)] == TextOf(ps[k])[|text| - 1];
    }
    if Blank(t[i + n..j]) { NoDelimiterIn(t, i + n, j, off[k + 1] - 1); }
  }

  lemma NameBefore(ps: seq<Piece>, t: string, off: seq<nat>, k: nat, i: nat, n: nat, j: nat, alts: seq<string>,
                   mark: char)
    requires Layout(ps, t, off) && k < |ps| && ps[k].Name? && off[k] <= i && WordAt(ps[k].text, i - off[k], n)
    requires BeforeAt(t, i, n, j, alts, mark) && j < off[k + 1]
    ensures BeforeAt(ps[k].text, i - off[k], n, j - off[k], alts, mark)
  {
    NameChars(ps, t, off, k, i, i + n);
    NameChars(ps, t, off, k, i + n, j);
    assert Sits(ps, t, off, k);
    assert t[off[k] + (j - off[k])] == TextOf(ps[k])[j - off[k]];
    hide WordAt, OneOf, Blank, Layout;
  }

  lemma NameBeforeShows(ps: seq<Piece>, t: string, off: seq<nat>, k: nat, i: nat, n: nat, j: nat,
                        alts: seq<string>, mark: char)
    requires Proper(ps) && Layout(ps, t, off) && k < |ps| && ps[k].Name? && BeforeAt(ps[k].text, i, n, j, alts, mark)
    ensures BeforeAt(t, off[k] + i, n, off[k] + j, alts, mark)
  {
    NameWordShows(ps, t, off, k, i, n);
    assert Sits(ps, t, off, k);
    assert t[off[k] + j] == TextOf(ps[k])[j];
    NameChars(ps, t, off, k, off[k] + i + n, off[k] + j);
    hide WordAt, OneOf, Blank, Layout;
  }

  lemma BeforeComesFrom(ps: seq<Piece>, t: string, off: seq<nat>, alts: seq<string>, mark: char)
    requires Proper(ps) && Layout(ps, t, off) && Neutral(mark) && HasBefore(t, alts, mark)
    ensures HasCodeBefore(ps, alts, mark) || NameHasBefore(ps, alts, mark)
  {
    var i, n, j :| 0 <= i < |t| && 0 < n <= |t| && 0 <= j < |t| && BeforeAt(t, i, n, j, alts, mark);
    var k := NoGluing(ps, t, off, i, n);
    var m := MarkComesFrom(ps, t, off, j);
    BeforeTogether(ps, t, off, k, i, n, m, j);
    if ps[m].Name? {
      NameBefore(ps, t, off, k, i, n, j, alts, mark);
      assert HasBefore(ps[k].text, alts, mark);
    } else {
      NoHiding(ps, t, off, k, n);
      assert CodeBeforeAt(ps, k, n, m, alts, mark);
    }
  }

  /** A word with a mark behind it is in the output iff it is in the code or in one delimited name. */
  lemma BeforeSurvivesExactly(ps: seq<Piece>, alts: seq<string>, mark: char)
    requires Proper(ps) && Neutral(mark)
    ensures HasBefore(Flat(ps), alts, mark) <==> HasCodeBefore(ps, alts, mark) || NameHasBefore(ps, alts, mark)
  {
    var t := Flat(ps);
    var off := HasLayout(ps);
    if HasBefore(t, alts, mark) { BeforeComesFrom(ps, t, off, alts, mark); }
    if HasCodeBefore(ps, alts, mark) {
      var k, n, m :| 0 <= k < |ps| && 0 < n <= |ps| && 0 <= m < |ps| && CodeBeforeAt(ps, k, n, m, alts, mark);
      BeforeShows(ps, t, off, k, n, m, alts, mark);
      assert HasBefore(t, alts, mark);
    }
    if NameHasBefore(ps, alts, mark) {
      var k :| 0 <= k < |ps| && ps[k].Name? && HasBefore(ps[k].text, alts, mark);
      var u := ps[k].text;
      var i, n, j :| 0 <= i < |u| && 0 < n <= |u| && 0 <= j < |u| && BeforeAt(u, i, n, j, alts, mark);
      NameBeforeShows(ps, t, off, k, i, n, j, alts, mark);
      assert HasBefore(t, alts, mark);
    }
  }

  /** A mark and a word with only blanks between them, in this order: both code, or both in one name. */
  lemma AfterTogether(ps: seq<Piece>, t: string, off: seq<nat>, k: nat, i: nat, m: nat, j: nat, n: nat)
    requires Proper(ps) && Layout(ps, t, off) && WordAt(t, j, n) && ComesFrom(ps, off, m, j, n)
    requires i < j && Blank(t[i + 1..j]) && Neutral(t[i]) && k < |ps| && off[k] <= i < off[k + 1]
    requires (ps[k] == Ch(t[i]) && off[k] == i) || (ps[k].Name? && off[k] < i)
    ensures ps[k].Ch? ==> CodeWordAt(ps, m, n) && off[m] == j && k < m && BlankPieces(ps, k + 1, m)
    ensures ps[k].Name? ==> k == m && off[m] <= j && WordAt(ps[m].text, j - off[m], n)
  {
    WordEnds(t, j, n);
    PieceEdges(ps, t, off, m);
    if ps[k].Name? {
      WordStaysInName(ps, t, off, k, i, j);
      if CodeWordAt(ps, m, n) && off[m] == j {
        RunChar(ps, t, off, m, n, 0);
        CharOfCode(ps, t, off, m);
      } else {
        assert Sits(ps, t, off, m);
      }
      SamePiece(ps, t, off, k, m, j);
    } else {
      AfterInCode(ps, t, off, k, i, m, j, n);
    }
  }

  lemma WordStaysInName(ps: seq<Piece>, t: string, off: seq<nat>, k: nat, i: nat, j: nat)
    requires Proper(ps) && Layout(ps, t, off) && k < |ps| && ps[k].Name? && off[k] < i < off[k + 1]
    requires i < j < |t| && Blank(t[i + 1..j]) && Neutral(t[i])
    ensures off[k] <= j < off[k + 1]
  {
    NameEdges(ps, t, off, k);
    if off[k + 1] <= j && i + 1 <= off[k + 1] - 1 { NoDelimiterIn(t, i + 1, j, off[k + 1] - 1); }
  }

  lemma AfterInCode(ps: seq<Piece>, t: string, off: seq<nat>, k: nat, i: nat, m: nat, j: nat, n: nat)
    requires Proper(ps) && Layout(ps, t, off) && WordAt(t, j, n) && ComesFrom(ps, off, m, j, n) && IsWordChar(t[j])
    requires i < j && Blank(t[i + 1..j]) && Neutral(t[i]) && k < |ps| && ps[k].Ch? && off[k] == i
    ensures CodeWordAt(ps, m, n) && off[m] == j && k < m && BlankPieces(ps, k + 1, m)
  {
    CharOfCode(ps, t, off, k);
    if CodeWordAt(ps, m, n) && off[m] == j {
      if m <= k { OffsetsGrow(ps, t, off, m, k); }
      BlanksAreBlank(ps, t, off, k + 1, m);
    } else {
      NameEdges(ps, t, off, m);
      assert Sits(ps, t, off, m);
      if off[m] <= i { SamePiece(ps, t, off, k, m, i); }
      if i < off[m] < j { NoDelimiterIn(t, i + 1, j, off[m]); }
    }
  }

  lemma NameAfter(ps: seq<Piece>, t: string, off: seq<nat>, k: nat, i: nat, j: nat, n: nat, mark: char,
                  alts: seq<string>)
    requires Layout(ps, t, off) && k < |ps| && ps[k].Name? && off[k] <= i < off[k + 1] && j + n <= off[k + 1]
    requires AfterAt(t, i, j, n, mark, alts) && WordAt(ps[k].text, j - off[k], n)
    ensures AfterAt(ps[k].text, i - off[k], j - off[k], n, mark, alts)
  {
    NameChars(ps, t, off, k, i + 1, j);
    NameChars(ps, t, off, k, j, j + n);
    assert Sits(ps, t, off, k);
    assert t[off[k] + (i - off[k])] == TextOf(ps[k])[i - off[k]];
    hide WordAt, OneOf, Blank, Layout;
  }

  lemma NameAfterShows(ps: seq<Piece>, t: string, off: seq<nat>, k: nat, i: nat, j: nat, n: nat,
                       mark: char, alts: seq<string>)
    requires Proper(ps) && Layout(ps, t, off) && k < |ps| && ps[k].Name? && AfterAt(ps[k].text, i, j, n, mark, alts)
    ensures AfterAt(t, off[k] + i, off[k] + j, n, mark, alts)
  {
    NameWordShows(ps, t, off, k, j, n);
    assert Sits(ps, t, off, k);
    assert t[off[k] + i] == TextOf(ps[k])[i];
    NameChars(ps, t, off, k, off[k] + i + 1, off[k] + j);
    hide WordAt, OneOf, Blank, Layout;
  }

  lemma AfterComesFrom(ps: seq<Piece>, t: string, off: seq<nat>, mark: char, alts: seq<string>)
    requires Proper(ps) && Layout(ps, t, off) && Neutral(mark) && HasAfter(t, mark, alts)
    ensures HasCodeAfter(ps, mark, alts) || NameHasAfter(ps, mark, alts)
  {
    var i, j, n :| 0 <= i < |t| && 0 <= j < |t| && 0 < n <= |t| && AfterAt(t, i, j, n, mark, alts);
    var k := MarkComesFrom(ps, t, off, i);
    var m := NoGluing(ps, t, off, j, n);
    AfterTogether(ps, t, off, k, i, m, j, n);
    if ps[k].Name? {
      assert Sits(ps, t, off, k);
      NameAfter(ps, t, off, k, i, j, n, mark, alts);
      assert HasAfter(ps[k].text, mark, alts);
    } else {
      NoHiding(ps, t, off, m, n);
      assert CodeAfterAt(ps, k, m, n, mark, alts);
    }
  }

  /** A mark with a word behind it is in the output iff it is in the code or in one delimited name. */
  lemma AfterSurvivesExactly(ps: seq<Piece>, mark: char, alts: seq<string>)
    requires Proper(ps) && Neutral(mark)
    ensures HasAfter(Flat(ps), mark, alts) <==> HasCodeAfter(ps, mark, alts) || NameHasAfter(ps, mark, alts)
  {
    var t := Flat(ps);
    var off := HasLayout(ps);
    if HasAfter(t, mark, alts) { AfterComesFrom(ps, t, off, mark, alts); }
    if HasCodeAfter(ps, mark, alts) {
      var k, m, n :| 0 <= k < |ps| && 0 <= m < |ps| && 0 < n <= |ps| && CodeAfterAt(ps, k, m, n, mark, alts);
      AfterShows(ps, t, off, k, m, n, mark, alts);
      assert HasAfter(t, mark, alts);
    }
    if NameHasAfter(ps, mark, alts) {
      var k :| 0 <= k < |ps| && ps[k].Name? && HasAfter(ps[k].text, mark, alts);
      var u := ps[k].text;
      var i, j, n :| 0 <= i < |u| && 0 <= j < |u| && 0 < n <= |u| && AfterAt(u, i, j, n, mark, alts);
      NameAfterShows(ps, t, off, k, i, j, n, mark, alts);
      assert HasAfter(t, mark, alts);
    }
  }
}
