/** Words of a text and words of code: stripping neither hides, nor glues, nor invents one. */
module Words {
  import opened Text

  /** A maximal run of word characters: what `\b...\b` delimits. */
  predicate WordAt(t: string, i: nat, n: nat) {
    && 0 < n && i + n <= |t|
    && (forall j :: i <= j < i + n ==> IsWordChar(t[j]))
    && (i > 0 ==> !IsWordChar(t[i - 1]))
    && (i + n < |t| ==> !IsWordChar(t[i + n]))
  }

  /**
   * What a piece of a batch is once noise is stripped: a character of code, a delimited name, what is
   * left of a comment, or of a literal.
   */
  datatype Piece = Ch(c: char) | Name(text: string) | Comment(text: string) | Value(text: string)

  function TextOf(p: Piece): string {
    match p
    case Ch(c) => [c]
    case Name(text) => text
    case Comment(text) => text
    case Value(text) => text
  }

  function Flat(ps: seq<Piece>): string {
    if ps == [] then "" else TextOf(ps[0]) + Flat(ps[1..])
  }

  predicate Delimits(c: char) {
    c == '[' || c == ']' || c == '"'
  }

  /**
   * What is left of a comment is blank, of a literal its quotes; a name opens with a delimiter and, unless it is the
   * last piece, closes with one.
   */
  predicate Proper(ps: seq<Piece>) {
    forall k :: 0 <= k < |ps| ==> ProperPiece(ps[k], k + 1 == |ps|)
  }

  predicate ProperPiece(p: Piece, last: bool) {
    match p
    case Ch(_) => true
    case Name(text) => text != "" && Delimits(text[0]) && (!last ==> Delimits(text[|text| - 1]))
    case Comment(text) => text != "" && Blank(text)
    case Value(text) => text != "" && forall i :: 0 <= i < |text| ==> text[i] == '\''
  }

  predicate WordPiece(p: Piece) {
    p.Ch? && IsWordChar(p.c)
  }

  /** The characters of a run of code. */
  function Chars(ps: seq<Piece>): string {
    seq(|ps|, j requires 0 <= j < |ps| => if ps[j].Ch? then ps[j].c else ' ')
  }

  /** A maximal run of word characters in the code of a batch; noise and names delimit it. */
  predicate CodeWordAt(ps: seq<Piece>, k: nat, n: nat) {
    && 0 < n && k + n <= |ps|
    && (forall j :: k <= j < k + n ==> WordPiece(ps[j]))
    && (k > 0 ==> !WordPiece(ps[k - 1]))
    && (k + n < |ps| ==> !WordPiece(ps[k + n]))
  }

  predicate InPlace(p: Piece, t: string, o: nat) {
    o + |TextOf(p)| <= |t| && forall j :: 0 <= j < |TextOf(p)| ==> t[o + j] == TextOf(p)[j]
  }

  /** Piece `k` sits at `off[k]` in `t`, and the next one right behind it. */
  predicate Sits(ps: seq<Piece>, t: string, off: seq<nat>, k: nat) {
    k < |ps| && k + 1 < |off| && InPlace(ps[k], t, off[k]) && off[k] + |TextOf(ps[k])| == off[k + 1]
  }

  /** `off` says where each piece of `ps` sits in the text `t`, which is their concatenation. */
  predicate Layout(ps: seq<Piece>, t: string, off: seq<nat>) {
    |off| == |ps| + 1 && off[0] == 0 && off[|ps|] == |t| && forall k :: 0 <= k < |ps| ==> Sits(ps, t, off, k)
  }

  lemma Shift(p: Piece, first: string, tail: string, o: nat)
    requires InPlace(p, tail, o)
    ensures InPlace(p, first + tail, |first| + o)
  {
    forall j | 0 <= j < |TextOf(p)| ensures (first + tail)[|first| + o + j] == TextOf(p)[j] {
      assert tail[o + j] == TextOf(p)[j];
    }
  }

  /** Where the pieces sit once a first one of length `n` is put in front of them. */
  predicate Shifted(off: seq<nat>, n: nat, s: seq<nat>) {
    |s| == |off| + 1 && s[0] == 0 && forall k :: 0 <= k < |off| ==> s[k + 1] == n + off[k]
  }

  lemma ShiftBy(off: seq<nat>, n: nat) returns (s: seq<nat>)
    ensures Shifted(off, n, s)
  {
    s := [0] + seq(|off|, k requires 0 <= k < |off| => n + off[k]);
  }

  lemma LaterInPlace(ps: seq<Piece>, off: seq<nat>, k: nat)
    requires 0 < k < |ps| && Layout(ps[1..], Flat(ps[1..]), off)
    ensures InPlace(ps[k], Flat(ps), |TextOf(ps[0])| + off[k - 1]) && off[k - 1] + |TextOf(ps[k])| == off[k]
  {
    assert Sits(ps[1..], Flat(ps[1..]), off, k - 1) && ps[1..][k - 1] == ps[k];
    Shift(ps[k], TextOf(ps[0]), Flat(ps[1..]), off[k - 1]);
  }

  lemma {:induction false} SitsShifted(ps: seq<Piece>, off: seq<nat>, s: seq<nat>, k: nat)
    requires ps != [] && k < |ps| && Layout(ps[1..], Flat(ps[1..]), off) && Shifted(off, |TextOf(ps[0])|, s)
    ensures Sits(ps, Flat(ps), s, k)
  {
    assert s[k + 1] == |TextOf(ps[0])| + off[k];
    if k > 0 {
      LaterInPlace(ps, off, k);
      hide InPlace, TextOf, Flat, Layout;
      assert s[k - 1 + 1] == |TextOf(ps[0])| + off[k - 1];
    } else {
      FirstInPlace(ps);
    }
  }

  lemma FirstInPlace(ps: seq<Piece>)
    requires ps != []
    ensures InPlace(ps[0], Flat(ps), 0)
  {
  }

  lemma {:induction false} HasLayout(ps: seq<Piece>) returns (off: seq<nat>)
    ensures Layout(ps, Flat(ps), off)
  {
    if ps == [] {
      off := [0];
    } else {
      var rest := HasLayout(ps[1..]);
      off := ShiftBy(rest, |TextOf(ps[0])|);
      assert off[|ps|] == |TextOf(ps[0])| + rest[|ps| - 1];
      forall k | 0 <= k < |ps| ensures Sits(ps, Flat(ps), off, k) {
        SitsShifted(ps, rest, off, k);
      }
    }
  }

  lemma {:induction false} RunInPlace(ps: seq<Piece>, t: string, off: seq<nat>, k: nat, n: nat)
    requires Layout(ps, t, off) && k + n <= |ps| && forall j :: k <= j < k + n ==> WordPiece(ps[j])
    ensures off[k + n] == off[k] + n
    ensures forall j :: k <= j < k + n ==> off[j] == off[k] + (j - k)
  {
    if n > 0 {
      RunInPlace(ps, t, off, k, n - 1);
      assert WordPiece(ps[k + n - 1]) && Sits(ps, t, off, k + n - 1);
    }
  }

  /** The first and, but for the last piece, the last character of a piece tell whether it is code. */
  lemma PieceEdges(ps: seq<Piece>, t: string, off: seq<nat>, k: nat)
    requires Proper(ps) && Layout(ps, t, off) && k < |ps|
    ensures off[k] < off[k + 1] <= |t|
    ensures IsWordChar(t[off[k]]) <==> WordPiece(ps[k])
    ensures k + 1 < |ps| ==> (IsWordChar(t[off[k + 1] - 1]) <==> WordPiece(ps[k]))
  {
    var text := TextOf(ps[k]);
    assert ProperPiece(ps[k], k + 1 == |ps|) && Sits(ps, t, off, k);
    assert t[off[k] + 0] == text[0] && t[off[k] + (|text| - 1)] == text[|text| - 1];
  }

  lemma RunChar(ps: seq<Piece>, t: string, off: seq<nat>, k: nat, n: nat, m: nat)
    requires Layout(ps, t, off) && k + n <= |ps| && forall j :: k <= j < k + n ==> WordPiece(ps[j])
    requires m < n
    ensures WordPiece(ps[k + m]) && off[k] + m < |t| && t[off[k] + m] == ps[k + m].c
  {
    RunInPlace(ps, t, off, k, m);
    assert Sits(ps, t, off, k + m);
    assert t[off[k + m] + 0] == TextOf(ps[k + m])[0];
  }

  lemma RunText(ps: seq<Piece>, t: string, off: seq<nat>, k: nat, n: nat)
    requires Layout(ps, t, off) && k + n <= |ps| && forall j :: k <= j < k + n ==> WordPiece(ps[j])
    ensures off[k + n] == off[k] + n <= |t|
    ensures t[off[k]..off[k] + n] == Chars(ps[k..k + n])
    ensures forall j :: off[k] <= j < off[k] + n ==> IsWordChar(t[j])
  {
    RunInPlace(ps, t, off, k, n);
    if n > 0 { RunChar(ps, t, off, k, n, n - 1); } else if k < |ps| { assert Sits(ps, t, off, k); }
    var got, want := t[off[k]..off[k] + n], Chars(ps[k..k + n]);
    forall m | 0 <= m < n ensures got[m] == want[m] { RunChar(ps, t, off, k, n, m); }
    forall j | off[k] <= j < off[k] + n ensures IsWordChar(t[j]) { RunChar(ps, t, off, k, n, j - off[k]); }
  }

  /** No hiding: a word in code is a whole word of the output, at its own place. */
  lemma NoHiding(ps: seq<Piece>, t: string, off: seq<nat>, k: nat, n: nat)
    requires Proper(ps) && Layout(ps, t, off) && CodeWordAt(ps, k, n)
    ensures WordAt(t, off[k], n) && t[off[k]..off[k] + n] == Chars(ps[k..k + n])
  {
    RunText(ps, t, off, k, n);
    RunEdges(ps, t, off, k, n);
  }

  lemma RunEdges(ps: seq<Piece>, t: string, off: seq<nat>, k: nat, n: nat)
    requires Proper(ps) && Layout(ps, t, off) && CodeWordAt(ps, k, n) && off[k + n] == off[k] + n <= |t|
    ensures off[k] > 0 ==> !IsWordChar(t[off[k] - 1])
    ensures off[k] + n < |t| ==> !IsWordChar(t[off[k] + n])
  {
    if k > 0 { NoWordBefore(ps, t, off, k); }
    if k + n < |ps| { NoWordAfter(ps, t, off, k + n); }
  }

  lemma NoWordBefore(ps: seq<Piece>, t: string, off: seq<nat>, k: nat)
    requires Proper(ps) && Layout(ps, t, off) && 0 < k < |ps| && !WordPiece(ps[k - 1])
    ensures 0 < off[k] <= |t| && !IsWordChar(t[off[k] - 1])
  {
    PieceEdges(ps, t, off, k - 1);
  }

  lemma NoWordAfter(ps: seq<Piece>, t: string, off: seq<nat>, k: nat)
    requires Proper(ps) && Layout(ps, t, off) && k < |ps| && !WordPiece(ps[k])
    ensures off[k] < |t| && !IsWordChar(t[off[k]])
  {
    PieceEdges(ps, t, off, k);
  }

  /** The piece a position of the output belongs to. */
  lemma {:induction false} PieceAt(ps: seq<Piece>, t: string, off: seq<nat>, i: nat, m: nat) returns (k: nat)
    requires Layout(ps, t, off) && 0 < m <= |ps| && i < off[m]
    ensures k < m && off[k] <= i < off[k + 1]
  {
    if off[m - 1] <= i {
      k := m - 1;
    } else {
      k := PieceAt(ps, t, off, i, m - 1);
    }
  }

  /** Where a whole word of the output comes from: the code run at piece `k`, or inside the name `k`. */
  predicate ComesFrom(ps: seq<Piece>, off: seq<nat>, k: nat, i: nat, n: nat) {
    && k < |ps| && k < |off|
    && (|| (CodeWordAt(ps, k, n) && off[k] == i)
        || (ps[k].Name? && off[k] <= i && WordAt(ps[k].text, i - off[k], n)))
  }

  /** No gluing: every whole word of the output is a word of code or of a delimited name. */
  lemma NoGluing(ps: seq<Piece>, t: string, off: seq<nat>, i: nat, n: nat) returns (k: nat)
    requires Proper(ps) && Layout(ps, t, off) && WordAt(t, i, n)
    ensures ComesFrom(ps, off, k, i, n)
  {
    k := PieceAt(ps, t, off, i, |ps|);
    assert ProperPiece(ps[k], k + 1 == |ps|);
    assert Sits(ps, t, off, k) && t[off[k] + (i - off[k])] == TextOf(ps[k])[i - off[k]];
    match ps[k]
    case Ch(_) => FromCode(ps, t, off, k, n);
    case Name(_) => FromName(ps, t, off, k, i, n);
    case Comment(_) => assert false;
    case Value(_) => assert false;
  }

  lemma FromName(ps: seq<Piece>, t: string, off: seq<nat>, k: nat, i: nat, n: nat)
    requires Proper(ps) && Layout(ps, t, off) && WordAt(t, i, n) && k < |ps| && ps[k].Name?
    requires off[k] <= i < off[k + 1]
    ensures ComesFrom(ps, off, k, i, n)
  {
    PieceEdges(ps, t, off, k);
    var text := ps[k].text;
    assert Sits(ps, t, off, k);
    assert forall j :: 0 <= j < |text| ==> t[off[k] + j] == TextOf(ps[k])[j] == text[j];
    assert i + n <= off[k + 1];
    assert WordAt(text, i - off[k], n);
  }

  lemma FromCode(ps: seq<Piece>, t: string, off: seq<nat>, k: nat, n: nat)
    requires Proper(ps) && Layout(ps, t, off) && k < |ps| && ps[k].Ch? && WordAt(t, off[k], n)
    ensures ComesFrom(ps, off, k, off[k], n)
  {
    CodeRun(ps, t, off, k, n);
    CodeRunEnds(ps, t, off, k, n);
  }

  lemma CodeRunEnds(ps: seq<Piece>, t: string, off: seq<nat>, k: nat, n: nat)
    requires Proper(ps) && Layout(ps, t, off) && 0 < n && k + n <= |ps| && WordAt(t, off[k], n)
    requires forall j :: k <= j < k + n ==> WordPiece(ps[j])
    ensures k > 0 ==> !WordPiece(ps[k - 1])
    ensures k + n < |ps| ==> !WordPiece(ps[k + n])
  {
    RunInPlace(ps, t, off, k, n);
    EndsOf(t, off[k], n);
    if k > 0 { PieceEdges(ps, t, off, k - 1); }
    if k + n < |ps| { PieceEdges(ps, t, off, k + n); }
  }

  lemma EndsOf(t: string, i: nat, n: nat)
    requires WordAt(t, i, n)
    ensures (i > 0 ==> !IsWordChar(t[i - 1])) && (i + n < |t| ==> !IsWordChar(t[i + n]))
  {
  }

  /** Consecutive word characters of the output, from the start of a piece, are consecutive code. */
  lemma {:induction false} CodeRun(ps: seq<Piece>, t: string, off: seq<nat>, k: nat, n: nat)
    requires Proper(ps) && Layout(ps, t, off) && k <= |ps| && off[k] + n <= |t|
    requires forall j :: off[k] <= j < off[k] + n ==> IsWordChar(t[j])
    ensures k + n <= |ps| && forall j :: k <= j < k + n ==> WordPiece(ps[j])
    decreases n
  {
    if n > 0 {
      PieceEdges(ps, t, off, k);
      assert Sits(ps, t, off, k) && off[k + 1] == off[k] + 1;
      CodeRun(ps, t, off, k + 1, n - 1);
    }
  }

  // ── The same, for words with a property of their text ──

  /** Some whole word of the text satisfies `p`. */
  predicate HasWord(t: string, p: string -> bool) {
    exists i, n :: 0 <= i < |t| && 0 < n <= |t| - i && WordAt(t, i, n) && p(t[i..i + n])
  }

  /** Some word of the code satisfies `p`. */
  predicate CodeHasWord(ps: seq<Piece>, p: string -> bool) {
    exists k, n :: 0 <= k < |ps| && 0 < n <= |ps| - k && CodeWordAt(ps, k, n) && p(Chars(ps[k..k + n]))
  }

  predicate NameHasWord(ps: seq<Piece>, p: string -> bool) {
    exists k :: 0 <= k < |ps| && ps[k].Name? && HasWord(ps[k].text, p)
  }

  lemma NameWordShows(ps: seq<Piece>, t: string, off: seq<nat>, k: nat, i: nat, n: nat)
    requires Proper(ps) && Layout(ps, t, off) && k < |ps| && ps[k].Name? && WordAt(ps[k].text, i, n)
    ensures WordAt(t, off[k] + i, n) && t[off[k] + i..off[k] + i + n] == ps[k].text[i..i + n]
  {
    PieceEdges(ps, t, off, k);
    var text := ps[k].text;
    assert ProperPiece(ps[k], k + 1 == |ps|) && Sits(ps, t, off, k);
    assert forall j :: 0 <= j < |text| ==> t[off[k] + j] == TextOf(ps[k])[j] == text[j];
    forall j | off[k] + i <= j < off[k] + i + n ensures IsWordChar(t[j]) {
      assert t[off[k] + (j - off[k])] == text[j - off[k]];
    }
    assert i > 0 && (i + n < |text| || k + 1 == |ps|);
  }

  /** A word is in the output iff it is in the code or in a delimited name of the batch. */
  lemma WordsSurviveExactly(ps: seq<Piece>, p: string -> bool)
    requires Proper(ps)
    ensures HasWord(Flat(ps), p) <==> CodeHasWord(ps, p) || NameHasWord(ps, p)
  {
    var off := HasLayout(ps);
    if HasWord(Flat(ps), p) { WordsHaveOrigin(ps, Flat(ps), off, p); }
    if CodeHasWord(ps, p) { CodeWordsShow(ps, Flat(ps), off, p); }
    if NameHasWord(ps, p) { NameWordsShow(ps, Flat(ps), off, p); }
  }

  lemma CodeWordsShow(ps: seq<Piece>, t: string, off: seq<nat>, p: string -> bool)
    requires Proper(ps) && Layout(ps, t, off) && CodeHasWord(ps, p)
    ensures HasWord(t, p)
  {
    var k, n :| 0 <= k < |ps| && 0 < n <= |ps| - k && CodeWordAt(ps, k, n) && p(Chars(ps[k..k + n]));
    NoHiding(ps, t, off, k, n);
  }

  lemma NameWordsShow(ps: seq<Piece>, t: string, off: seq<nat>, p: string -> bool)
    requires Proper(ps) && Layout(ps, t, off) && NameHasWord(ps, p)
    ensures HasWord(t, p)
  {
    var k :| 0 <= k < |ps| && ps[k].Name? && HasWord(ps[k].text, p);
    var text := ps[k].text;
    var i, n :| 0 <= i < |text| && 0 < n <= |text| - i && WordAt(text, i, n) && p(text[i..i + n]);
    NameWordShows(ps, t, off, k, i, n);
  }

  lemma WordsHaveOrigin(ps: seq<Piece>, t: string, off: seq<nat>, p: string -> bool)
    requires Proper(ps) && Layout(ps, t, off) && HasWord(t, p)
    ensures CodeHasWord(ps, p) || NameHasWord(ps, p)
  {
    var i, n :| 0 <= i < |t| && 0 < n <= |t| - i && WordAt(t, i, n) && p(t[i..i + n]);
    Origin(ps, t, off, i, n, p);
  }

  lemma Origin(ps: seq<Piece>, t: string, off: seq<nat>, i: nat, n: nat, p: string -> bool)
    requires Proper(ps) && Layout(ps, t, off) && WordAt(t, i, n) && p(t[i..i + n])
    ensures CodeHasWord(ps, p) || NameHasWord(ps, p)
  {
    var k := NoGluing(ps, t, off, i, n);
    if CodeWordAt(ps, k, n) && off[k] == i {
      CodeWitness(ps, t, off, k, n, p);
    } else {
      NameOrigin(ps, t, off, k, i, n, p);
    }
  }

  lemma NameOrigin(ps: seq<Piece>, t: string, off: seq<nat>, k: nat, i: nat, n: nat, p: string -> bool)
    requires Proper(ps) && Layout(ps, t, off) && k < |ps| && ps[k].Name? && off[k] <= i
    requires WordAt(ps[k].text, i - off[k], n) && i + n <= |t| && p(t[i..i + n])
    ensures NameHasWord(ps, p)
  {
    var m := i - off[k];
    NameWordShows(ps, t, off, k, m, n);
    assert off[k] + m == i;
    NameWitness(ps, k, m, n, p);
  }

  lemma CodeWitness(ps: seq<Piece>, t: string, off: seq<nat>, k: nat, n: nat, p: string -> bool)
    requires Proper(ps) && Layout(ps, t, off) && CodeWordAt(ps, k, n)
    requires off[k] + n <= |t| && p(t[off[k]..off[k] + n])
    ensures CodeHasWord(ps, p)
  {
    NoHiding(ps, t, off, k, n);
  }

  lemma NameWitness(ps: seq<Piece>, k: nat, i: nat, n: nat, p: string -> bool)
    requires k < |ps| && ps[k].Name? && WordAt(ps[k].text, i, n) && p(ps[k].text[i..i + n])
    ensures NameHasWord(ps, p)
  {
    assert HasWord(ps[k].text, p);
  }
}
