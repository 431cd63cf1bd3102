/**
 * Character and string helpers shared by the other modules, with JavaScript's meaning: white space and `trim`, the word
 * characters of a regular expression, case folding of ASCII letters, searching, decimal numbers, and quoting by
 * doubling the quote.
 */
module Text {

  datatype Option<+T> = None | Some(value: T)

  /** The characters `trim()` removes and `\s` matches: ECMAScript white space and line terminators. */
  predicate IsSpace(c: char) {
    var u := c as int;
    || 0x09 <= u <= 0x0D || u == 0x20 || u == 0xA0 || u == 0x1680 || 0x2000 <= u <= 0x200A
    || u == 0x2028 || u == 0x2029 || u == 0x202F || u == 0x205F || u == 0x3000 || u == 0xFEFF
  }

  /** `\w`: ASCII letters, digits and underscore, with or without the `i` flag. */
  predicate IsWordChar(c: char) {
    'a' <= c <= 'z' || 'A' <= c <= 'Z' || '0' <= c <= '9' || c == '_'
  }

  /** Case folding as the `i` flag does it for an ASCII pattern letter: no other character folds onto one. */
  function Fold(c: char): char {
    if 'a' <= c <= 'z' then (c as int - 32) as char else c
  }

  predicate SameWord(a: string, b: string) {
    |a| == |b| && forall i :: 0 <= i < |a| ==> Fold(a[i]) == Fold(b[i])
  }

  predicate Blank(s: string) {
    forall i :: 0 <= i < |s| ==> IsSpace(s[i])
  }

  /** Index of the first non-blank character at or after `i`. */
  function SkipSpaces(s: string, i: nat): (r: nat)
    requires i <= |s|
    ensures i <= r <= |s| && (forall k :: i <= k < r ==> IsSpace(s[k])) && (r < |s| ==> !IsSpace(s[r]))
    decreases |s| - i
  {
    if i < |s| && IsSpace(s[i]) then SkipSpaces(s, i + 1) else i
  }

  /** Index just past the last non-blank character of `s[a..b]`. */
  function DropSpaces(s: string, a: nat, b: nat): (r: nat)
    requires a <= b <= |s|
    ensures a <= r <= b && (forall k :: r <= k < b ==> IsSpace(s[k])) && (a < r ==> !IsSpace(s[r - 1]))
  {
    if a < b && IsSpace(s[b - 1]) then DropSpaces(s, a, b - 1) else b
  }

  function InkStart(s: string): (a: nat)
    ensures a <= |s|
  {
    SkipSpaces(s, 0)
  }

  function InkEnd(s: string): (b: nat)
    ensures InkStart(s) <= b <= |s|
  {
    DropSpaces(s, InkStart(s), |s|)
  }

  /** `trim()`: what lies between the first and the last non-blank character. */
  function Trim(s: string): string {
    s[InkStart(s)..InkEnd(s)]
  }

  lemma SliceOfSlice(t: string, a: nat, b: nat, i: nat, j: nat)
    requires a <= b <= |t| && i <= j <= b - a
    ensures t[a..b][i..j] == t[a + i..a + j]
  {
    var x, y := t[a..b][i..j], t[a + i..a + j];
    forall k | 0 <= k < j - i ensures x[k] == y[k] { assert t[a..b][i + k] == t[a + i + k]; }
  }

  /** Position of the first `c`, as `indexOf` finds it. */
  function IndexOf(s: string, c: char): (r: Option<nat>)
    ensures r.None? <==> c !in s
    ensures r.Some? ==> r.value < |s| && s[r.value] == c && c !in s[..r.value]
  {
    if s == "" then None
    else if s[0] == c then Some(0)
    else match IndexOf(s[1..], c)
      case None => None
      case Some(k) => assert s[..k + 1] == [s[0]] + s[1..][..k]; Some(k + 1)
  }

  lemma IndexOfUnique(s: string, c: char, k: nat)
    requires k < |s| && s[k] == c && forall j :: 0 <= j < k ==> s[j] != c
    ensures IndexOf(s, c) == Some(k)
  {
    assert c in s;
    var j := IndexOf(s, c).value;
    assert forall i :: 0 <= i < j ==> s[i] != c by {
      forall i | 0 <= i < j ensures s[i] != c { assert s[..j][i] == s[i]; }
    }
  }

  /** A line and its terminator. */
  lemma LineEnds(line: string)
    requires '\n' !in line
    ensures var w := line + "\n"; IndexOf(w, '\n') == Some(|line|) && w[..|line|] == line && w[|line| + 1..] == ""
  {
    var w := line + "\n";
    assert forall j :: 0 <= j < |line| ==> w[j] == line[j];
    IndexOfUnique(w, '\n', |line|);
  }

  lemma BlankLeftover(r: string, l: string)
    requires Blank(r)
    ensures Trim(r + l) == Trim(l)
  {
    var t := r + l;
    assert forall k :: 0 <= k < |l| ==> t[|r| + k] == l[k];
    hide IsSpace;
    assert InkStart(t) == |r| + InkStart(l);
    assert InkEnd(t) == |r| + InkEnd(l);
  }

  lemma VisibleLeftover(r: string, l: string)
    requires !Blank(r)
    ensures |Trim(r + l)| > |Trim(l)|
  {
    var t := r + l;
    assert forall k :: 0 <= k < |l| ==> t[|r| + k] == l[k];
    var k :| 0 <= k < |r| && !IsSpace(r[k]);
    assert t[k] == r[k];
    hide IsSpace;
    assert InkStart(t) < |r|;
    assert InkEnd(t) > InkStart(t);
    assert InkEnd(l) > InkStart(l) ==> InkEnd(t) == |r| + InkEnd(l);
  }

  /** The exact effect of text left over in front of a line: it is invisible to `trim()` iff it is blank. */
  lemma LeftoverVisible(r: string, l: string)
    ensures Trim(r + l) == Trim(l) <==> Blank(r)
  {
    if Blank(r) { BlankLeftover(r, l); } else { VisibleLeftover(r, l); }
  }

  function Digit(n: nat): char
    requires n < 10
  {
    ('0' as int + n) as char
  }

  /** `String(n)` for a non-negative integer. */
  function Decimal(n: nat): (r: string)
    ensures |r| > 0 && forall i :: 0 <= i < |r| ==> '0' <= r[i] <= '9'
  {
    if n < 10 then [Digit(n)] else Decimal(n / 10) + [Digit(n % 10)]
  }

  function ReadDecimal(s: string): nat
    requires forall i :: 0 <= i < |s| ==> '0' <= s[i] <= '9'
  {
    if s == "" then 0 else 10 * ReadDecimal(s[..|s| - 1]) + (s[|s| - 1] as int - '0' as int)
  }

  lemma {:induction false} DecimalReadsBack(n: nat)
    ensures ReadDecimal(Decimal(n)) == n
  {
    if n < 10 {
      assert Decimal(n) == [Digit(n)] && Decimal(n)[..0] == "";
      assert ReadDecimal(Decimal(n)) == 10 * ReadDecimal("") + n;
    } else {
      DecimalReadsBack(n / 10);
      assert Decimal(n)[..|Decimal(n)| - 1] == Decimal(n / 10);
    }
  }

  /** `s.replace(/'/g, "''")`, for any delimiter. */
  function Doubled(s: string, c: char): string {
    if s == "" then "" else (if s[0] == c then [c, c] else [s[0]]) + Doubled(s[1..], c)
  }

  /** Reads a doubled text back: each pair of delimiters stands for one. */
  function Undoubled(s: string, c: char): string {
    if |s| >= 2 && s[0] == c && s[1] == c then [c] + Undoubled(s[2..], c)
    else if s == "" then "" else [s[0]] + Undoubled(s[1..], c)
  }

  lemma {:induction false} UndoubledInverse(s: string, c: char)
    ensures Undoubled(Doubled(s, c), c) == s
  {
    if s != "" {
      UndoubledInverse(s[1..], c);
      var d := Doubled(s, c);
      if s[0] == c {
        assert d[2..] == Doubled(s[1..], c);
      } else {
        assert d[1..] == Doubled(s[1..], c);
      }
    }
  }

  predicate StartsWith(s: string, p: string) {
    |p| <= |s| && s[..|p|] == p
  }

  predicate EndsWith(s: string, p: string) {
    |p| <= |s| && s[|s| - |p|..] == p
  }
}
