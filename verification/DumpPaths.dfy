/** Extra dump directories as literals. */
module DumpPaths {
  // From the environment variable through splitting, trimming and filtering to the quoted SELECTs, which lex back to
  // exactly the directories, whatever these contain, quotes and comment signs included.

  import opened Text
  import opened Lexer
  import opened LexerLaws

  /** `raw.split(";")` */
  function Split(raw: string): seq<string>
    decreases |raw|
  {
    match IndexOf(raw, ';')
    case None => [raw]
    case Some(k) => [raw[..k]] + Split(raw[k + 1..])
  }

  /** `replace(/[\\/]+$/, "")` */
  function DropSlashes(d: string): string {
    if d != "" && (d[|d| - 1] == '\\' || d[|d| - 1] == '/') then DropSlashes(d[..|d| - 1]) else d
  }

  function Clean(d: string): string {
    DropSlashes(Trim(d))
  }

  predicate Kept(d: string) {
    0 < |d| <= 400
  }

  /** The directories that survive cleaning and the length limit, in order. */
  function Directories(parts: seq<string>): seq<string> {
    if parts == [] then []
    else (if Kept(Clean(parts[0])) then [Clean(parts[0])] else []) + Directories(parts[1..])
  }

  /** Each directory as an `N''` literal, quotes doubled. */
  function Printed(dirs: seq<string>): seq<string> {
    seq(|dirs|, i requires 0 <= i < |dirs| => "N" + Quoted(dirs[i]))
  }

  function ExtraDumpDirLiterals(raw: string): seq<string> {
    Printed(Directories(Split(raw)))
  }

  /** `extra.map((lit) => " UNION ALL SELECT " + lit + ",3").join("")` */
  function ExtraSelects(literals: seq<string>): string {
    if literals == [] then "" else " UNION ALL SELECT " + (literals[0] + (",3" + ExtraSelects(literals[1..])))
  }

  /** The value a literal token stands for. */
  function Value(t: Token): string
    requires t.Literal? && |t.text| >= 2
  {
    Undoubled(t.text[1..|t.text| - 1], '\'')
  }

  /** The values of the literal tokens of a batch. */
  function Literals(ts: seq<Token>): seq<string> {
    if ts == [] then []
    else (if ts[0].Literal? && |ts[0].text| >= 2 then [Value(ts[0])] else []) + Literals(ts[1..])
  }

  lemma {:induction false} LiteralsAppend(a: seq<Token>, b: seq<Token>)
    ensures Literals(a + b) == Literals(a) + Literals(b)
  {
    if a == [] {
      assert a + b == b;
    } else {
      assert (a + b)[0] == a[0] && (a + b)[1..] == a[1..] + b;
      LiteralsAppend(a[1..], b);
    }
  }

  lemma {:induction false} CodeHasNoLiteral(ts: seq<Token>)
    requires forall i :: 0 <= i < |ts| ==> ts[i].Code?
    ensures Literals(ts) == []
  {
    if ts != [] { CodeHasNoLiteral(ts[1..]); }
  }

  lemma {:induction false} PlainHasNoLiteral(s: string)
    requires forall i :: 0 <= i < |s| ==> Plain(s[i])
    ensures Lex(s) == CodeTokens(s) && Literals(Lex(s)) == [] && Strip(s) == s
  {
    PlainLexes(s);
    CodeHasNoLiteral(Lex(s));
  }

  /** The SELECTs that stand for no directory in particular: what the printed text looks like to a guard. */
  function BlankSelects(n: nat): string {
    if n == 0 then "" else " UNION ALL SELECT N" + ("''" + (",3" + BlankSelects(n - 1)))
  }

  const HEAD := " UNION ALL SELECT N"

  lemma TailSelect(rest: string)
    ensures Lex(",3" + rest) == Lex(",3") + Lex(rest) && Strip(",3" + rest) == ",3" + Strip(rest)
    ensures Literals(Lex(",3" + rest)) == Literals(Lex(rest))
  {
    PlainHasNoLiteral(",3");
    assert Seam(",3", rest);
    LexComposes(",3", rest);
    StripComposes(",3", rest);
    LiteralsAppend(Lex(",3"), Lex(rest));
    assert [] + Literals(Lex(rest)) == Literals(Lex(rest));
  }

  lemma OneSelect(dir: string, rest: string)
    ensures var text := HEAD + (Quoted(dir) + (",3" + rest));
            Literals(Lex(text)) == [dir] + Literals(Lex(rest)) && Strip(text) == HEAD + ("''" + (",3" + Strip(rest)))
  {
    var tail := ",3" + rest;
    assert tail[0] == ',';
    PlainHasNoLiteral(HEAD);
    TailSelect(rest);
    QuotedInPlace(HEAD, dir, tail);
    LiteralContentVanishes(HEAD, dir, tail);
    OneLiteral(dir);
    LiteralsAppend(Lex(HEAD), [Literal(Quoted(dir))] + Lex(tail));
    LiteralsAppend([Literal(Quoted(dir))], Lex(tail));
  }

  lemma PrintedFirst(dirs: seq<string>)
    requires dirs != []
    ensures ExtraSelects(Printed(dirs)) == HEAD + (Quoted(dirs[0]) + (",3" + ExtraSelects(Printed(dirs[1..]))))
  {
    assert Printed(dirs)[1..] == Printed(dirs[1..]);
  }

  /**
   * Whatever the directories contain, the printed SELECTs lex to one literal per directory, each reading
   * back as the directory, and nothing of them reaches the code around the literals.
   */
  lemma {:induction false} SelectsReadBack(dirs: seq<string>)
    ensures var text := ExtraSelects(Printed(dirs));
            Literals(Lex(text)) == dirs && Strip(text) == BlankSelects(|dirs|)
  {
    hide Printed, ExtraSelects, Lex, Strip, Literals, Quoted, BlankSelects;
    if dirs == [] {
      NoSelects();
    } else {
      SelectsReadBack(dirs[1..]);
      PrintedFirst(dirs);
      OneSelect(dirs[0], ExtraSelects(Printed(dirs[1..])));
      MoreBlanks(|dirs|);
      assert [dirs[0]] + dirs[1..] == dirs;
    }
  }

  lemma NoSelects()
    ensures var text := ExtraSelects(Printed([])); Literals(Lex(text)) == [] && Strip(text) == BlankSelects(0)
  {
    assert ExtraSelects(Printed([])) == "";
  }

  lemma MoreBlanks(n: nat)
    requires n > 0
    ensures BlankSelects(n) == HEAD + ("''" + (",3" + BlankSelects(n - 1)))
  {
  }

  lemma OneLiteral(x: string)
    ensures Literals([Literal(Quoted(x))]) == [x]
  {
    QuotedIsOneToken(x);
    var ts := [Literal(Quoted(x))];
    assert ts[1..] == [];
  }

  // ── From the configured text to the directories ──

  /** The parts with a semicolon between each two. */
  function Joined(parts: seq<string>): string {
    if parts == [] then "" else if |parts| == 1 then parts[0] else parts[0] + ";" + Joined(parts[1..])
  }

  predicate NoSemicolons(parts: seq<string>) {
    forall i :: 0 <= i < |parts| ==> ';' !in parts[i]
  }

  lemma {:induction false} SplitOfJoined(parts: seq<string>)
    requires parts != [] && NoSemicolons(parts)
    ensures Split(Joined(parts)) == parts
  {
    var raw := Joined(parts);
    if |parts| == 1 {
      assert IndexOf(raw, ';') == None;
    } else {
      var k := |parts[0]|;
      assert raw == parts[0] + (";" + Joined(parts[1..]));
      assert raw[..k] == parts[0] && raw[k] == ';' && raw[k + 1..] == Joined(parts[1..]);
      IndexOfUnique(raw, ';', k);
      SplitOfJoined(parts[1..]);
    }
  }

  lemma SplitStep(raw: string, k: nat)
    requires IndexOf(raw, ';') == Some(k)
    ensures Split(raw) == [raw[..k]] + Split(raw[k + 1..])
    ensures Split(raw)[0] == raw[..k] && Split(raw)[1..] == Split(raw[k + 1..])
    ensures raw[..k] + ";" + raw[k + 1..] == raw && ';' !in raw[..k]
  {
    assert raw == raw[..k] + [raw[k]] + raw[k + 1..];
  }

  lemma JoinedStep(parts: seq<string>)
    requires |parts| > 1
    ensures Joined(parts) == parts[0] + ";" + Joined(parts[1..])
    ensures NoSemicolons(parts) <==> ';' !in parts[0] && NoSemicolons(parts[1..])
  {
    if ';' !in parts[0] && NoSemicolons(parts[1..]) {
      forall i | 0 <= i < |parts| ensures ';' !in parts[i] {
        if i > 0 { assert parts[i] == parts[1..][i - 1]; }
      }
    }
  }

  lemma {:induction false} JoinedOfSplit(raw: string)
    ensures Split(raw) != [] && NoSemicolons(Split(raw)) && Joined(Split(raw)) == raw
    decreases |raw|
  {
    match IndexOf(raw, ';')
    case None => assert Split(raw) == [raw];
    case Some(k) =>
      SplitStep(raw, k);
      JoinedOfSplit(raw[k + 1..]);
      hide Split, Joined, NoSemicolons;
      JoinedStep(Split(raw));
  }

  /** Splitting gives the one list of parts without semicolons that the text is joined of. */
  lemma SplitsExactly(raw: string, parts: seq<string>)
    ensures parts == Split(raw) <==> parts != [] && NoSemicolons(parts) && Joined(parts) == raw
  {
    JoinedOfSplit(raw);
    if parts != [] && NoSemicolons(parts) && Joined(parts) == raw { SplitOfJoined(parts); }
  }

  predicate AllSlashes(s: string) {
    forall i :: 0 <= i < |s| ==> s[i] == '\\' || s[i] == '/'
  }

  lemma {:induction false} DropsSlashes(d: string)
    ensures var r := DropSlashes(d);
            r <= d && AllSlashes(d[|r|..]) && (r != "" ==> r[|r| - 1] != '\\' && r[|r| - 1] != '/')
  {
    if d != "" && (d[|d| - 1] == '\\' || d[|d| - 1] == '/') {
      var shorter := d[..|d| - 1];
      DropsSlashes(shorter);
      assert d[|DropSlashes(d)|..] == shorter[|DropSlashes(d)|..] + [d[|d| - 1]];
    }
  }

  /** Of a part, the white space at both ends and then the slashes at its end go, and nothing else. */
  lemma CleansExactly(part: string)
    ensures var c, t := Clean(part), Trim(part);
            && (exists a, b :: 0 <= a <= b <= |part| && t == part[a..b] && Blank(part[..a]) && Blank(part[b..]))
            && (t != "" ==> !IsSpace(t[0]) && !IsSpace(t[|t| - 1]))
            && c <= t && AllSlashes(t[|c|..]) && (c != "" ==> c[|c| - 1] != '\\' && c[|c| - 1] != '/')
  {
    DropsSlashes(Trim(part));
    var a, b := InkStart(part), InkEnd(part);
    assert Trim(part) == part[a..b];
    assert forall i :: 0 <= i < a ==> part[..a][i] == part[i];
    assert forall i :: 0 <= i < |part| - b ==> part[b..][i] == part[b + i];
  }

  function OfPart(part: string): seq<string> {
    if 1 <= |Clean(part)| <= 400 then [Clean(part)] else []
  }

  lemma DirectoriesStep(parts: seq<string>)
    requires parts != []
    ensures Directories(parts) == OfPart(parts[0]) + Directories(parts[1..])
  {
  }

  lemma Associates(x: seq<string>, y: seq<string>, z: seq<string>)
    ensures (x + y) + z == x + (y + z)
  {
  }

  lemma {:induction false} DirectoriesAppend(a: seq<string>, b: seq<string>)
    ensures Directories(a + b) == Directories(a) + Directories(b)
  {
    if a == [] {
      assert a + b == b;
      assert [] + Directories(b) == Directories(b);
    } else {
      hide Directories, OfPart;
      DirectoriesStep(a);
      DirectoriesStep(a + b);
      TailOfSum(a, b);
      DirectoriesAppend(a[1..], b);
      Associates(OfPart(a[0]), Directories(a[1..]), Directories(b));
    }
  }

  lemma TailOfSum(a: seq<string>, b: seq<string>)
    requires a != []
    ensures (a + b)[0] == a[0] && (a + b)[1..] == a[1..] + b
  {
  }

  /** The parts are taken one by one, in order: each whose cleaned form has 1 to 400 characters, and no other. */
  lemma DirectoriesInOrder(parts: seq<string>, part: string)
    ensures Directories(parts + [part]) == Directories(parts) + OfPart(part)
  {
    DirectoriesAppend(parts, [part]);
    assert [part][1..] == [];
    hide Clean;
  }

  /** The configured directories, through the whole chain: joined by semicolons, printed, and read back in order. */
  lemma ConfiguredDirectoriesReadBack(parts: seq<string>)
    requires parts != [] && NoSemicolons(parts)
    ensures var text := ExtraSelects(ExtraDumpDirLiterals(Joined(parts)));
            Literals(Lex(text)) == Directories(parts) && Strip(text) == BlankSelects(|Directories(parts)|)
  {
    SplitOfJoined(parts);
    SelectsReadBack(Directories(parts));
  }

  predicate CleanDirectory(d: string) {
    1 <= |d| <= 400 && d[|d| - 1] != '\\' && d[|d| - 1] != '/' && !IsSpace(d[0])
  }

  lemma PartIsClean(part: string)
    ensures forall d :: d in OfPart(part) ==> CleanDirectory(d)
  {
    CleansExactly(part);
  }

  lemma {:induction false} DirectoriesClean(parts: seq<string>)
    ensures forall d :: d in Directories(parts) ==>
                          1 <= |d| <= 400 && d[|d| - 1] != '\\' && d[|d| - 1] != '/' && !IsSpace(d[0])
  {
    assert parts == [] ==> Directories(parts) == [];
    hide Directories, OfPart;
    if parts != [] {
      DirectoriesClean(parts[1..]);
      PartIsClean(parts[0]);
      DirectoriesStep(parts);
    }
  }
}
