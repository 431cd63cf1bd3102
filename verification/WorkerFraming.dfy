/** The newline framing of the worker's stdout. */
module WorkerFraming {
  import opened Text
  import opened WorkerModel

  // ── Chunks do not matter ──

  function FeedAll(cfg: Config, st: State, source: Proc, chunks: seq<string>): State
    decreases |chunks|
  {
    if chunks == [] then st else FeedAll(cfg, Step(cfg, st, Data(source, chunks[0])), source, chunks[1..])
  }

  function Join(chunks: seq<string>): string {
    if chunks == [] then "" else chunks[0] + Join(chunks[1..])
  }

  lemma NewlineAcross(a: string, b: string, nl: nat)
    requires IndexOf(a, '\n') == Some(nl)
    ensures IndexOf(a + b, '\n') == Some(nl) && (a + b)[..nl] == a[..nl] && (a + b)[nl + 1..] == a[nl + 1..] + b
  {
    forall j | 0 <= j < nl ensures (a + b)[j] != '\n' { assert a[..nl][j] == a[j]; }
    IndexOfUnique(a + b, '\n', nl);
  }

  /** Handling a line never looks at the buffer. */
  lemma HandleLineBuf(cfg: Config, st: State, line: string, buf: string)
    ensures HandleLine(cfg, st.(buf := buf), line) == HandleLine(cfg, st, line).(buf := buf)
  {
    if line != "" {
      match cfg.parse(line)
      case NotJson =>
      case JsonNull =>
      case Json(msg) =>
        if msg.id.Some? && msg.id.value in st.pending {
          assert Answer(st.(buf := buf), msg) == Answer(st, msg).(buf := buf);
        }
    }
  }

  lemma HandleLineAppend(cfg: Config, st: State, line: string, rest: string, more: string)
    ensures var next := HandleLine(cfg, st.(buf := rest), line);
            next.buf == rest && HandleLine(cfg, st.(buf := rest + more), line) == next.(buf := next.buf + more)
  {
    HandleLineBuf(cfg, st, line, rest);
    HandleLineBuf(cfg, st, line, rest + more);
  }

  /** More text may be appended before or after the complete lines already there are consumed. */
  lemma {:induction false} DrainAppend(cfg: Config, st: State, more: string)
    ensures Drain(cfg, st.(buf := st.buf + more)) == Drain(cfg, Drain(cfg, st).(buf := Drain(cfg, st).buf + more))
    decreases |st.buf|
  {
    match IndexOf(st.buf, '\n')
    case None =>
    case Some(nl) =>
      if !st.crashed {
        NewlineAcross(st.buf, more, nl);
        var line, rest := Trim(st.buf[..nl]), st.buf[nl + 1..];
        var next := HandleLine(cfg, st.(buf := rest), line);
        DrainFirst(cfg, st, nl);
        DrainFirst(cfg, st.(buf := st.buf + more), nl);
        HandleLineAppend(cfg, st, line, rest, more);
        DrainAppend(cfg, next, more);
      }
  }

  lemma FeedTwice(cfg: Config, st: State, a: string, b: string)
    ensures Feed(cfg, Feed(cfg, st, a), b) == Feed(cfg, st, a + b)
  {
    var fed := st.(buf := st.buf + a);
    DrainAppend(cfg, fed, b);
    Concat(st.buf, a, b);
    assert fed.(buf := fed.buf + b) == st.(buf := st.buf + (a + b));
  }

  lemma Concat(x: string, y: string, z: string)
    ensures (x + y) + z == x + (y + z)
  {
  }

  /** Equal in everything a caller can see; the buffer counts only while the host process lives. */
  predicate SameUpToCrash(a: State, b: State) {
    a.(buf := "") == b.(buf := "") && (!a.crashed ==> a.buf == b.buf)
  }

  lemma CrashedFeed(cfg: Config, st: State, chunk: string)
    requires st.crashed
    ensures Feed(cfg, st, chunk) == st.(buf := st.buf + chunk)
  {
  }

  /** A stream fed under any split settles the same calls the same way as fed whole. */
  lemma {:induction false} ChunkingInvisible(cfg: Config, st: State, source: Proc, chunks: seq<string>)
    requires Framed(st) && source < st.spawned
    ensures SameUpToCrash(FeedAll(cfg, st, source, chunks), Feed(cfg, st, Join(chunks)))
    decreases |chunks|
  {
    if chunks == [] {
      assert st.buf + "" == st.buf;
    } else if st.crashed {
      ChunkingInvisible(cfg, st, source, chunks[1..]);
      CrashedFeed(cfg, st, Join(chunks));
      CrashedFeed(cfg, st, Join(chunks[1..]));
    } else {
      var next := Feed(cfg, st, chunks[0]);
      DrainFramed(cfg, st.(buf := st.buf + chunks[0]));
      ChunkingInvisible(cfg, next, source, chunks[1..]);
      FeedTwice(cfg, st, chunks[0], Join(chunks[1..]));
    }
  }

  lemma {:induction false} DrainFramed(cfg: Config, st: State)
    ensures Framed(Drain(cfg, st))
    ensures Drain(cfg, st).spawned == st.spawned
    decreases |st.buf|
  {
    if st.crashed || '\n' !in st.buf {
      DrainDone(cfg, st);
    } else {
      var nl := IndexOf(st.buf, '\n').value;
      var next := HandleLine(cfg, st.(buf := st.buf[nl + 1..]), Trim(st.buf[..nl]));
      DrainFirst(cfg, st, nl);
      LineKeepsBuf(cfg, st.(buf := st.buf[nl + 1..]), Trim(st.buf[..nl]));
      DrainFramed(cfg, next);
    }
  }

  lemma LineKeepsBuf(cfg: Config, st: State, line: string)
    ensures HandleLine(cfg, st, line).buf == st.buf && HandleLine(cfg, st, line).spawned == st.spawned
  {
  }

  /** Two splits of the same stream are indistinguishable. */
  lemma {:induction false} SplitsAgree(cfg: Config, st: State, source: Proc, a: seq<string>, b: seq<string>)
    requires Framed(st) && source < st.spawned && Join(a) == Join(b)
    ensures SameUpToCrash(FeedAll(cfg, st, source, a), FeedAll(cfg, st, source, b))
  {
    ChunkingInvisible(cfg, st, source, a);
    ChunkingInvisible(cfg, st, source, b);
  }

  // ── What is decoded ──

  /** The lines a text decodes to: each newline-terminated piece, trimmed. */
  function Lines(text: string): seq<string>
    decreases |text|
  {
    match IndexOf(text, '\n')
    case None => []
    case Some(nl) => [Trim(text[..nl])] + Lines(text[nl + 1..])
  }

  /** What is left in the buffer once the lines are consumed. */
  function Rest(text: string): string
    decreases |text|
  {
    match IndexOf(text, '\n')
    case None => text
    case Some(nl) => Rest(text[nl + 1..])
  }

  function HandleAll(cfg: Config, st: State, lines: seq<string>): State
    decreases |lines|
  {
    if lines == [] || st.crashed then st else HandleAll(cfg, HandleLine(cfg, st, lines[0]), lines[1..])
  }

  /** The loop handles exactly the decoded lines, in order, and leaves exactly the incomplete tail. */
  lemma {:induction false} DrainDecodes(cfg: Config, st: State)
    ensures SameUpToCrash(Drain(cfg, st), HandleAll(cfg, st, Lines(st.buf)).(buf := Rest(st.buf)))
    decreases |st.buf|
  {
    match IndexOf(st.buf, '\n')
    case None =>
    case Some(nl) =>
      if !st.crashed {
        var line, rest := Trim(st.buf[..nl]), st.buf[nl + 1..];
        HandleLineBuf(cfg, st, line, rest);
        DrainDecodes(cfg, HandleLine(cfg, st, line).(buf := rest));
        HandleAllBuf(cfg, HandleLine(cfg, st, line), Lines(rest), rest);
        HandleAllFirst(cfg, st, line, Lines(rest));
      }
  }

  lemma HandleAllFirst(cfg: Config, st: State, line: string, lines: seq<string>)
    requires !st.crashed
    ensures HandleAll(cfg, st, [line] + lines) == HandleAll(cfg, HandleLine(cfg, st, line), lines)
  {
    assert ([line] + lines)[0] == line && ([line] + lines)[1..] == lines;
  }

  lemma {:induction false} HandleAllBuf(cfg: Config, st: State, lines: seq<string>, buf: string)
    ensures HandleAll(cfg, st.(buf := buf), lines) == HandleAll(cfg, st, lines).(buf := buf)
    decreases |lines|
  {
    if lines != [] && !st.crashed {
      HandleLineBuf(cfg, st, lines[0], buf);
      HandleAllBuf(cfg, HandleLine(cfg, st, lines[0]), lines[1..], buf);
    }
  }

  /** A process's own writes: one response per line. */
  function Wire(lines: seq<string>): string {
    if lines == [] then "" else lines[0] + "\n" + Wire(lines[1..])
  }

  lemma FirstLine(line: string, rest: string)
    requires '\n' !in line && Trim(line) == line
    ensures Lines(line + "\n" + rest) == [line] + Lines(rest) && Rest(line + "\n" + rest) == Rest(rest)
  {
    LineEnds(line);
    NewlineAcross(line + "\n", rest, |line|);
    assert "" + rest == rest;
  }

  /** Framing is a round trip: what was written line by line is decoded line by line, with nothing left. */
  lemma {:induction false} WireDecodes(lines: seq<string>)
    requires forall i :: 0 <= i < |lines| ==> '\n' !in lines[i] && Trim(lines[i]) == lines[i]
    ensures Lines(Wire(lines)) == lines && Rest(Wire(lines)) == ""
  {
    if lines != [] {
      WireDecodes(lines[1..]);
      FirstLine(lines[0], Wire(lines[1..]));
      assert [lines[0]] + lines[1..] == lines;
    }
  }

  // ── Handing over from one process to the next ──

  /** Bytes `b` after bytes `a`, whoever sent them: only the incomplete tail of `a` is shared. */
  lemma {:induction false} LinesAppend(a: string, b: string)
    ensures Lines(a + b) == Lines(a) + Lines(Rest(a) + b) && Rest(a + b) == Rest(Rest(a) + b)
    decreases |a|
  {
    match IndexOf(a, '\n')
    case None => assert Lines(a) == [] && Rest(a) == a;
    case Some(nl) =>
      var tail := a[nl + 1..];
      NewlineAcross(a, b, nl);
      LinesAppend(tail, b);
      Assoc([Trim(a[..nl])], Lines(tail), Lines(Rest(tail) + b));
  }

  lemma Assoc<T>(x: seq<T>, y: seq<T>, z: seq<T>)
    ensures x + (y + z) == (x + y) + z
  {
  }

  lemma {:induction false} RestHasNoNewline(a: string)
    ensures '\n' !in Rest(a)
    decreases |a|
  {
    match IndexOf(a, '\n')
    case None =>
    case Some(nl) => RestHasNoNewline(a[nl + 1..]);
  }

  /**
   * The buffer is never reset, so what a replacement prints decodes as its own iff what the bytes before
   * it left behind is blank, or it has not completed a line yet.
   */
  lemma HandoverIffBlank(before: string, own: string)
    ensures Lines(before + own) == Lines(before) + Lines(own) <==> '\n' !in own || Blank(Rest(before))
  {
    var left, done := Rest(before), Lines(before);
    LinesAppend(before, own);
    RestHasNoNewline(before);
    LeftoverIffBlank(left, own);
    assert (done + Lines(left + own))[|done|..] == Lines(left + own);
    assert (done + Lines(own))[|done|..] == Lines(own);
  }

  lemma {:induction false} LeftoverIffBlank(left: string, own: string)
    requires '\n' !in left
    ensures Lines(left + own) == Lines(own) <==> '\n' !in own || Blank(left)
  {
    match IndexOf(own, '\n')
    case None =>
      assert '\n' !in left + own;
    case Some(nl) =>
      LeftoverFirstLine(left, own, nl);
      LeftoverVisible(left, own[..nl]);
      assert Lines(left + own)[0] == Trim(left + own[..nl]) && Lines(own)[0] == Trim(own[..nl]);
  }

  lemma LeftoverFirstLine(left: string, own: string, nl: nat)
    requires '\n' !in left && IndexOf(own, '\n') == Some(nl)
    ensures Lines(left + own) == [Trim(left + own[..nl])] + Lines(own[nl + 1..])
  {
    LeftoverNewline(left, own, nl);
    LinesFirst(left + own, |left| + nl, left + own[..nl], own[nl + 1..]);
  }

  lemma LinesFirst(text: string, nl: nat, first: string, rest: string)
    requires IndexOf(text, '\n') == Some(nl) && text[..nl] == first && text[nl + 1..] == rest
    ensures Lines(text) == [Trim(first)] + Lines(rest)
  {
  }

  lemma LeftoverNewline(left: string, own: string, nl: nat)
    requires '\n' !in left && IndexOf(own, '\n') == Some(nl)
    ensures var all, k := left + own, |left| + nl;
            IndexOf(all, '\n') == Some(k) && all[..k] == left + own[..nl] && all[k + 1..] == own[nl + 1..]
  {
    var all, k := left + own, |left| + nl;
    forall j | 0 <= j < k ensures all[j] != '\n' {
      if j >= |left| { assert all[j] == own[..nl][j - |left|]; }
    }
    IndexOfUnique(all, '\n', k);
  }

  /** The failing case is real: half a line from a killed process corrupts its replacement's first answer. */
  lemma StaleHalfLine()
    ensures Lines("{\"id\":1" + "{\"id\":2}\n") == ["{\"id\":1{\"id\":2}"]
    ensures Lines("{\"id\":2}\n") == ["{\"id\":2}"]
  {
    var a, b := "{\"id\":1{\"id\":2}", "{\"id\":2}";
    assert "{\"id\":1" + "{\"id\":2}\n" == a + "\n" && b + "\n" == "{\"id\":2}\n";
    assert Trim(a) == a && Trim(b) == b;
    WireDecodes([a]);
    WireDecodes([b]);
    assert Wire([a]) == a + "\n" + "" == a + "\n" && Wire([b]) == b + "\n" + "" == b + "\n";
  }
}
