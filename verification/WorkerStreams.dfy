/** The worker's stdout over whole runs, each byte tagged with its process. */
module WorkerStreams {
  import opened Text
  import opened WorkerAnswers
  import opened WorkerFraming
  import opened WorkerModel
  import opened WorkerRuns

  /** What arrives, all of it in one buffer. */
  datatype Byte = Byte(src: Proc, c: char)

  function Chars(bs: seq<Byte>): string {
    seq(|bs|, i requires 0 <= i < |bs| => bs[i].c)
  }

  function Tagged(p: Proc, text: string): seq<Byte> {
    seq(|text|, i requires 0 <= i < |text| => Byte(p, text[i]))
  }

  function Received(st: State, e: Event): seq<Byte> {
    if e.Data? && Enabled(st, e) then Tagged(e.source, e.chunk) else []
  }

  /** Everything a run has received, in order of arrival. */
  function Bytes(cfg: Config, evs: seq<Event>): seq<Byte> {
    if evs == [] then [] else
      Bytes(cfg, evs[..|evs| - 1]) + Received(Run(cfg, INITIAL, evs[..|evs| - 1]), evs[|evs| - 1])
  }

  lemma CharsAppend(a: seq<Byte>, b: seq<Byte>)
    ensures Chars(a + b) == Chars(a) + Chars(b)
  {
  }

  lemma TaggedChars(p: Proc, text: string)
    ensures Chars(Tagged(p, text)) == text
  {
  }

  // ── The line that ends the host process ──

  /** A line that is JSON `null`. */
  predicate Fatal(cfg: Config, line: string) {
    line != "" && cfg.parse(line) == JsonNull
  }

  predicate AnyFatal(cfg: Config, lines: seq<string>) {
    exists i :: 0 <= i < |lines| && Fatal(cfg, lines[i])
  }

  lemma {:induction false} LinesCrash(cfg: Config, st: State, lines: seq<string>)
    ensures HandleAll(cfg, st, lines).crashed <==> st.crashed || AnyFatal(cfg, lines)
    decreases |lines|
  {
    if lines != [] && !st.crashed {
      LinesCrash(cfg, HandleLine(cfg, st, lines[0]), lines[1..]);
      if AnyFatal(cfg, lines) && !Fatal(cfg, lines[0]) {
        var i :| 0 <= i < |lines| && Fatal(cfg, lines[i]);
        assert lines[1..][i - 1] == lines[i];
      }
    }
  }

  /** A chunk crashes the handler iff it completes a line that is `null`, and otherwise leaves just the rest. */
  lemma FeedCrashes(cfg: Config, st: State, chunk: string)
    requires !st.crashed
    ensures Feed(cfg, st, chunk).crashed <==> AnyFatal(cfg, Lines(st.buf + chunk))
    ensures !Feed(cfg, st, chunk).crashed ==> Feed(cfg, st, chunk).buf == Rest(st.buf + chunk)
  {
    var fed := st.(buf := st.buf + chunk);
    DrainDecodes(cfg, fed);
    LinesCrash(cfg, fed, Lines(fed.buf));
    assert Drain(cfg, fed).crashed == HandleAll(cfg, fed, Lines(fed.buf)).crashed;
  }

  lemma AnyFatalAppend(cfg: Config, a: seq<string>, b: seq<string>)
    ensures AnyFatal(cfg, a + b) <==> AnyFatal(cfg, a) || AnyFatal(cfg, b)
  {
    if AnyFatal(cfg, a) {
      var i :| 0 <= i < |a| && Fatal(cfg, a[i]);
      assert (a + b)[i] == a[i];
    }
    if AnyFatal(cfg, b) {
      var i :| 0 <= i < |b| && Fatal(cfg, b[i]);
      assert (a + b)[|a| + i] == b[i];
    }
  }

  lemma OnlyDataFeeds(cfg: Config, st: State, e: Event)
    requires !e.Data? || !Enabled(st, e)
    ensures Step(cfg, st, e).buf == st.buf && Step(cfg, st, e).crashed == st.crashed
  {
    if Enabled(st, e) {
      match e
      case Begin =>
      case Submit(_) =>
      case End(_, _) =>
      case Fire(_) =>
      case Stop =>
    }
  }

  lemma {:induction false} DataCrashes(cfg: Config, st: State, text: string, e: Event)
    requires e.Data? && Enabled(st, e) && !AnyFatal(cfg, Lines(text)) && st.buf == Rest(text)
    ensures var st' := Step(cfg, st, e);
            && (st'.crashed <==> AnyFatal(cfg, Lines(text + e.chunk)))
            && (!st'.crashed ==> st'.buf == Rest(text + e.chunk))
  {
    LinesAppend(text, e.chunk);
    AnyFatalAppend(cfg, Lines(text), Lines(Rest(text) + e.chunk));
    FeedCrashes(cfg, st, e.chunk);
    hide Feed, Lines, Rest, AnyFatal;
  }

  /** A run has crashed iff it received a line that is `null`; before that, its buffer is the incomplete tail. */
  lemma {:induction false} CrashesIffNull(cfg: Config, evs: seq<Event>)
    ensures var st, text := Run(cfg, INITIAL, evs), Chars(Bytes(cfg, evs));
            (st.crashed <==> AnyFatal(cfg, Lines(text))) && (!st.crashed ==> st.buf == Rest(text))
  {
    if evs != [] {
      var init, e := evs[..|evs| - 1], evs[|evs| - 1];
      var st, text := Run(cfg, INITIAL, init), Chars(Bytes(cfg, init));
      CrashesIffNull(cfg, init);
      hide Lines, Rest, AnyFatal, Step;
      if e.Data? && Enabled(st, e) {
        CharsAppend(Bytes(cfg, init), Tagged(e.source, e.chunk));
        TaggedChars(e.source, e.chunk);
        DataCrashes(cfg, st, text, e);
      } else {
        OnlyDataFeeds(cfg, st, e);
        assert Bytes(cfg, evs) == Bytes(cfg, init);
      }
    }
  }

  lemma {:induction false} NothingAfterCrash(cfg: Config, evs: seq<Event>, more: seq<Event>)
    requires Run(cfg, INITIAL, evs).crashed
    ensures Run(cfg, INITIAL, evs + more) == Run(cfg, INITIAL, evs)
  {
    if more == [] {
      assert evs + more == evs;
    } else {
      assert (evs + more)[..|evs + more| - 1] == evs + more[..|more| - 1];
      NothingAfterCrash(cfg, evs, more[..|more| - 1]);
    }
  }

  /** The calls pending at a crash are never settled: not by a response, a timeout or an exit. */
  lemma CrashStrands(cfg: Config, evs: seq<Event>, more: seq<Event>, id: int)
    requires Run(cfg, INITIAL, evs).crashed && id in Run(cfg, INITIAL, evs).pending
    ensures id in Run(cfg, INITIAL, evs + more).pending && id !in Run(cfg, INITIAL, evs + more).outcomes
  {
    NothingAfterCrash(cfg, evs, more);
    Reachable(cfg, evs);
  }

  /** The lines before it in the same chunk are handled, the ones after it are not. */
  lemma {:induction false} NullCutsOff(cfg: Config, st: State, before: seq<string>, line: string, after: seq<string>)
    requires !st.crashed && !AnyFatal(cfg, before) && Fatal(cfg, line)
    ensures HandleAll(cfg, st, before + ([line] + after)) == HandleAll(cfg, st, before).(crashed := true)
    decreases |before|
  {
    var all := before + ([line] + after);
    if before == [] {
      assert all[0] == line;
    } else {
      assert all[0] == before[0] && all[1..] == before[1..] + ([line] + after);
      assert !Fatal(cfg, before[0]);
      assert forall i :: 0 <= i < |before[1..]| ==> before[1..][i] == before[i + 1];
      NullCutsOff(cfg, HandleLine(cfg, st, before[0]), before[1..], line, after);
    }
  }

  lemma RunSnoc(cfg: Config, evs: seq<Event>, e: Event)
    ensures Run(cfg, INITIAL, evs + [e]) == Step(cfg, Run(cfg, INITIAL, evs), e)
  {
    assert (evs + [e])[..|evs|] == evs;
  }

  /** The state after the first call has been sent to process 0. */
  function FirstSent(): State {
    INITIAL.(proc := Some(0), spawned := 1, nextId := 2, pending := map[1 := 0], timers := map[1 := 0],
             sent := map[1 := 0])
  }

  lemma ReachesFirstSent(cfg: Config)
    requires cfg.maxQueue >= 1 && cfg.maxRestarts >= 0
    ensures Run(cfg, INITIAL, [Begin, Submit(false)]) == FirstSent()
  {
    RunSnoc(cfg, [], Begin);
    RunSnoc(cfg, [Begin], Submit(false));
    assert [] + [Begin] == [Begin] && [Begin] + [Submit(false)] == [Begin, Submit(false)];
    assert Run(cfg, INITIAL, []) == INITIAL;
  }

  lemma NullTrims()
    ensures Trim("null") == "null" && '\n' !in "null"
  {
    assert !IsSpace("null"[0]) && !IsSpace("null"[3]);
  }

  lemma NullCrashes(cfg: Config, st: State)
    requires !st.crashed && st.buf == "" && st.spawned > 0 && cfg.parse("null") == JsonNull
    ensures Step(cfg, st, Data(0, "null" + "\n")) == st.(crashed := true)
  {
    NullTrims();
    FeedWholeLine(cfg, st, "null");
  }

  /** A concrete run that ends so: the first call is answered with the line `null`. */
  lemma NullStrandsFirstCall(cfg: Config, more: seq<Event>)
    requires cfg.maxQueue >= 1 && cfg.maxRestarts >= 0 && cfg.parse("null") == JsonNull
    ensures var st := Run(cfg, INITIAL, [Begin, Submit(false)] + [Data(0, "null" + "\n")] + more);
            st.crashed && 1 in st.pending && 1 !in st.outcomes
  {
    var evs, last := [Begin, Submit(false)], Data(0, "null" + "\n");
    ReachesFirstSent(cfg);
    NullCrashes(cfg, FirstSent());
    RunSnoc(cfg, evs, last);
    NothingAfterCrash(cfg, evs + [last], more);
  }

  // ── Whose line it is ──

  /** What has arrived since the last newline, whoever sent that. */
  function Tail(bs: seq<Byte>): seq<Byte> {
    if bs == [] || bs[|bs| - 1].c == '\n' then [] else Tail(bs[..|bs| - 1]) + [bs[|bs| - 1]]
  }

  /** What process `p` wrote. */
  function Own(bs: seq<Byte>, p: Proc): seq<Byte> {
    if bs == [] then [] else Own(bs[..|bs| - 1], p) + if bs[|bs| - 1].src == p then [bs[|bs| - 1]] else []
  }

  function TrimBytes(bs: seq<Byte>): seq<Byte> {
    bs[InkStart(Chars(bs))..InkEnd(Chars(bs))]
  }

  /** The part of the line `p` is writing that another process's newline has already ended. */
  function Lost(bs: seq<Byte>, p: Proc): seq<Byte> {
    if bs == [] then []
    else if bs[|bs| - 1].c != '\n' then Lost(bs[..|bs| - 1], p)
    else if bs[|bs| - 1].src == p then []
    else Tail(Own(bs[..|bs| - 1], p))
  }

  predicate AllFrom(bs: seq<Byte>, p: Proc) {
    forall i :: 0 <= i < |bs| ==> bs[i].src == p
  }

  /**
   * The line `p` is writing has stayed its own: between its first and last visible character there is nothing
   * from anyone else, and nothing visible of it has been ended by someone else's newline.
   */
  predicate Undisturbed(bs: seq<Byte>, p: Proc) {
    AllFrom(TrimBytes(Tail(bs)), p) && Blank(Chars(Lost(bs, p)))
  }

  lemma TrimBytesChars(bs: seq<Byte>)
    ensures Chars(TrimBytes(bs)) == Trim(Chars(bs))
  {
  }

  lemma {:induction false} RestHasNone(text: string)
    requires '\n' !in text
    ensures Rest(text) == text && Lines(text) == []
  {
  }

  lemma OneMoreNewline(text: string)
    ensures Rest(text + ['\n']) == "" && Lines(text + ['\n']) == Lines(text) + [Trim(Rest(text))]
  {
    var r := Rest(text);
    LinesAppend(text, ['\n']);
    RestHasNoNewline(text);
    LineEnds(r);
    LinesFirst(r + "\n", |r|, r, "");
    RestHasNone("");
  }

  lemma {:induction false} OneMoreOther(text: string, c: char)
    requires c != '\n'
    ensures Rest(text + [c]) == Rest(text) + [c] && Lines(text + [c]) == Lines(text)
  {
    LinesAppend(text, [c]);
    RestHasNoNewline(text);
    RestHasNone(Rest(text) + [c]);
    assert Lines(text) + [] == Lines(text);
  }

  lemma TailSnoc(bs: seq<Byte>, b: Byte)
    ensures Tail(bs + [b]) == if b.c == '\n' then [] else Tail(bs) + [b]
  {
    assert (bs + [b])[..|bs|] == bs;
  }

  lemma CharsSnoc(bs: seq<Byte>, b: Byte)
    ensures Chars(bs + [b]) == Chars(bs) + [b.c]
  {
  }

  lemma RestSnoc(bs: seq<Byte>, b: Byte)
    requires Chars(Tail(bs)) == Rest(Chars(bs))
    ensures Chars(Tail(bs + [b])) == Rest(Chars(bs + [b]))
  {
    TailSnoc(bs, b);
    CharsSnoc(bs, b);
    CharsSnoc(Tail(bs), b);
    if b.c == '\n' { OneMoreNewline(Chars(bs)); } else { OneMoreOther(Chars(bs), b.c); }
  }

  lemma {:induction false} TailIsRest(bs: seq<Byte>)
    ensures Chars(Tail(bs)) == Rest(Chars(bs))
  {
    if bs == [] {
      RestHasNone("");
    } else {
      TailIsRest(bs[..|bs| - 1]);
      RestSnoc(bs[..|bs| - 1], bs[|bs| - 1]);
      assert bs[..|bs| - 1] + [bs[|bs| - 1]] == bs;
    }
  }

  lemma {:induction false} OwnAppend(a: seq<Byte>, b: seq<Byte>, p: Proc)
    ensures Own(a + b, p) == Own(a, p) + Own(b, p)
  {
    if b == [] {
      assert a + b == a;
    } else {
      assert (a + b)[..|a + b| - 1] == a + b[..|b| - 1];
      OwnAppend(a, b[..|b| - 1], p);
    }
  }

  lemma {:induction false} OwnOfOwn(bs: seq<Byte>, p: Proc)
    ensures AllFrom(Own(bs, p), p) && (AllFrom(bs, p) ==> Own(bs, p) == bs)
    ensures |Own(bs, p)| <= |bs| && forall b :: b in Own(bs, p) ==> b in bs
  {
    if bs != [] { OwnOfOwn(bs[..|bs| - 1], p); }
  }

  lemma OwnSnoc(bs: seq<Byte>, b: Byte, p: Proc)
    ensures Own(bs + [b], p) == if b.src == p then Own(bs, p) + [b] else Own(bs, p)
  {
    assert (bs + [b])[..|bs|] == bs;
    assert Own(bs, p) + [] == Own(bs, p);
  }

  lemma LostSnoc(bs: seq<Byte>, b: Byte, p: Proc)
    ensures Lost(bs + [b], p) == if b.c != '\n' then Lost(bs, p) else if b.src == p then [] else Tail(Own(bs, p))
  {
    assert (bs + [b])[..|bs|] == bs;
  }

  lemma Assoc3(x: seq<Byte>, y: seq<Byte>, b: Byte)
    ensures x + y + [b] == x + (y + [b])
  {
  }

  lemma OwnTailSnoc(bs: seq<Byte>, b: Byte, p: Proc)
    requires Tail(Own(bs, p)) == Lost(bs, p) + Own(Tail(bs), p)
    ensures Tail(Own(bs + [b], p)) == Lost(bs + [b], p) + Own(Tail(bs + [b]), p)
  {
    OwnSnoc(bs, b, p);
    LostSnoc(bs, b, p);
    TailSnoc(bs, b);
    TailSnoc(Own(bs, p), b);
    OwnSnoc(Tail(bs), b, p);
    Assoc3(Lost(bs, p), Own(Tail(bs), p), b);
  }

  /** What `p` has written of its current line: what was lost of it, then what is still in the buffer. */
  lemma {:induction false} OwnTail(bs: seq<Byte>, p: Proc)
    ensures Tail(Own(bs, p)) == Lost(bs, p) + Own(Tail(bs), p)
  {
    if bs != [] {
      OwnTail(bs[..|bs| - 1], p);
      OwnTailSnoc(bs[..|bs| - 1], bs[|bs| - 1], p);
      assert bs[..|bs| - 1] + [bs[|bs| - 1]] == bs;
    }
  }

  lemma OwnOne(b: Byte, p: Proc)
    ensures Own([b], p) == if b.src == p then [b] else []
  {
    assert [b][..0] == [];
  }

  lemma {:induction false} TailFrom(bs: seq<Byte>, p: Proc)
    requires AllFrom(bs, p)
    ensures AllFrom(Tail(bs), p)
  {
    if bs != [] { TailFrom(bs[..|bs| - 1], p); }
  }

  lemma InkBounds(text: string, a: nat, b: nat)
    requires a < b <= |text| && !IsSpace(text[a]) && !IsSpace(text[b - 1])
    requires (forall i :: 0 <= i < a ==> IsSpace(text[i])) && (forall i :: b <= i < |text| ==> IsSpace(text[i]))
    ensures InkStart(text) == a && InkEnd(text) == b
  {
  }

  /** Blank margins do not show: what lies between them is what `trim` leaves. */
  lemma MarginsGo(x: seq<Byte>, core: seq<Byte>, y: seq<Byte>)
    requires Blank(Chars(x)) && Blank(Chars(y))
    requires core != [] ==> !IsSpace(core[0].c) && !IsSpace(core[|core| - 1].c)
    ensures TrimBytes(x + core + y) == core
  {
    var all := x + core + y;
    var text, a, b := Chars(all), |x|, |x| + |core|;
    forall i | 0 <= i < a ensures IsSpace(text[i]) { assert text[i] == Chars(x)[i]; }
    forall i | b <= i < |text| ensures IsSpace(text[i]) { assert text[i] == Chars(y)[i - b]; }
    assert all[a..b] == core;
    if core == [] {
      assert InkStart(text) == |text|;
    } else {
      assert text[a] == core[0].c && text[b - 1] == core[|core| - 1].c;
      InkBounds(text, a, b);
    }
  }

  /** A text is blank margins around what `trim` leaves. */
  lemma Margins(bs: seq<Byte>) returns (x: seq<Byte>, y: seq<Byte>)
    ensures bs == x + TrimBytes(bs) + y && Blank(Chars(x)) && Blank(Chars(y))
    ensures TrimBytes(bs) != [] ==> !IsSpace(TrimBytes(bs)[0].c) && !IsSpace(TrimBytes(bs)[|TrimBytes(bs)| - 1].c)
  {
    var a, b := InkStart(Chars(bs)), InkEnd(Chars(bs));
    x, y := bs[..a], bs[b..];
    assert forall i :: 0 <= i < |y| ==> Chars(y)[i] == Chars(bs)[b + i];
    assert forall i :: 0 <= i < |x| ==> Chars(x)[i] == Chars(bs)[i];
    if a < b { assert bs[a..b][0] == bs[a] && bs[a..b][b - a - 1] == bs[b - 1]; }
  }

  lemma OwnBlank(bs: seq<Byte>, p: Proc)
    requires Blank(Chars(bs))
    ensures Blank(Chars(Own(bs, p)))
  {
    OwnOfOwn(bs, p);
    forall i | 0 <= i < |Own(bs, p)| ensures IsSpace(Own(bs, p)[i].c) {
      assert Own(bs, p)[i] in bs;
      var k :| 0 <= k < |bs| && bs[k] == Own(bs, p)[i];
      assert Chars(bs)[k] == bs[k].c;
    }
  }

  /** If nobody else is between the first and the last visible character, taking the others out changes nothing. */
  lemma {:induction false} OthersOnlyInMargins(bs: seq<Byte>, p: Proc)
    requires AllFrom(TrimBytes(bs), p)
    ensures TrimBytes(Own(bs, p)) == TrimBytes(bs)
  {
    var core := TrimBytes(bs);
    var x, y := Margins(bs);
    OwnAppend(x + core, y, p);
    OwnAppend(x, core, p);
    OwnOfOwn(core, p);
    OwnBlank(x, p);
    OwnBlank(y, p);
    MarginsGo(Own(x, p), core, Own(y, p));
  }

  lemma BlanksJoin(x: seq<Byte>, y: seq<Byte>)
    requires Blank(Chars(x)) && Blank(Chars(y))
    ensures Blank(Chars(x + y))
  {
    CharsAppend(x, y);
  }

  lemma BlankInFront(lost: seq<Byte>, rest: seq<Byte>)
    ensures TrimBytes(lost + rest) == TrimBytes(rest) <==> Blank(Chars(lost))
  {
    if Blank(Chars(lost)) {
      var x, y := Margins(rest);
      var core := TrimBytes(rest);
      BlanksJoin(lost, x);
      hide TrimBytes, Chars, Blank;
      assert lost + rest == (lost + x) + core + y;
      MarginsGo(lost + x, core, y);
    } else {
      hide TrimBytes, Trim;
      CharsAppend(lost, rest);
      LeftoverVisible(Chars(lost), Chars(rest));
      TrimBytesChars(lost + rest);
      TrimBytesChars(rest);
    }
  }

  lemma OwnLineIfUndisturbed(bs: seq<Byte>, p: Proc)
    requires AllFrom(TrimBytes(Tail(bs)), p)
    ensures TrimBytes(Tail(bs)) == TrimBytes(Tail(Own(bs, p))) <==> Blank(Chars(Lost(bs, p)))
  {
    OwnTail(bs, p);
    BlankInFront(Lost(bs, p), Own(Tail(bs), p));
    OthersOnlyInMargins(Tail(bs), p);
  }

  lemma WrittenAllFrom(bs: seq<Byte>, p: Proc)
    ensures AllFrom(TrimBytes(Tail(Own(bs, p))), p)
  {
    OwnOfOwn(bs, p);
    TailFrom(Own(bs, p), p);
  }

  /** What is handled when `p` completes a line is the line `p` wrote, byte for byte, iff it was undisturbed. */
  lemma {:induction false} OwnLineExactly(bs: seq<Byte>, p: Proc)
    ensures TrimBytes(Tail(bs)) == TrimBytes(Tail(Own(bs, p))) <==> Undisturbed(bs, p)
  {
    WrittenAllFrom(bs, p);
    if AllFrom(TrimBytes(Tail(bs)), p) { OwnLineIfUndisturbed(bs, p); }
  }

  lemma Newline(bs: seq<Byte>, p: Proc)
    ensures Lines(Chars(bs + [Byte(p, '\n')])) == Lines(Chars(bs)) + [Trim(Chars(Tail(bs)))]
  {
    CharsAppend(bs, [Byte(p, '\n')]);
    assert Chars([Byte(p, '\n')]) == ['\n'];
    OneMoreNewline(Chars(bs));
    TailIsRest(bs);
  }

  /** The line that byte `n` of a run completes, as it is handled and as its process wrote it. */
  function HandledAt(cfg: Config, evs: seq<Event>, n: nat): seq<Byte>
    requires n < |Bytes(cfg, evs)|
  {
    TrimBytes(Tail(Bytes(cfg, evs)[..n]))
  }

  function WrittenAt(cfg: Config, evs: seq<Event>, n: nat, p: Proc): seq<Byte>
    requires n < |Bytes(cfg, evs)|
  {
    TrimBytes(Tail(Own(Bytes(cfg, evs)[..n], p)))
  }

  /**
   * Over any run, whoever else emits and whatever is left over from whom: the line a process completes is the next
   * line handled, it is meant as the next line of its own output, and the two are the same bytes iff the line was
   * undisturbed. Then, in particular, they are the same text.
   */
  lemma LinesAreOwnExactly(cfg: Config, evs: seq<Event>, n: nat, p: Proc)
    requires n < |Bytes(cfg, evs)| && Bytes(cfg, evs)[n] == Byte(p, '\n')
    ensures var bs := Bytes(cfg, evs);
            && Lines(Chars(bs[..n + 1])) == Lines(Chars(bs[..n])) + [Chars(HandledAt(cfg, evs, n))]
            && Lines(Chars(Own(bs[..n + 1], p))) == Lines(Chars(Own(bs[..n], p))) + [Chars(WrittenAt(cfg, evs, n, p))]
            && (HandledAt(cfg, evs, n) == WrittenAt(cfg, evs, n, p) <==> Undisturbed(bs[..n], p))
  {
    var bs := Bytes(cfg, evs);
    assert bs[..n + 1] == bs[..n] + [Byte(p, '\n')];
    Newline(bs[..n], p);
    TrimBytesChars(Tail(bs[..n]));
    OwnAppend(bs[..n], [Byte(p, '\n')], p);
    OwnOne(Byte(p, '\n'), p);
    Newline(Own(bs[..n], p), p);
    TrimBytesChars(Tail(Own(bs[..n], p)));
    OwnLineExactly(bs[..n], p);
  }

  /** Every line completed during a run reaches the handler, in this order: one chunk handles just its own lines. */
  lemma ChunkHandlesItsLines(cfg: Config, evs: seq<Event>, e: Event)
    requires e.Data? && Enabled(Run(cfg, INITIAL, evs), e)
    ensures var st, fed := Run(cfg, INITIAL, evs), Lines(Run(cfg, INITIAL, evs).buf + e.chunk);
            && Lines(Chars(Bytes(cfg, evs + [e]))) == Lines(Chars(Bytes(cfg, evs))) + fed
            && Run(cfg, INITIAL, evs + [e]).(buf := "") == HandleAll(cfg, st, fed).(buf := "")
  {
    var st := Run(cfg, INITIAL, evs);
    var fed := st.(buf := st.buf + e.chunk);
    CrashesIffNull(cfg, evs);
    RunSnoc(cfg, evs, e);
    assert (evs + [e])[..|evs|] == evs;
    CharsAppend(Bytes(cfg, evs), Tagged(e.source, e.chunk));
    TaggedChars(e.source, e.chunk);
    LinesAppend(Chars(Bytes(cfg, evs)), e.chunk);
    DrainDecodes(cfg, fed);
    HandleAllBuf(cfg, st, Lines(fed.buf), fed.buf);
  }

  // ── Handing over, when nobody else emits ──

  lemma {:induction false} AloneTail(bs: seq<Byte>, t: seq<Byte>, p: Proc)
    ensures Tail(bs + t) == if '\n' in Chars(t) then Tail(t) else Tail(bs) + t
  {
    if t == [] {
      assert bs + t == bs && Tail(bs) + t == Tail(bs);
    } else {
      var init, b := t[..|t| - 1], t[|t| - 1];
      AloneTail(bs, init, p);
      assert t == init + [b] && bs + t == (bs + init) + [b];
      TailSnoc(bs + init, b);
      assert Chars(t) == Chars(init) + [b.c];
      assert Tail(bs) + init + [b] == Tail(bs) + t;
    }
  }

  lemma {:induction false} AloneLosesNothing(bs: seq<Byte>, t: seq<Byte>, p: Proc)
    requires AllFrom(t, p) && Own(bs, p) == []
    ensures Lost(bs + t, p) == []
  {
    if t == [] {
      assert bs + t == bs;
      OwnTail(bs, p);
    } else {
      assert (bs + t)[..|bs + t| - 1] == bs + t[..|t| - 1];
      AloneLosesNothing(bs, t[..|t| - 1], p);
    }
  }

  /** Everything alone: a process that is the only one to emit after `bs`, having emitted nothing before. */
  lemma AloneOnceLineEnded(bs: seq<Byte>, t: seq<Byte>, p: Proc)
    requires AllFrom(t, p) && Own(bs, p) == [] && '\n' in Chars(t)
    ensures Undisturbed(bs + t, p)
  {
    AloneTail(bs, t, p);
    AloneLosesNothing(bs, t, p);
    TailFrom(t, p);
  }

  lemma {:induction false} AloneOnFirstLine(bs: seq<Byte>, t: seq<Byte>, p: Proc)
    requires AllFrom(t, p) && Own(bs, p) == [] && '\n' !in Chars(t)
    ensures Undisturbed(bs + t, p) <==> Blank(Chars(Tail(bs)))
  {
    AloneTail(bs, t, p);
    AloneLosesNothing(bs, t, p);
    OwnAppend(bs, t, p);
    OwnOfOwn(t, p);
    assert [] + t == t;
    NoNewlineTail(t);
    OwnLineExactly(bs + t, p);
    BlankInFront(Tail(bs), t);
  }

  lemma {:induction false} NoNewlineTail(t: seq<Byte>)
    requires '\n' !in Chars(t)
    ensures Tail(t) == t
  {
    if t != [] {
      assert Chars(t) == Chars(t[..|t| - 1]) + [t[|t| - 1].c];
      NoNewlineTail(t[..|t| - 1]);
    }
  }

  lemma SpawnedGrows(cfg: Config, st: State, e: Event)
    ensures st.spawned <= Step(cfg, st, e).spawned
  {
    if Enabled(st, e) && e.Data? { DrainFramed(cfg, st.(buf := st.buf + e.chunk)); }
  }

  /** Nobody is heard before being started. */
  lemma {:induction false} HeardAreSpawned(cfg: Config, evs: seq<Event>)
    ensures forall b :: b in Bytes(cfg, evs) ==> b.src < Run(cfg, INITIAL, evs).spawned
  {
    if evs != [] {
      HeardAreSpawned(cfg, evs[..|evs| - 1]);
      SpawnedGrows(cfg, Run(cfg, INITIAL, evs[..|evs| - 1]), evs[|evs| - 1]);
    }
  }

  lemma {:induction false} UnheardWroteNothing(bs: seq<Byte>, p: Proc)
    requires forall b :: b in bs ==> b.src != p
    ensures Own(bs, p) == []
  {
    if bs != [] { UnheardWroteNothing(bs[..|bs| - 1], p); }
  }

  lemma ReceivedFrom(st: State, e: Event, p: Proc)
    requires e.Data? ==> e.source == p
    ensures AllFrom(Received(st, e), p)
  {
  }

  lemma {:induction false} BytesFrom(cfg: Config, evs: seq<Event>, more: seq<Event>, p: Proc) returns (t: seq<Byte>)
    requires forall i :: 0 <= i < |more| && more[i].Data? ==> more[i].source == p
    ensures Bytes(cfg, evs + more) == Bytes(cfg, evs) + t && AllFrom(t, p)
  {
    hide Received, Run;
    if more == [] {
      t := [];
      assert evs + more == evs && Bytes(cfg, evs) + [] == Bytes(cfg, evs);
    } else {
      var init, e := more[..|more| - 1], more[|more| - 1];
      var before := BytesFrom(cfg, evs, init, p);
      var last := Received(Run(cfg, INITIAL, evs + init), e);
      ReceivedFrom(Run(cfg, INITIAL, evs + init), e, p);
      assert (evs + more)[..|evs + more| - 1] == evs + init;
      t := before + last;
      assert (Bytes(cfg, evs) + before) + last == Bytes(cfg, evs) + t;
    }
  }

  /** A process started after `evs`, and the only one to emit from then on: its current line is its own. */
  predicate OwnSince(cfg: Config, evs: seq<Event>, more: seq<Event>, p: Proc) {
    && |Bytes(cfg, evs)| <= |Bytes(cfg, evs + more)|
    && (Undisturbed(Bytes(cfg, evs + more), p)
        <==> '\n' in Chars(Bytes(cfg, evs + more)[|Bytes(cfg, evs)|..]) || Blank(Run(cfg, INITIAL, evs).buf))
  }

  /**
   * On any run: the lines of a process that is the only one to emit from its start on are its own, all but possibly
   * the first, and that one iff what the others left in the buffer is blank.
   */
  lemma AloneIsOwn(cfg: Config, evs: seq<Event>, more: seq<Event>, p: Proc)
    requires !Run(cfg, INITIAL, evs).crashed && Run(cfg, INITIAL, evs).spawned <= p
    requires forall i :: 0 <= i < |more| && more[i].Data? ==> more[i].source == p
    ensures OwnSince(cfg, evs, more, p)
  {
    var bs := Bytes(cfg, evs);
    HeardAreSpawned(cfg, evs);
    UnheardWroteNothing(bs, p);
    var t := BytesFrom(cfg, evs, more, p);
    assert (bs + t)[|bs|..] == t;
    CrashesIffNull(cfg, evs);
    TailIsRest(bs);
    if '\n' in Chars(t) { AloneOnceLineEnded(bs, t, p); } else { AloneOnFirstLine(bs, t, p); }
  }

  // ── The two ways it fails ──

  /** The first call has timed out, the second has been sent to the replacement. */
  function SecondSent(buf: string): State {
    State(Some(1), map[2 := 1], 3, buf, 1, map[2 := 1], map[1 := 0, 2 := 1], map[1 := [Rejected(TimedOut)]], 2, {0},
          {}, false)
  }

  function TimedOutState(buf: string): State {
    State(None, map[], 2, buf, 1, map[], map[1 := 0], map[1 := [Rejected(TimedOut)]], 1, {0}, {}, false)
  }

  lemma TimesOut(cfg: Config, buf: string)
    ensures Step(cfg, FirstSent().(buf := buf), Fire(1)) == TimedOutState(buf)
  {
    var st' := FireStep(FirstSent().(buf := buf), 1);
    assert [] + [Rejected(TimedOut)] == [Rejected(TimedOut)];
    assert st'.pending == map[] && st'.timers == map[] && st'.killed == {0};
    assert st'.outcomes == map[1 := [Rejected(TimedOut)]];
  }

  lemma Restarts(cfg: Config, buf: string)
    requires cfg.maxQueue >= 1 && cfg.maxRestarts >= 1
    ensures Step(cfg, TimedOutState(buf), Begin) == TimedOutState(buf).(proc := Some(1), spawned := 2)
    ensures Step(cfg, TimedOutState(buf).(proc := Some(1), spawned := 2), Submit(false)) == SecondSent(buf)
  {
  }

  function Replaced(evs: seq<Event>): seq<Event> {
    evs + [Fire(1)] + [Begin] + [Submit(false)]
  }

  lemma ReachesSecondSent(cfg: Config, evs: seq<Event>, buf: string)
    requires cfg.maxQueue >= 1 && cfg.maxRestarts >= 1 && Run(cfg, INITIAL, evs) == FirstSent().(buf := buf)
    ensures Run(cfg, INITIAL, Replaced(evs)) == SecondSent(buf)
  {
    TimesOut(cfg, buf);
    Restarts(cfg, buf);
    RunSnoc(cfg, evs, Fire(1));
    RunSnoc(cfg, evs + [Fire(1)], Begin);
    RunSnoc(cfg, evs + [Fire(1)] + [Begin], Submit(false));
  }

  const FIRST: seq<Event> := [Begin, Submit(false)]

  lemma ReachesFirst(cfg: Config)
    requires cfg.maxQueue >= 1 && cfg.maxRestarts >= 1
    ensures Run(cfg, INITIAL, FIRST) == FirstSent().(buf := "")
  {
    ReachesFirstSent(cfg);
    assert FirstSent().(buf := "") == FirstSent();
  }

  lemma HalfLineStays(cfg: Config, st: State, half: string)
    requires !st.crashed && st.buf == "" && '\n' !in half && st.spawned > 0
    ensures Step(cfg, st, Data(0, half)) == st.(buf := half)
  {
    assert st.buf + half == half;
    DrainDone(cfg, st.(buf := half));
  }

  /** Half a line, and a whole answer that the half line spoils. */
  predicate Spoils(cfg: Config, half: string, answer: string) {
    '\n' !in half && Answers(cfg, answer, 2) && cfg.parse(Trim(half + answer)) == NotJson
  }

  lemma AnswerLost(cfg: Config, half: string, answer: string)
    requires Spoils(cfg, half, answer)
    ensures Step(cfg, SecondSent(half), Data(1, answer + "\n")) == SecondSent("")
  {
    FeedToLineEnd(cfg, SecondSent(half), answer);
  }

  lemma AnswerHeard(cfg: Config, answer: string)
    requires Answers(cfg, answer, 2)
    ensures var st := Step(cfg, SecondSent(""), Data(1, answer + "\n"));
            2 !in st.pending && 2 in st.outcomes && IsResolved(st.outcomes[2])
  {
    FeedWholeLine(cfg, SecondSent(""), answer);
  }

  /** Without the half line the replacement's answer settles the second call. */
  lemma ReplacementIsHeard(cfg: Config, answer: string)
    requires cfg.maxQueue >= 1 && cfg.maxRestarts >= 1 && Answers(cfg, answer, 2)
    ensures var st := Run(cfg, INITIAL, Replaced(FIRST) + [Data(1, answer + "\n")]);
            2 !in st.pending && 2 in st.outcomes && IsResolved(st.outcomes[2])
  {
    ReachesFirst(cfg);
    ReachesSecondSent(cfg, FIRST, "");
    RunSnoc(cfg, Replaced(FIRST), Data(1, answer + "\n"));
    AnswerHeard(cfg, answer);
  }

  /** Half a line left over by the killed process: the replacement's answer is lost, the call stays pending. */
  lemma LeftoverLosesAnswer(cfg: Config, half: string, answer: string)
    requires cfg.maxQueue >= 1 && cfg.maxRestarts >= 1 && Spoils(cfg, half, answer)
    ensures var st := Run(cfg, INITIAL, Replaced(FIRST + [Data(0, half)]) + [Data(1, answer + "\n")]);
            2 in st.pending && 2 !in st.outcomes
  {
    var evs := FIRST + [Data(0, half)];
    ReachesFirst(cfg);
    HalfLineStays(cfg, FirstSent().(buf := ""), half);
    RunSnoc(cfg, FIRST, Data(0, half));
    ReachesSecondSent(cfg, evs, half);
    AnswerLost(cfg, half, answer);
    RunSnoc(cfg, Replaced(evs), Data(1, answer + "\n"));
  }

  /** Nothing left over, but the killed process emits half a line after its replacement has started: the same. */
  lemma LateChunkLosesAnswer(cfg: Config, half: string, answer: string)
    requires cfg.maxQueue >= 1 && cfg.maxRestarts >= 1 && Spoils(cfg, half, answer)
    ensures Run(cfg, INITIAL, Replaced(FIRST)).buf == ""
    ensures var st := Run(cfg, INITIAL, Replaced(FIRST) + [Data(0, half)] + [Data(1, answer + "\n")]);
            2 in st.pending && 2 !in st.outcomes
  {
    ReachesFirst(cfg);
    ReachesSecondSent(cfg, FIRST, "");
    HalfLineStays(cfg, SecondSent(""), half);
    RunSnoc(cfg, Replaced(FIRST), Data(0, half));
    AnswerLost(cfg, half, answer);
    RunSnoc(cfg, Replaced(FIRST) + [Data(0, half)], Data(1, answer + "\n"));
  }
}
