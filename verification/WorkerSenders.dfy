/** Whose answer settles a call, told from what each process itself has written. */
module WorkerSenders {
  import opened Text
  import opened WorkerAnswers
  import opened WorkerFraming
  import opened WorkerModel
  import opened WorkerRuns
  import opened WorkerStreams

  /** The lines process `p` has written, whoever else was writing. */
  function LinesOf(cfg: Config, evs: seq<Event>, p: Proc): seq<string> {
    Lines(Chars(Own(Bytes(cfg, evs), p)))
  }

  /** No process writes an answer to a call that was sent to another one. */
  ghost predicate WriteOwnAnswers(cfg: Config, evs: seq<Event>) {
    var sent := Run(cfg, INITIAL, evs).sent;
    forall p, i, id :: 0 <= i < |LinesOf(cfg, evs, p)| && id in sent && IsAnswerTo(cfg, LinesOf(cfg, evs, p)[i], id) ==>
      sent[id] == p
  }

  // ── The newline that settles a call ──

  /** Byte `n` of a run is the newline of line `i` of all that was received. */
  predicate EndsLine(bs: seq<Byte>, n: nat, i: nat) {
    && n < |bs| && bs[n].c == '\n' && i < |Lines(Chars(bs))|
    && Lines(Chars(bs))[i] == Chars(TrimBytes(Tail(bs[..n])))
  }

  lemma {:induction false} EachLineEnds(bs: seq<Byte>, i: nat) returns (n: nat)
    requires i < |Lines(Chars(bs))|
    ensures EndsLine(bs, n, i)
  {
    var init, b := bs[..|bs| - 1], bs[|bs| - 1];
    assert bs == init + [b];
    CharsSnoc(init, b);
    if b.c == '\n' {
      assert b == Byte(b.src, '\n');
      Newline(init, b.src);
      TrimBytesChars(Tail(init));
    } else {
      OneMoreOther(Chars(init), b.c);
    }
    if i < |Lines(Chars(init))| {
      n := EachLineEnds(init, i);
      assert bs[..n] == init[..n];
    } else {
      n := |init|;
    }
  }

  lemma BytesGrow(cfg: Config, evs: seq<Event>)
    requires evs != []
    ensures Bytes(cfg, evs[..|evs| - 1]) <= Bytes(cfg, evs)
  {
  }

  /** Byte `n` of the run is the newline of the line that settled the call, as it was handled. */
  predicate SettledBy(cfg: Config, evs: seq<Event>, id: int, n: nat) {
    && var st, bs := Run(cfg, INITIAL, evs), Bytes(cfg, evs);
       n < |bs| && bs[n].c == '\n' && id in st.sent && id in st.outcomes && st.outcomes[id] != []
       && Carries(cfg, Chars(HandledAt(cfg, evs, n)), id, st.outcomes[id][0])
  }

  lemma SentStays(cfg: Config, st: State, e: Event, id: int)
    requires id in st.sent && Inv(cfg, st)
    ensures id in Step(cfg, st, e).sent
  {
    if Enabled(st, e) && e.Data? {
      BufKeeps(cfg, st, st.buf + e.chunk);
      DrainKeeps(cfg, st.(buf := st.buf + e.chunk));
    }
  }

  lemma SettledEarlier(cfg: Config, evs: seq<Event>, id: int, n: nat)
    requires evs != [] && SettledBy(cfg, evs[..|evs| - 1], id, n)
    ensures SettledBy(cfg, evs, id, n)
  {
    var init, e := evs[..|evs| - 1], evs[|evs| - 1];
    Reachable(cfg, init);
    SentStays(cfg, Run(cfg, INITIAL, init), e, id);
    StepKeepsOutcome(cfg, Run(cfg, INITIAL, init), e, id);
    BytesGrow(cfg, evs);
    assert Bytes(cfg, evs)[..n] == Bytes(cfg, init)[..n];
  }

  lemma SettledNow(cfg: Config, init: seq<Event>, e: Event, id: int) returns (n: nat)
    requires id !in Run(cfg, INITIAL, init).outcomes
    requires var os := Run(cfg, INITIAL, init + [e]).outcomes; id in os && FromLine(os[id])
    ensures SettledBy(cfg, init + [e], id, n)
  {
    var st, evs := Run(cfg, INITIAL, init), init + [e];
    Reachable(cfg, init);
    RunSnoc(cfg, init, e);
    StepSettles(cfg, st, e, id);
    var i :| 0 <= i < |Completes(st, e)| && Carries(cfg, Completes(st, e)[i], id, Step(cfg, st, e).outcomes[id][0]);
    ChunkHandlesItsLines(cfg, init, e);
    n := EachLineEnds(Bytes(cfg, evs), |Lines(Chars(Bytes(cfg, init)))| + i);
    SentStays(cfg, st, e, id);
  }

  /** Every call that was answered was settled by a line that some process's newline completed. */
  lemma {:induction false} SomeNewlineSettled(cfg: Config, evs: seq<Event>, id: int) returns (n: nat)
    requires id in Run(cfg, INITIAL, evs).outcomes && FromLine(Run(cfg, INITIAL, evs).outcomes[id])
    ensures SettledBy(cfg, evs, id, n)
  {
    var init, e := evs[..|evs| - 1], evs[|evs| - 1];
    assert evs == init + [e];
    if id in Run(cfg, INITIAL, init).outcomes {
      Reachable(cfg, init);
      StepKeepsOutcome(cfg, Run(cfg, INITIAL, init), e, id);
      n := SomeNewlineSettled(cfg, init, id);
      SettledEarlier(cfg, evs, id, n);
    } else {
      n := SettledNow(cfg, init, e, id);
    }
  }

  // ── Whose line it was ──

  lemma PrefixLines(cfg: Config, evs: seq<Event>, n: nat, p: Proc)
    requires n < |Bytes(cfg, evs)|
    ensures Lines(Chars(Own(Bytes(cfg, evs)[..n + 1], p))) <= LinesOf(cfg, evs, p)
  {
    var bs := Bytes(cfg, evs);
    assert bs == bs[..n + 1] + bs[n + 1..];
    OwnAppend(bs[..n + 1], bs[n + 1..], p);
    CharsAppend(Own(bs[..n + 1], p), Own(bs[n + 1..], p));
    LinesAppend(Chars(Own(bs[..n + 1], p)), Chars(Own(bs[n + 1..], p)));
  }

  /** A line that a process completed undisturbed is one of the lines it wrote. */
  lemma UndisturbedIsWritten(cfg: Config, evs: seq<Event>, n: nat, p: Proc) returns (i: nat)
    requires n < |Bytes(cfg, evs)| && Bytes(cfg, evs)[n] == Byte(p, '\n') && Undisturbed(Bytes(cfg, evs)[..n], p)
    ensures i < |LinesOf(cfg, evs, p)| && LinesOf(cfg, evs, p)[i] == Chars(HandledAt(cfg, evs, n))
  {
    LinesAreOwnExactly(cfg, evs, n, p);
    PrefixLines(cfg, evs, n, p);
    i := |Lines(Chars(Own(Bytes(cfg, evs)[..n], p)))|;
  }

  lemma AnswerIsWritten(cfg: Config, evs: seq<Event>, id: int, n: nat)
    requires SettledBy(cfg, evs, id, n) && Undisturbed(Bytes(cfg, evs)[..n], Bytes(cfg, evs)[n].src)
    ensures var lines := LinesOf(cfg, evs, Bytes(cfg, evs)[n].src);
            exists i :: 0 <= i < |lines| && lines[i] == Chars(HandledAt(cfg, evs, n)) && IsAnswerTo(cfg, lines[i], id)
  {
    var q := Bytes(cfg, evs)[n].src;
    assert Bytes(cfg, evs)[n] == Byte(q, '\n');
    var i := UndisturbedIsWritten(cfg, evs, n, q);
    assert IsAnswerTo(cfg, LinesOf(cfg, evs, q)[i], id);
  }

  /** The call was sent to the process whose newline settled it, and the line is one that process wrote. */
  predicate FromItsSender(cfg: Config, evs: seq<Event>, id: int, n: nat)
    requires SettledBy(cfg, evs, id, n)
  {
    var q := Bytes(cfg, evs)[n].src;
    && Run(cfg, INITIAL, evs).sent[id] == q
    && exists i :: 0 <= i < |LinesOf(cfg, evs, q)| && LinesOf(cfg, evs, q)[i] == Chars(HandledAt(cfg, evs, n))
  }

  /**
   * If no process writes an answer to another one's call, then every call that was answered was settled at a newline
   * of some process, and where that process's line was undisturbed, the call was sent to this very process and the
   * line is one it wrote.
   */
  lemma RowsComeFromSender(cfg: Config, evs: seq<Event>, id: int) returns (n: nat)
    requires WriteOwnAnswers(cfg, evs)
    requires id in Run(cfg, INITIAL, evs).outcomes && FromLine(Run(cfg, INITIAL, evs).outcomes[id])
    ensures SettledBy(cfg, evs, id, n)
    ensures Undisturbed(Bytes(cfg, evs)[..n], Bytes(cfg, evs)[n].src) ==> FromItsSender(cfg, evs, id, n)
  {
    n := SomeNewlineSettled(cfg, evs, id);
    if Undisturbed(Bytes(cfg, evs)[..n], Bytes(cfg, evs)[n].src) { AnswerIsWritten(cfg, evs, id, n); }
  }

  // ── Where it was disturbed ──

  /** Two calls were sent to process 0, the first has timed out, and process 1 has taken over; call 2 still waits. */
  function TakenOver(buf: string): State {
    State(Some(1), map[2 := 0], 3, buf, 1, map[2 := 0], map[1 := 0, 2 := 0], map[1 := [Rejected(TimedOut)]], 2, {0},
          {}, false)
  }

  function BothSent(): State {
    FirstSent().(nextId := 3, pending := map[1 := 0, 2 := 0], timers := map[1 := 0, 2 := 0],
                 sent := map[1 := 0, 2 := 0])
  }

  function OneLeft(): State {
    State(None, map[2 := 0], 3, "", 1, map[2 := 0], map[1 := 0, 2 := 0], map[1 := [Rejected(TimedOut)]], 1, {0}, {},
          false)
  }

  const TAKE_OVER: seq<Event> := [Begin, Submit(false)] + [Submit(false)] + [Fire(1)] + [Begin]

  lemma SecondTimesOut()
    ensures FireStep(BothSent(), 1) == OneLeft()
  {
    var st' := FireStep(BothSent(), 1);
    assert [] + [Rejected(TimedOut)] == [Rejected(TimedOut)];
    assert st'.pending == map[2 := 0] && st'.killed == {0};
    assert st'.outcomes == map[1 := [Rejected(TimedOut)]];
  }

  lemma ReachesTakenOver(cfg: Config)
    requires cfg.maxQueue >= 2 && cfg.maxRestarts >= 1
    ensures Run(cfg, INITIAL, TAKE_OVER) == TakenOver("") && Bytes(cfg, TAKE_OVER) == []
  {
    var a := [Begin, Submit(false)];
    ReachesFirstSent(cfg);
    SecondTimesOut();
    RunSnoc(cfg, a, Submit(false));
    assert Step(cfg, FirstSent(), Submit(false)) == BothSent();
    RunSnoc(cfg, a + [Submit(false)], Fire(1));
    RunSnoc(cfg, a + [Submit(false)] + [Fire(1)], Begin);
    NoData(cfg, TAKE_OVER);
  }

  lemma {:induction false} NoData(cfg: Config, evs: seq<Event>)
    requires forall i :: 0 <= i < |evs| ==> !evs[i].Data?
    ensures Bytes(cfg, evs) == []
  {
    if evs != [] { NoData(cfg, evs[..|evs| - 1]); }
  }

  lemma BytesSnoc(cfg: Config, evs: seq<Event>, e: Event)
    requires e.Data? && Enabled(Run(cfg, INITIAL, evs), e)
    ensures Bytes(cfg, evs + [e]) == Bytes(cfg, evs) + Tagged(e.source, e.chunk)
  {
    assert (evs + [e])[..|evs|] == evs;
  }

  /** Process 0 leaves half a line, and process 1 ends it. */
  function Spliced(half: string, tail: string): seq<Event> {
    TAKE_OVER + [Data(0, half)] + [Data(1, tail + "\n")]
  }

  lemma SpliceSettles(cfg: Config, half: string, tail: string)
    requires '\n' !in half && '\n' !in tail && Answers(cfg, Trim(half + tail), 2)
    ensures Step(cfg, TakenOver(""), Data(0, half)) == TakenOver(half)
    ensures var st := Step(cfg, TakenOver(half), Data(1, tail + "\n"));
            2 in st.outcomes && IsResolved(st.outcomes[2]) && st.sent == TakenOver("").sent
  {
    HalfLineStays(cfg, TakenOver(""), half);
    FeedToLineEnd(cfg, TakenOver(half), tail);
  }

  lemma SplicedRun(cfg: Config, half: string, tail: string)
    requires cfg.maxQueue >= 2 && cfg.maxRestarts >= 1
    requires '\n' !in half && '\n' !in tail && Answers(cfg, Trim(half + tail), 2)
    ensures Bytes(cfg, Spliced(half, tail)) == Tagged(0, half) + Tagged(1, tail + "\n")
    ensures var st := Run(cfg, INITIAL, Spliced(half, tail));
            2 in st.outcomes && IsResolved(st.outcomes[2]) && st.sent == map[1 := 0, 2 := 0]
  {
    var evs := TAKE_OVER + [Data(0, half)];
    ReachesTakenOver(cfg);
    SpliceSettles(cfg, half, tail);
    RunSnoc(cfg, TAKE_OVER, Data(0, half));
    RunSnoc(cfg, evs, Data(1, tail + "\n"));
    BytesSnoc(cfg, TAKE_OVER, Data(0, half));
    BytesSnoc(cfg, evs, Data(1, tail + "\n"));
    assert [] + Tagged(0, half) == Tagged(0, half);
  }

  lemma {:induction false} OwnOfTagged(p: Proc, text: string, q: Proc)
    ensures Own(Tagged(p, text), q) == if p == q then Tagged(p, text) else []
  {
    if text != "" {
      assert Tagged(p, text)[..|text| - 1] == Tagged(p, text[..|text| - 1]);
      OwnOfTagged(p, text[..|text| - 1], q);
    }
  }

  lemma SplicedOwn(half: string, tail: string, p: Proc)
    ensures Chars(Own(Tagged(0, half) + Tagged(1, tail + "\n"), p))
         == if p == 0 then half else if p == 1 then tail + "\n" else ""
  {
    OwnAppend(Tagged(0, half), Tagged(1, tail + "\n"), p);
    OwnOfTagged(0, half, p);
    OwnOfTagged(1, tail + "\n", p);
    hide Own;
  }

  lemma SplicedLines(cfg: Config, half: string, tail: string, p: Proc)
    requires Bytes(cfg, Spliced(half, tail)) == Tagged(0, half) + Tagged(1, tail + "\n") && '\n' !in half
             && '\n' !in tail
    ensures LinesOf(cfg, Spliced(half, tail), p) == if p == 1 then [Trim(tail)] else []
  {
    SplicedOwn(half, tail, p);
    RestHasNone(half);
    RestHasNone(tail);
    RestHasNone("");
    OneMoreNewline(tail);
    hide Bytes, Own, Chars, Tagged, Lines, Trim;
  }

  lemma SplicedWriteOwn(cfg: Config, half: string, tail: string)
    requires Run(cfg, INITIAL, Spliced(half, tail)).sent == map[1 := 0, 2 := 0]
    requires Bytes(cfg, Spliced(half, tail)) == Tagged(0, half) + Tagged(1, tail + "\n") && '\n' !in half
             && '\n' !in tail
    requires !IsAnswerTo(cfg, Trim(tail), 1) && !IsAnswerTo(cfg, Trim(tail), 2)
    ensures WriteOwnAnswers(cfg, Spliced(half, tail))
  {
    var evs := Spliced(half, tail);
    forall p, i, id | 0 <= i < |LinesOf(cfg, evs, p)| && id in Run(cfg, INITIAL, evs).sent
      ensures !IsAnswerTo(cfg, LinesOf(cfg, evs, p)[i], id)
    {
      SplicedLines(cfg, half, tail, p);
      hide Run, Bytes, Spliced, Trim, IsAnswerTo, LinesOf;
    }
    hide Run, Bytes, Spliced, Trim, IsAnswerTo, LinesOf;
  }

  /**
   * Process 0 is killed in the middle of a line, process 1 ends that line: nobody has written an answer to anybody
   * else's call, and yet call 2, sent to process 0, is resolved at a newline of process 1. With `tail` empty, process
   * 1 has written a blank line only, and the rows are process 0's; otherwise they can be neither's.
   */
  lemma SpliceAnswers(cfg: Config, half: string, tail: string, n: nat)
    requires cfg.maxQueue >= 2 && cfg.maxRestarts >= 1
    requires '\n' !in half && '\n' !in tail && Answers(cfg, Trim(half + tail), 2)
    requires !IsAnswerTo(cfg, Trim(tail), 1) && !IsAnswerTo(cfg, Trim(tail), 2)
    ensures var st := Run(cfg, INITIAL, Spliced(half, tail)); 2 in st.outcomes && IsResolved(st.outcomes[2])
    ensures WriteOwnAnswers(cfg, Spliced(half, tail))
    ensures SettledBy(cfg, Spliced(half, tail), 2, n) ==>
              && Run(cfg, INITIAL, Spliced(half, tail)).sent[2] == 0 && Bytes(cfg, Spliced(half, tail))[n].src == 1
              && !Undisturbed(Bytes(cfg, Spliced(half, tail))[..n], 1)
  {
    var evs := Spliced(half, tail);
    SplicedRun(cfg, half, tail);
    SplicedWriteOwn(cfg, half, tail);
    SplicedLines(cfg, half, tail, 1);
    hide Run, Spliced, Undisturbed, Lines, Own, Trim, HandledAt;
    if SettledBy(cfg, evs, 2, n) && Undisturbed(Bytes(cfg, evs)[..n], 1) { AnswerIsWritten(cfg, evs, 2, n); }
  }
}
