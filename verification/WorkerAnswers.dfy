/** What one answer does, to its call and to a worker that gave up. */
module WorkerAnswers {
  import opened Text
  import opened WorkerFraming
  import opened WorkerModel
  import opened WorkerRuns

  // ── One whole line ──

  /** Completing the line in the buffer handles it and leaves the buffer empty. */
  lemma FeedToLineEnd(cfg: Config, st: State, tail: string)
    requires !st.crashed && '\n' !in st.buf && '\n' !in tail
    ensures Feed(cfg, st, tail + "\n") == HandleLine(cfg, st.(buf := ""), Trim(st.buf + tail))
  {
    var line := st.buf + tail;
    LineEnds(line);
    assert st.buf + (tail + "\n") == line + "\n";
    WholeLineDrains(cfg, st.(buf := line + "\n"), line);
  }

  lemma WholeLineDrains(cfg: Config, fed: State, line: string)
    requires !fed.crashed && IndexOf(fed.buf, '\n') == Some(|line|) && fed.buf[..|line|] == line
             && fed.buf[|line| + 1..] == ""
    ensures Drain(cfg, fed) == HandleLine(cfg, fed.(buf := ""), Trim(line))
  {
    DrainFirst(cfg, fed, |line|);
    LineKeepsBuf(cfg, fed.(buf := ""), Trim(line));
    DrainDone(cfg, HandleLine(cfg, fed.(buf := ""), Trim(line)));
  }

  lemma FeedWholeLine(cfg: Config, st: State, line: string)
    requires !st.crashed && st.buf == "" && '\n' !in line && Trim(line) == line
    ensures Feed(cfg, st, line + "\n") == HandleLine(cfg, st, line)
  {
    FeedToLineEnd(cfg, st, line);
    assert st.buf + line == line && st.(buf := "") == st;
  }

  /** `tail` completes whatever is in the buffer to a line that is ignored; "" does, for an empty buffer. */
  predicate Harmless(cfg: Config, st: State, tail: string) {
    '\n' !in tail && HandleLine(cfg, st.(buf := ""), Trim(st.buf + tail)) == st.(buf := "")
  }

  lemma EmptyIsHarmless(cfg: Config, st: State)
    requires st.buf == ""
    ensures Harmless(cfg, st, "")
  {
    assert Trim("" + "") == "";
    assert st.buf + "" == "";
  }

  /** The leftover completed, then a whole line. */
  function Then(tail: string, line: string): string {
    (tail + "\n") + (line + "\n")
  }

  lemma FeedAfterLeftover(cfg: Config, st: State, tail: string, line: string)
    requires !st.crashed && '\n' !in st.buf && Harmless(cfg, st, tail) && '\n' !in line && Trim(line) == line
    ensures Feed(cfg, st, Then(tail, line)) == HandleLine(cfg, st.(buf := ""), line)
  {
    FeedTwice(cfg, st, tail + "\n", line + "\n");
    FeedToLineEnd(cfg, st, tail);
    FeedToLineEnd(cfg, st.(buf := ""), line);
    assert "" + line == line;
  }

  // ── The call it names ──

  function OutcomeOf(msg: Message): Outcome {
    if msg.ok then Resolved(Flatten(msg.rows)) else Rejected(Answered(msg.error))
  }

  /** What the call of `id` sees of a response, and what every other call sees. */
  ghost predicate Delivered(st: State, st': State, id: int, o: Outcome) {
    && id !in st'.pending && id !in st'.timers && id in st'.outcomes && st'.outcomes[id] == [o]
    && st'.pending == st.pending - {id} && st'.timers == st.timers - {id}
    && forall other :: other != id ==>
         (other in st'.outcomes <==> other in st.outcomes)
         && (other in st.outcomes ==> st'.outcomes[other] == st.outcomes[other])
  }

  /** What the promise of a call has seen of a response: its rows as one list, or its error. */
  predicate Conveys(os: seq<Outcome>, msg: Message) {
    if !msg.ok then os == [Rejected(Answered(msg.error))]
    else match msg.rows
      case Missing => os == [Resolved([])]
      case One(row) => os == [Resolved([row])]
      case Many(list) => os == [Resolved(list)]
  }

  /** A response line settles the call it names with exactly what it carries, and no other call. */
  lemma AnswerReachesItsCall(cfg: Config, st: State, source: Proc, tail: string, line: string, id: int, msg: Message)
    requires Inv(cfg, st) && !st.crashed && source < st.spawned && Harmless(cfg, st, tail) && id in st.pending
    requires line != "" && '\n' !in line && Trim(line) == line && cfg.parse(line) == Json(msg) && msg.id == Some(id)
    ensures var st' := Step(cfg, st, Data(source, Then(tail, line)));
            Delivered(st, st', id, OutcomeOf(msg)) && Conveys(st'.outcomes[id], msg)
  {
    FeedAfterLeftover(cfg, st, tail, line);
    assert id !in st.outcomes;
  }

  // ── Several responses at once ──

  /** The line a response is printed as. */
  predicate Prints(cfg: Config, line: string, msg: Message) {
    line != "" && '\n' !in line && Trim(line) == line && cfg.parse(line) == Json(msg)
  }

  predicate AllPrint(cfg: Config, lines: seq<string>, msgs: seq<Message>) {
    |lines| == |msgs| && forall i :: 0 <= i < |lines| ==> Prints(cfg, lines[i], msgs[i])
  }

  /** Response `i` is the first of them for call `id`. */
  predicate FirstFor(msgs: seq<Message>, i: nat, id: int) {
    i < |msgs| && msgs[i].id == Some(id) && forall j :: 0 <= j < i ==> msgs[j].id != Some(id)
  }

  lemma HandledOnce(cfg: Config, st: State, line: string, msg: Message, id: int)
    requires !st.crashed && Prints(cfg, line, msg) && id in st.pending && id !in st.outcomes
    ensures var st' := HandleLine(cfg, st, line);
            && !st'.crashed
            && if msg.id == Some(id) then id !in st'.pending && id in st'.outcomes && Conveys(st'.outcomes[id], msg)
               else id in st'.pending && id !in st'.outcomes
  {
  }

  lemma HandledBefore(cfg: Config, st: State, line: string, msg: Message, id: int)
    requires !st.crashed && Prints(cfg, line, msg) && id !in st.pending
    ensures var st' := HandleLine(cfg, st, line);
            && !st'.crashed && id !in st'.pending && (id in st'.outcomes <==> id in st.outcomes)
            && (id in st.outcomes ==> st'.outcomes[id] == st.outcomes[id])
  {
  }

  lemma {:induction false} SettledStays(cfg: Config, st: State, lines: seq<string>, msgs: seq<Message>, id: int)
    requires !st.crashed && AllPrint(cfg, lines, msgs) && id !in st.pending && id in st.outcomes
    ensures var st' := HandleAll(cfg, st, lines);
            !st'.crashed && id !in st'.pending && id in st'.outcomes && st'.outcomes[id] == st.outcomes[id]
    decreases |lines|
  {
    if lines != [] {
      HandledBefore(cfg, st, lines[0], msgs[0], id);
      SettledStays(cfg, HandleLine(cfg, st, lines[0]), lines[1..], msgs[1..], id);
    }
  }

  lemma {:induction false} EachGetsItsRows(cfg: Config, st: State, lines: seq<string>, msgs: seq<Message>, i: nat,
                                           id: int)
    requires !st.crashed && AllPrint(cfg, lines, msgs) && id in st.pending && id !in st.outcomes
             && FirstFor(msgs, i, id)
    ensures var st' := HandleAll(cfg, st, lines);
            !st'.crashed && id !in st'.pending && id in st'.outcomes && Conveys(st'.outcomes[id], msgs[i])
    decreases |lines|
  {
    HandledOnce(cfg, st, lines[0], msgs[0], id);
    if i == 0 {
      SettledStays(cfg, HandleLine(cfg, st, lines[0]), lines[1..], msgs[1..], id);
    } else {
      assert FirstFor(msgs[1..], i - 1, id);
      EachGetsItsRows(cfg, HandleLine(cfg, st, lines[0]), lines[1..], msgs[1..], i - 1, id);
    }
  }

  /**
   * From a printer of responses to the callers: after any run, what a process prints for any calls, however the chunks
   * cut it, gives each call still pending exactly the rows, or the error, of the first response for it, as long as
   * nothing visible was left in the buffer.
   */
  lemma {:induction false} PrintedRowsArrive(cfg: Config, evs: seq<Event>, source: Proc, chunks: seq<string>,
                                             lines: seq<string>, msgs: seq<Message>, i: nat, id: int)
    requires var st := Run(cfg, INITIAL, evs); !st.crashed && Blank(st.buf) && source < st.spawned && id in st.pending
    requires AllPrint(cfg, lines, msgs) && Join(chunks) == Wire(lines) && FirstFor(msgs, i, id)
    ensures var st' := FeedAll(cfg, Run(cfg, INITIAL, evs), source, chunks);
            !st'.crashed && id !in st'.pending && id in st'.outcomes && Conveys(st'.outcomes[id], msgs[i])
  {
    var st := Run(cfg, INITIAL, evs);
    var fed := st.(buf := st.buf + Wire(lines));
    Reachable(cfg, evs);
    ChunkingInvisible(cfg, st, source, chunks);
    LeftoverIffBlank(st.buf, Wire(lines));
    WireDecodes(lines);
    DrainDecodes(cfg, fed);
    EachGetsItsRows(cfg, fed, lines, msgs, i, id);
    hide HandleAll, Drain, FeedAll, Conveys, Lines, Wire;
  }

  // ── Giving up ──

  /** A line a process could print to answer call `id` successfully. */
  predicate Answers(cfg: Config, line: string, id: int) {
    && line != "" && '\n' !in line && Trim(line) == line
    && cfg.parse(line).Json? && cfg.parse(line).msg.id == Some(id) && cfg.parse(line).msg.ok
  }

  lemma LateAnswer(cfg: Config, st: State, source: Proc, tail: string, id: int, line: string)
    requires !st.crashed && '\n' !in st.buf && source < st.spawned && Harmless(cfg, st, tail)
    requires id in st.pending && Answers(cfg, line, id)
    ensures var st' := Step(cfg, st, Data(source, Then(tail, line)));
            st'.restarts == 0 && !st'.crashed && st'.proc == st.proc && st'.spawned == st.spawned
  {
    FeedAfterLeftover(cfg, st, tail, line);
  }

  lemma RunTwo(cfg: Config, st: State, a: Event, b: Event)
    ensures Run(cfg, st, [a, b]) == Step(cfg, Step(cfg, st, a), b)
  {
    assert [a, b][..1] == [a] && [a][..0] == [];
    assert Run(cfg, st, [a]) == Step(cfg, Run(cfg, st, []), a);
  }

  /**
   * With a call still pending it is not final: a late answer resets the count. So at the ceiling the
   * worker can run again iff some call is pending. `tail` is any harmless end for a line left incomplete.
   */
  lemma {:induction false} GivesUpIffIdle(cfg: Config, st: State, tail: string, answer: int -> string)
    requires Inv(cfg, st) && st.restarts > cfg.maxRestarts >= 0 && !st.crashed && Harmless(cfg, st, tail)
    requires forall id :: id in st.pending ==> Answers(cfg, answer(id), id)
    ensures (exists evs :: Run(cfg, st, evs).spawned > st.spawned) <==> st.pending != map[]
  {
    if st.pending == map[] {
      forall evs ensures Run(cfg, st, evs).spawned == st.spawned {
        GivingUpIsAbsorbing(cfg, st, evs);
      }
    } else {
      var id :| id in st.pending;
      Revive(cfg, st, tail, id, answer(id));
    }
  }

  /** The answer may come from the very process the call was sent to, killed or not. */
  lemma Revive(cfg: Config, st: State, tail: string, id: int, line: string)
    requires Inv(cfg, st) && st.restarts > cfg.maxRestarts >= 0 && !st.crashed && Harmless(cfg, st, tail)
    requires id in st.pending && Answers(cfg, line, id)
    ensures exists evs :: Run(cfg, st, evs).spawned > st.spawned
  {
    var late := Data(st.pending[id], Then(tail, line));
    LateAnswer(cfg, st, st.pending[id], tail, id, line);
    RunTwo(cfg, st, late, Begin);
    assert BeginStep(cfg, Step(cfg, st, late)).spawned == st.spawned + 1;
    assert Run(cfg, st, [late, Begin]).spawned > st.spawned;
  }

  // ── Whose answer it is ──

  /** A line that carries the outcome `o` for call `id`. */
  predicate Carries(cfg: Config, line: string, id: int, o: Outcome) {
    && line != "" && cfg.parse(line).Json?
    && cfg.parse(line).msg.id == Some(id) && OutcomeOf(cfg.parse(line).msg) == o
  }

  lemma {:induction false} LinesSettle(cfg: Config, st: State, lines: seq<string>, id: int)
    requires id !in st.outcomes && id in HandleAll(cfg, st, lines).outcomes
    ensures id in st.pending
    ensures exists i :: 0 <= i < |lines| && HandleAll(cfg, st, lines).outcomes[id] != []
                        && Carries(cfg, lines[i], id, HandleAll(cfg, st, lines).outcomes[id][0])
    decreases |lines|
  {
    var next := HandleLine(cfg, st, lines[0]);
    if id in next.outcomes {
      assert next.outcomes[id] == [OutcomeOf(cfg.parse(lines[0]).msg)];
      LaterLinesAppend(cfg, next, lines[1..], id);
    } else {
      LinesSettle(cfg, next, lines[1..], id);
      var i :| 0 <= i < |lines[1..]|
        && Carries(cfg, lines[1..][i], id, HandleAll(cfg, next, lines[1..]).outcomes[id][0]);
      assert lines[1..][i] == lines[i + 1];
    }
  }

  lemma {:induction false} LaterLinesAppend(cfg: Config, st: State, lines: seq<string>, id: int)
    requires id in st.outcomes && st.outcomes[id] != []
    ensures var st' := HandleAll(cfg, st, lines);
            id in st'.outcomes && st'.outcomes[id] != [] && st'.outcomes[id][0] == st.outcomes[id][0]
    decreases |lines|
  {
    if lines != [] && !st.crashed { LaterLinesAppend(cfg, HandleLine(cfg, st, lines[0]), lines[1..], id); }
  }

  /** The lines an event completes. */
  function Completes(st: State, e: Event): seq<string> {
    if e.Data? && Enabled(st, e) then Lines(st.buf + e.chunk) else []
  }

  predicate FromLine(os: seq<Outcome>) {
    os != [] && (os[0].Resolved? || os[0].cause.Answered?)
  }

  lemma StepSettles(cfg: Config, st: State, e: Event, id: int)
    requires Inv(cfg, st) && id !in st.outcomes && id in Step(cfg, st, e).outcomes
             && FromLine(Step(cfg, st, e).outcomes[id])
    ensures id in st.pending && e.Data?
    ensures exists i :: 0 <= i < |Completes(st, e)|
                        && Carries(cfg, Completes(st, e)[i], id, Step(cfg, st, e).outcomes[id][0])
  {
    if e.Data? {
      var fed := st.(buf := st.buf + e.chunk);
      DrainDecodes(cfg, fed);
      assert HandleAll(cfg, fed, Lines(fed.buf)).outcomes == Drain(cfg, fed).outcomes;
      LinesSettle(cfg, fed, Lines(fed.buf), id);
      assert Completes(st, e) == Lines(fed.buf);
    } else {
      OthersDoNotAnswer(cfg, st, e, id);
    }
  }

  lemma OthersDoNotAnswer(cfg: Config, st: State, e: Event, id: int)
    requires Inv(cfg, st) && !e.Data? && id !in st.outcomes && id in Step(cfg, st, e).outcomes
    ensures !FromLine(Step(cfg, st, e).outcomes[id])
  {
  }

  predicate IsAnswerTo(cfg: Config, line: string, id: int) {
    line != "" && cfg.parse(line).Json? && cfg.parse(line).msg.id == Some(id)
  }
}
