/** The PowerShell worker supervisor as a state machine over its events. */
module WorkerModel {
  import opened Text

  /** A child process, numbered in the order of spawning: a restart never reuses a number. */
  type Proc = nat

  /** The `rows` field of a response. */
  datatype Rows = Missing | One(row: string) | Many(list: seq<string>)

  /** A parsed response; `id` is None unless it is a whole number, the only kind `pending` is keyed by. */
  datatype Message = Message(id: Option<int>, ok: bool, rows: Rows, error: Option<string>)

  /** What JSON.parse makes of a line. Reading a field of `null` throws out of the data handler. */
  datatype Parsed = NotJson | JsonNull | Json(msg: Message)

  datatype Cause = Answered(error: Option<string>) | TimedOut | ProcessExited | LaunchFailed | GaveUp | StdinClosed

  datatype Outcome = Resolved(rows: seq<string>) | Rejected(cause: Cause)

  datatype Config = Config(maxQueue: int, maxRestarts: int, parse: string -> Parsed)

  /**
   * The worker's fields (`proc`, `pending`, `nextId`, `buf`, `restarts`) and the world it acts on:
   * armed timers with the process their closure captured, requests written to a stdin, promise callbacks
   * invoked per call, and the processes spawned, killed and reported ended. `crashed` is the uncaught
   * exception, after which no event is handled. `Step` is the specification the class in Worker.dfy refines.
   */
  datatype State = State(
    proc: Option<Proc>, pending: map<int, Proc>, nextId: int, buf: string, restarts: int,
    timers: map<int, Proc>, sent: map<int, Proc>, outcomes: map<int, seq<Outcome>>,
    spawned: nat, killed: set<Proc>, ended: set<Proc>, crashed: bool)

  const INITIAL := State(None, map[], 1, "", 0, map[], map[], map[], 0, {}, {}, false)

  /** One event. `Begin` and `Submit` are the two halves of `call` around its `await this.start()`. */
  datatype Event =
    | Begin
    | Submit(writeFails: bool)
    | Data(source: Proc, chunk: string)
    | End(dead: Proc, launchFailed: bool)
    | Fire(id: int)
    | Stop

  /** One more resolve/reject of the promise of call `id`. */
  function Record(outcomes: map<int, seq<Outcome>>, id: int, o: Outcome): map<int, seq<Outcome>> {
    outcomes[id := (if id in outcomes then outcomes[id] else []) + [o]]
  }

  function Flatten(rows: Rows): seq<string> {
    match rows
    case Missing => []
    case One(row) => [row]
    case Many(list) => list
  }

  predicate CanStart(cfg: Config, st: State) {
    st.restarts <= cfg.maxRestarts
  }

  function BeginStep(cfg: Config, st: State): State {
    if st.proc.None? && CanStart(cfg, st) then st.(proc := Some(st.spawned), spawned := st.spawned + 1) else st
  }

  /** True iff the second half of `call` gets past its two refusals and is given an id. */
  predicate Accepts(cfg: Config, st: State) {
    st.proc.Some? && |st.pending| < cfg.maxQueue
  }

  function SubmitStep(cfg: Config, st: State, writeFails: bool): State {
    if !Accepts(cfg, st) then st
    else if writeFails then
      st.(nextId := st.nextId + 1, outcomes := Record(st.outcomes, st.nextId, Rejected(StdinClosed)))
    else
      st.(nextId := st.nextId + 1,
      pending := st.pending[st.nextId := st.proc.value],
      timers := st.timers[st.nextId := st.proc.value],
      sent := st.sent[st.nextId := st.proc.value])
  }

  /** The call is taken off `pending`, its timer cleared and its promise settled. */
  function Answer(st: State, msg: Message): State
    requires msg.id.Some?
  {
    var id := msg.id.value;
    var o := if msg.ok then Resolved(Flatten(msg.rows)) else Rejected(Answered(msg.error));
    st.(pending := st.pending - {id}, timers := st.timers - {id}, outcomes := Record(st.outcomes, id, o),
    restarts := if msg.ok then 0 else st.restarts)
  }

  /** One complete line, already trimmed. */
  function HandleLine(cfg: Config, st: State, line: string): State {
    if line == "" then st
    else match cfg.parse(line)
      case NotJson => st
      case JsonNull => st.(crashed := true)
      case Json(msg) => if msg.id.Some? && msg.id.value in st.pending then Answer(st, msg) else st
  }

  /** Consumes every complete line of `buf`. */
  function Drain(cfg: Config, st: State): State
    decreases |st.buf|
  {
    match IndexOf(st.buf, '\n')
    case None => st
    case Some(nl) =>
      if st.crashed then st
      else Drain(cfg, HandleLine(cfg, st.(buf := st.buf[nl + 1..]), Trim(st.buf[..nl])))
  }

  function Feed(cfg: Config, st: State, chunk: string): State {
    Drain(cfg, st.(buf := st.buf + chunk))
  }

  /** The calls tagged with one process. */
  function CallsOn(pending: map<int, Proc>, p: Proc): set<int> {
    set id | id in pending && pending[id] == p
  }

  function RejectAll(outcomes: map<int, seq<Outcome>>, ids: set<int>, o: Outcome): map<int, seq<Outcome>> {
    map id | id in outcomes.Keys + ids ::
      if id in ids then (if id in outcomes then outcomes[id] else []) + [o] else outcomes[id]
  }

  /** The active process is gone: forget it and count one restart. A disowned one changes neither. */
  function Lose(st: State, p: Proc): State {
    if st.proc == Some(p) then st.(proc := None, restarts := st.restarts + 1) else st
  }

  function EndCause(cfg: Config, restarts: int, launchFailed: bool): Cause {
    if restarts > cfg.maxRestarts then GaveUp else if launchFailed then LaunchFailed else ProcessExited
  }

  function EndStep(cfg: Config, st: State, p: Proc, launchFailed: bool): State {
    var lost := Lose(st, p);
    var ids := CallsOn(st.pending, p);
    lost.(pending := st.pending - ids, timers := st.timers - ids, ended := st.ended + {p},
    outcomes := RejectAll(st.outcomes, ids, Rejected(EndCause(cfg, lost.restarts, launchFailed))))
  }

  function FireStep(st: State, id: int): State
    requires id in st.timers
  {
    var p := st.timers[id];
    Lose(st, p).(pending := st.pending - {id}, timers := st.timers - {id}, killed := st.killed + {p},
      outcomes := Record(st.outcomes, id, Rejected(TimedOut)))
  }

  function StopStep(st: State): State {
    if st.proc.None? then st else st.(proc := None, killed := st.killed + {st.proc.value})
  }

  /**
   * A process can end only once spawned, possibly reported twice; a timer fires only while armed. Any process
   * ever spawned may still emit, disowned or even ended: its output arrives on a pipe of its own.
   */
  predicate Enabled(st: State, e: Event) {
    && !st.crashed
    && (e.Data? ==> e.source < st.spawned)
    && (e.End? ==> e.dead < st.spawned)
    && (e.Fire? ==> e.id in st.timers)
  }

  function Step(cfg: Config, st: State, e: Event): State {
    if !Enabled(st, e) then st
    else match e
      case Begin => BeginStep(cfg, st)
      case Submit(writeFails) => SubmitStep(cfg, st, writeFails)
      case Data(_, chunk) => Feed(cfg, st, chunk)
      case End(dead, launchFailed) => EndStep(cfg, st, dead, launchFailed)
      case Fire(id) => FireStep(st, id)
      case Stop => StopStep(st)
  }

  /** The state after a run; an event that is not enabled does not happen. */
  function Run(cfg: Config, st: State, evs: seq<Event>): State {
    if evs == [] then st else Step(cfg, Run(cfg, st, evs[..|evs| - 1]), evs[|evs| - 1])
  }

  function Max(a: int, b: int): int { if a < b then b else a }

  // ── The invariant of every reachable state, in the order of the reasons it exists ──

  /** Every id ever given out is waiting, armed and tagged with the process it was written to, or settled once. */
  ghost predicate CallsAccounted(st: State) {
    && 1 <= st.nextId
    && st.timers == st.pending
    && (forall id :: id in st.pending ==> id in st.sent && st.sent[id] == st.pending[id])
    && (forall id :: 1 <= id < st.nextId <==> id in st.pending || id in st.outcomes)
    && (forall id :: id in st.outcomes ==> id !in st.pending && |st.outcomes[id]| == 1)
  }

  /** No call waits on a process already reported dead; every process not active was killed or has ended. */
  ghost predicate ProcsAccounted(st: State) {
    && (forall id :: id in st.pending ==> st.pending[id] < st.spawned && st.pending[id] !in st.ended)
    && (st.proc.Some? ==> st.proc.value < st.spawned && st.proc.value !in st.ended && st.proc.value !in st.killed)
    && (forall p: Proc :: p < st.spawned ==> st.proc == Some(p) || p in st.killed || p in st.ended)
    && (forall p :: p in st.killed || p in st.ended ==> p < st.spawned)
  }

  predicate Bounded(cfg: Config, st: State) {
    && |st.pending| <= Max(cfg.maxQueue, 0)
    && 0 <= st.restarts <= Max(cfg.maxRestarts + 1, 0)
    && (st.proc.Some? ==> st.restarts <= cfg.maxRestarts)
  }

  predicate Framed(st: State) {
    !st.crashed ==> '\n' !in st.buf
  }

  ghost predicate Inv(cfg: Config, st: State) {
    CallsAccounted(st) && ProcsAccounted(st) && Bounded(cfg, st) && Framed(st)
  }

  // ── Preservation ──

  lemma SubsetSmaller<K, V>(m: map<K, V>, ks: set<K>)
    ensures |m - ks| <= |m|
  {
    assert (m - ks).Keys <= m.Keys;
    SubsetCard((m - ks).Keys, m.Keys);
  }

  lemma SubsetCard<T>(a: set<T>, b: set<T>)
    requires a <= b
    ensures |a| <= |b|
  {
    if a != {} {
      var x :| x in a;
      SubsetCard(a - {x}, b - {x});
    }
  }

  /** What a drained buffer does to the rest of the state. */
  ghost predicate Drained(st: State, st': State) {
    && st'.proc == st.proc && st'.nextId == st.nextId && st'.sent == st.sent && st'.spawned == st.spawned
    && st'.killed == st.killed && st'.ended == st.ended
    && (forall id :: id in st'.pending ==> id in st.pending && st'.pending[id] == st.pending[id])
  }

  ghost predicate InvButFraming(cfg: Config, st: State) {
    CallsAccounted(st) && ProcsAccounted(st) && Bounded(cfg, st)
  }

  lemma HandleLineKeeps(cfg: Config, st: State, line: string)
    requires InvButFraming(cfg, st)
    ensures InvButFraming(cfg, HandleLine(cfg, st, line)) && Drained(st, HandleLine(cfg, st, line))
  {
    if line != "" && cfg.parse(line).Json? && cfg.parse(line).msg.id.Some?
      && cfg.parse(line).msg.id.value in st.pending {
      AnswerKeeps(cfg, st, cfg.parse(line).msg);
    }
  }

  lemma AnswerKeeps(cfg: Config, st: State, msg: Message)
    requires InvButFraming(cfg, st) && msg.id.Some? && msg.id.value in st.pending
    ensures InvButFraming(cfg, Answer(st, msg)) && Drained(st, Answer(st, msg))
  {
    var st' := Answer(st, msg);
    SubsetSmaller(st.pending, {msg.id.value});
    assert CallsAccounted(st');
  }

  lemma BufKeeps(cfg: Config, st: State, buf: string)
    requires InvButFraming(cfg, st)
    ensures InvButFraming(cfg, st.(buf := buf)) && Drained(st, st.(buf := buf))
  {
  }

  lemma DrainedTrans(a: State, b: State, c: State)
    requires Drained(a, b) && Drained(b, c)
    ensures Drained(a, c)
  {
  }

  /** One iteration of the loop in `onData`: `line` is handled, the rest of the buffer is still to come. */
  lemma DrainOnce(cfg: Config, st: State) returns (line: string, next: State)
    requires InvButFraming(cfg, st) && !st.crashed && '\n' in st.buf
    ensures |next.buf| < |st.buf| && next == HandleLine(cfg, st.(buf := next.buf), line)
    ensures Drain(cfg, st) == Drain(cfg, next)
    ensures InvButFraming(cfg, st.(buf := next.buf)) && InvButFraming(cfg, next) && Drained(st, next)
  {
    var nl := IndexOf(st.buf, '\n').value;
    line := Trim(st.buf[..nl]);
    var cut := st.(buf := st.buf[nl + 1..]);
    next := HandleLine(cfg, cut, line);
    BufKeeps(cfg, st, cut.buf);
    HandleLineKeeps(cfg, cut, line);
    DrainedTrans(st, cut, next);
  }

  lemma DrainFirst(cfg: Config, st: State, nl: nat)
    requires !st.crashed && IndexOf(st.buf, '\n') == Some(nl)
    ensures Drain(cfg, st) == Drain(cfg, HandleLine(cfg, st.(buf := st.buf[nl + 1..]), Trim(st.buf[..nl])))
  {
  }

  lemma DrainDone(cfg: Config, st: State)
    requires st.crashed || '\n' !in st.buf
    ensures Drain(cfg, st) == st
  {
  }

  lemma {:induction false} DrainKeeps(cfg: Config, st: State)
    requires InvButFraming(cfg, st)
    ensures InvButFraming(cfg, Drain(cfg, st)) && Framed(Drain(cfg, st)) && Drained(st, Drain(cfg, st))
    decreases |st.buf|
  {
    if st.crashed || '\n' !in st.buf {
      DrainDone(cfg, st);
    } else {
      var line, next := DrainOnce(cfg, st);
      DrainKeeps(cfg, next);
      DrainedTrans(st, next, Drain(cfg, next));
    }
  }

  lemma BeginKeeps(cfg: Config, st: State)
    requires Inv(cfg, st)
    ensures Inv(cfg, BeginStep(cfg, st))
  {
    var st' := BeginStep(cfg, st);
    assert CallsAccounted(st');
    assert Bounded(cfg, st');
  }

  lemma SubmitKeepsCalls(cfg: Config, st: State, writeFails: bool)
    requires CallsAccounted(st)
    ensures CallsAccounted(SubmitStep(cfg, st, writeFails))
  {
  }

  lemma SubmitKeeps(cfg: Config, st: State, writeFails: bool)
    requires Inv(cfg, st)
    ensures Inv(cfg, SubmitStep(cfg, st, writeFails))
  {
    SubmitKeepsCalls(cfg, st, writeFails);
    assert ProcsAccounted(SubmitStep(cfg, st, writeFails));
  }

  /** Rejecting every call on a dead process, as far as the accounting of calls goes. */
  lemma RejectKeeps(st: State, st': State, p: Proc, o: Outcome)
    requires CallsAccounted(st)
    requires st'.pending == st.pending - CallsOn(st.pending, p) && st'.timers == st'.pending
    requires st'.outcomes == RejectAll(st.outcomes, CallsOn(st.pending, p), o)
    requires st'.nextId == st.nextId && st'.sent == st.sent
    ensures CallsAccounted(st')
  {
    var ids := CallsOn(st.pending, p);
    forall id ensures 1 <= id < st'.nextId <==> id in st'.pending || id in st'.outcomes {
      assert id in st'.outcomes <==> id in st.outcomes || id in ids;
    }
    forall id | id in st'.outcomes ensures id !in st'.pending && |st'.outcomes[id]| == 1 {
      if id in ids { assert id !in st.outcomes; }
    }
  }

  lemma EndKeepsProcs(cfg: Config, st: State, dead: Proc, launchFailed: bool)
    requires ProcsAccounted(st) && dead < st.spawned
    ensures ProcsAccounted(EndStep(cfg, st, dead, launchFailed))
  {
    var st' := EndStep(cfg, st, dead, launchFailed);
    assert st'.ended == st.ended + {dead} && st'.killed == st.killed;
    forall id | id in st'.pending ensures st'.pending[id] < st'.spawned && st'.pending[id] !in st'.ended {
      assert id !in CallsOn(st.pending, dead);
    }
  }

  lemma EndKeeps(cfg: Config, st: State, dead: Proc, launchFailed: bool)
    requires Inv(cfg, st) && dead < st.spawned
    ensures Inv(cfg, EndStep(cfg, st, dead, launchFailed))
  {
    EndKeepsProcs(cfg, st, dead, launchFailed);
    var st' := EndStep(cfg, st, dead, launchFailed);
    assert CallsAccounted(st') by {
      RejectKeeps(st, st', dead, Rejected(EndCause(cfg, st'.restarts, launchFailed)));
    }
    assert Bounded(cfg, st') by {
      SubsetSmaller(st.pending, CallsOn(st.pending, dead));
    }
  }

  lemma FireKeeps(cfg: Config, st: State, id: int)
    requires Inv(cfg, st) && id in st.timers
    ensures Inv(cfg, FireStep(st, id))
  {
    var st' := FireStep(st, id);
    SubsetSmaller(st.pending, {id});
    assert CallsAccounted(st');
    assert ProcsAccounted(st');
  }

  lemma DataKeeps(cfg: Config, st: State, chunk: string)
    requires Inv(cfg, st)
    ensures Inv(cfg, Feed(cfg, st, chunk))
  {
    BufKeeps(cfg, st, st.buf + chunk);
    DrainKeeps(cfg, st.(buf := st.buf + chunk));
  }

  lemma StopKeeps(cfg: Config, st: State)
    requires Inv(cfg, st)
    ensures Inv(cfg, StopStep(st))
  {
    assert ProcsAccounted(StopStep(st));
  }

  lemma StepKeeps(cfg: Config, st: State, e: Event)
    requires Inv(cfg, st)
    ensures Inv(cfg, Step(cfg, st, e))
  {
    if Enabled(st, e) {
      match e
      case Begin => BeginKeeps(cfg, st);
      case Submit(writeFails) => SubmitKeeps(cfg, st, writeFails);
      case Data(_, chunk) => DataKeeps(cfg, st, chunk);
      case End(dead, launchFailed) => EndKeeps(cfg, st, dead, launchFailed);
      case Fire(id) => FireKeeps(cfg, st, id);
      case Stop => StopKeeps(cfg, st);
    }
  }

  /** The invariant over every interleaving of calls, chunks, timers, exits, spawn errors and stops. */
  lemma {:induction false} RunKeeps(cfg: Config, st: State, evs: seq<Event>)
    requires Inv(cfg, st)
    ensures Inv(cfg, Run(cfg, st, evs))
  {
    if evs != [] {
      RunKeeps(cfg, st, evs[..|evs| - 1]);
      StepKeeps(cfg, Run(cfg, st, evs[..|evs| - 1]), evs[|evs| - 1]);
    }
  }
}
