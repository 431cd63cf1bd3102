/** What the supervisor guarantees over whole runs, whatever the order of its events. */
module WorkerRuns {
  import opened Text
  import opened WorkerModel

  lemma {:induction false} Reachable(cfg: Config, evs: seq<Event>)
    ensures Inv(cfg, Run(cfg, INITIAL, evs))
  {
    RunKeeps(cfg, INITIAL, evs);
  }

  // ── Every call is settled exactly once ──

  predicate Waiting(st: State, id: int) {
    && id in st.pending && id in st.timers && id in st.sent && id !in st.outcomes
    && st.timers[id] == st.pending[id] == st.sent[id]
  }

  predicate Settled(st: State, id: int) {
    id in st.outcomes && |st.outcomes[id]| == 1 && id !in st.pending && id !in st.timers
  }

  lemma {:induction false} ExactlyOnce(cfg: Config, evs: seq<Event>, id: int)
    ensures var st := Run(cfg, INITIAL, evs);
            if 1 <= id < st.nextId then Waiting(st, id) != Settled(st, id)
            else id !in st.pending && id !in st.timers && id !in st.outcomes
  {
    Reachable(cfg, evs);
  }

  /** A call that has an outcome keeps it: no later event touches its promise again. */
  lemma StepKeepsOutcome(cfg: Config, st: State, e: Event, id: int)
    requires Inv(cfg, st) && id in st.outcomes
    ensures id in Step(cfg, st, e).outcomes && Step(cfg, st, e).outcomes[id] == st.outcomes[id]
  {
    if Enabled(st, e) && e.Data? {
      BufKeeps(cfg, st, st.buf + e.chunk);
      DrainKeepsOutcome(cfg, st.(buf := st.buf + e.chunk), id);
    }
  }

  lemma {:induction false} DrainKeepsOutcome(cfg: Config, st: State, id: int)
    requires InvButFraming(cfg, st) && id in st.outcomes
    ensures id in Drain(cfg, st).outcomes && Drain(cfg, st).outcomes[id] == st.outcomes[id]
    decreases |st.buf|
  {
    if st.crashed || '\n' !in st.buf {
      DrainDone(cfg, st);
    } else {
      var line, next := DrainOnce(cfg, st);
      DrainKeepsOutcome(cfg, next, id);
    }
  }

  lemma {:induction false} OutcomeIsFinal(cfg: Config, evs: seq<Event>, more: seq<Event>, id: int)
    requires id in Run(cfg, INITIAL, evs).outcomes
    ensures id in Run(cfg, INITIAL, evs + more).outcomes
    ensures Run(cfg, INITIAL, evs + more).outcomes[id] == Run(cfg, INITIAL, evs).outcomes[id]
  {
    if more == [] {
      assert evs + more == evs;
    } else {
      var init := more[..|more| - 1];
      assert (evs + more)[..|evs + more| - 1] == evs + init;
      OutcomeIsFinal(cfg, evs, init, id);
      Reachable(cfg, evs + init);
      StepKeepsOutcome(cfg, Run(cfg, INITIAL, evs + init), more[|more| - 1], id);
    }
  }

  // ── A dead process takes exactly its own calls with it ──

  /** The worker has given up once this loss, if it is one, takes the count past the ceiling. */
  function WhyGone(cfg: Config, st: State, dead: Proc, launchFailed: bool): Cause {
    var losses := if st.proc == Some(dead) then st.restarts + 1 else st.restarts;
    if losses > cfg.maxRestarts then GaveUp else if launchFailed then LaunchFailed else ProcessExited
  }

  /** A timeout and a failed write reject their own call, with that cause, and no other. */
  lemma RejectsItsOwn(cfg: Config, st: State, e: Event, id: int)
    requires Inv(cfg, st) && Enabled(st, e)
    requires (e.Fire? && e.id == id) || (e == Submit(true) && Accepts(cfg, st) && id == st.nextId)
    ensures var st' := Step(cfg, st, e);
            && Settled(st', id) && st'.outcomes[id] == [Rejected(if e.Fire? then TimedOut else StdinClosed)]
            && forall other :: other != id ==>
                 && (other in st.pending <==> other in st'.pending) && (other in st.outcomes <==> other in st'.outcomes)
                 && (other in st.outcomes ==> st'.outcomes[other] == st.outcomes[other])
  {
  }

  /** The end of a process, before or after its replacement has started. */
  lemma EndRejectsExactly(cfg: Config, st: State, dead: Proc, launchFailed: bool, id: int)
    requires Inv(cfg, st) && Enabled(st, End(dead, launchFailed))
    ensures var st' := Step(cfg, st, End(dead, launchFailed));
            && (id in st.pending && st.pending[id] == dead ==>
                  Settled(st', id) && st'.outcomes[id] == [Rejected(WhyGone(cfg, st, dead, launchFailed))])
            && (!(id in st.pending && st.pending[id] == dead) ==>
                  && (id in st.pending <==> id in st'.pending) && (id in st.timers <==> id in st'.timers)
                  && (id in st.pending ==> st'.pending[id] == st.pending[id] == st'.timers[id])
                  && (id in st.outcomes <==> id in st'.outcomes)
                  && (id in st.outcomes ==> st'.outcomes[id] == st.outcomes[id]))
            && (st.proc != Some(dead) ==> st'.proc == st.proc && st'.restarts == st.restarts)
  {
    EndKeeps(cfg, st, dead, launchFailed);
  }

  /** From then on no call ever waits on that process, in any continuation of the run. */
  lemma {:induction false} DeadStaysDeserted(cfg: Config, evs: seq<Event>, dead: Proc, launchFailed: bool,
                                             more: seq<Event>, id: int)
    requires Enabled(Run(cfg, INITIAL, evs), End(dead, launchFailed))
    ensures var st := Run(cfg, INITIAL, evs + [End(dead, launchFailed)] + more);
            dead in st.ended && st.proc != Some(dead) && (id in st.pending ==> st.pending[id] != dead)
  {
    var all := evs + [End(dead, launchFailed)] + more;
    hide Step, Inv, Enabled;
    Reachable(cfg, all);
    if more == [] {
      assert all[..|all| - 1] == evs;
      EndIsNoted(cfg, Run(cfg, INITIAL, evs), dead, launchFailed);
    } else {
      var init := more[..|more| - 1];
      assert all[..|all| - 1] == evs + [End(dead, launchFailed)] + init;
      DeadStaysDeserted(cfg, evs, dead, launchFailed, init, id);
      Reachable(cfg, all[..|all| - 1]);
      EndedGrows(cfg, Run(cfg, INITIAL, all[..|all| - 1]), more[|more| - 1]);
    }
    Deserted(cfg, Run(cfg, INITIAL, all), dead, id);
  }

  lemma EndIsNoted(cfg: Config, st: State, dead: Proc, launchFailed: bool)
    requires Enabled(st, End(dead, launchFailed))
    ensures dead in Step(cfg, st, End(dead, launchFailed)).ended
  {
  }

  lemma Deserted(cfg: Config, st: State, dead: Proc, id: int)
    requires Inv(cfg, st) && dead in st.ended
    ensures st.proc != Some(dead) && (id in st.pending ==> st.pending[id] != dead)
  {
  }

  lemma EndedGrows(cfg: Config, st: State, e: Event)
    requires Inv(cfg, st)
    ensures st.ended <= Step(cfg, st, e).ended
  {
    if Enabled(st, e) && e.Data? {
      BufKeeps(cfg, st, st.buf + e.chunk);
      DrainKeeps(cfg, st.(buf := st.buf + e.chunk));
    }
  }

  // ── Restart accounting ──

  /** The event by which the active process is lost: its own end, or the timeout of a call written to it. */
  predicate Loses(st: State, e: Event) {
    && Enabled(st, e)
    && st.proc.Some?
    && ((e.End? && e.dead == st.proc.value) || (e.Fire? && st.timers[e.id] == st.proc.value))
  }

  predicate IsResolved(os: seq<Outcome>) {
    os != [] && os[0].Resolved?
  }

  /** The calls that completed successfully so far. */
  function Completed(st: State): set<int> {
    set id | id in st.outcomes && IsResolved(st.outcomes[id])
  }

  /** Losses since the last event that completed a call: what the field's comment says `restarts` counts. */
  function ConsecutiveLosses(cfg: Config, evs: seq<Event>): int {
    if evs == [] then 0 else
      var st := Run(cfg, INITIAL, evs[..|evs| - 1]);
      var e := evs[|evs| - 1];
      if Completed(Step(cfg, st, e)) != Completed(st) then 0
      else ConsecutiveLosses(cfg, evs[..|evs| - 1]) + if Loses(st, e) then 1 else 0
  }

  lemma HandleLineRestarts(cfg: Config, st: State, line: string)
    requires InvButFraming(cfg, st)
    ensures var st' := HandleLine(cfg, st, line);
            Completed(st) <= Completed(st')
            && st'.restarts == if Completed(st') == Completed(st) then st.restarts else 0
  {
    var st' := HandleLine(cfg, st, line);
    if st'.outcomes != st.outcomes {
      var msg := cfg.parse(line).msg;
      var id := msg.id.value;
      assert id !in st.outcomes;
      assert st'.outcomes[id] == [if msg.ok then Resolved(Flatten(msg.rows)) else Rejected(Answered(msg.error))];
      if msg.ok {
        assert id in Completed(st') && id !in Completed(st);
      } else {
        assert Completed(st') == Completed(st);
      }
    }
  }

  lemma {:induction false} DrainRestarts(cfg: Config, st: State)
    requires InvButFraming(cfg, st)
    ensures var st' := Drain(cfg, st);
            Completed(st) <= Completed(st')
            && st'.restarts == if Completed(st') == Completed(st) then st.restarts else 0
    decreases |st.buf|
  {
    if st.crashed || '\n' !in st.buf {
      DrainDone(cfg, st);
    } else {
      var line, next := DrainOnce(cfg, st);
      HandleLineRestarts(cfg, st.(buf := next.buf), line);
      DrainRestarts(cfg, next);
    }
  }

  lemma StepRestarts(cfg: Config, st: State, e: Event)
    requires Inv(cfg, st)
    ensures var st' := Step(cfg, st, e);
            st'.restarts == if Completed(st') != Completed(st) then 0 else st.restarts + if Loses(st, e) then 1 else 0
  {
    if !Enabled(st, e) {
    } else if e.Data? {
      BufKeeps(cfg, st, st.buf + e.chunk);
      DrainRestarts(cfg, st.(buf := st.buf + e.chunk));
    } else {
      OnlyDataCompletes(cfg, st, e);
    }
  }

  lemma OnlyDataCompletes(cfg: Config, st: State, e: Event)
    requires Inv(cfg, st) && Enabled(st, e) && !e.Data?
    ensures Completed(Step(cfg, st, e)) == Completed(st)
  {
    var st' := Step(cfg, st, e);
    forall id ensures id in Completed(st') <==> id in Completed(st) {
      if id in st.outcomes {
        StepKeepsOutcome(cfg, st, e, id);
      } else if id in st'.outcomes {
        OthersReject(cfg, st, e, id);
      }
    }
  }

  lemma OthersReject(cfg: Config, st: State, e: Event, id: int)
    requires Inv(cfg, st) && Enabled(st, e) && !e.Data? && id !in st.outcomes && id in Step(cfg, st, e).outcomes
    ensures !IsResolved(Step(cfg, st, e).outcomes[id])
  {
  }

  /** `restarts` is exactly the number of consecutive losses since a call last completed. */
  lemma {:induction false} RestartsAreConsecutive(cfg: Config, evs: seq<Event>)
    ensures Run(cfg, INITIAL, evs).restarts == ConsecutiveLosses(cfg, evs)
  {
    if evs != [] {
      RestartsAreConsecutive(cfg, evs[..|evs| - 1]);
      Reachable(cfg, evs[..|evs| - 1]);
      StepRestarts(cfg, Run(cfg, INITIAL, evs[..|evs| - 1]), evs[|evs| - 1]);
    }
  }

  /** Steps of a run at which `restarts` went up while `p` was the active process. */
  function Bumps(cfg: Config, evs: seq<Event>, p: Proc): nat {
    if evs == [] then 0 else
      var st := Run(cfg, INITIAL, evs[..|evs| - 1]);
      Bumps(cfg, evs[..|evs| - 1], p)
      + if st.proc == Some(p) && Step(cfg, st, evs[|evs| - 1]).restarts == st.restarts + 1 then 1 else 0
  }

  /** Steps of a run at which `p` was stopped on request. */
  function Stops(cfg: Config, evs: seq<Event>, p: Proc): nat {
    if evs == [] then 0 else
      var st := Run(cfg, INITIAL, evs[..|evs| - 1]);
      Stops(cfg, evs[..|evs| - 1], p) + if st.proc == Some(p) && evs[|evs| - 1].Stop? && !st.crashed then 1 else 0
  }

  /**
   * Each process ever spawned is active, or was stopped once, or was counted as one restart once: whether
   * its timeout or its exit is seen first, and however often its exit is reported.
   */
  lemma {:induction false} LostOnce(cfg: Config, evs: seq<Event>, p: Proc)
    ensures var st := Run(cfg, INITIAL, evs);
            Bumps(cfg, evs, p) + Stops(cfg, evs, p) + (if st.proc == Some(p) then 1 else 0)
            == if p < st.spawned then 1 else 0
  {
    if evs != [] {
      var st := Run(cfg, INITIAL, evs[..|evs| - 1]);
      var e := evs[|evs| - 1];
      LostOnce(cfg, evs[..|evs| - 1], p);
      Reachable(cfg, evs[..|evs| - 1]);
      StepRestarts(cfg, st, e);
      ProcMoves(cfg, st, e, p);
    }
  }

  /** How one event can move the active slot. */
  lemma ProcMoves(cfg: Config, st: State, e: Event, p: Proc)
    requires Inv(cfg, st)
    ensures var st' := Step(cfg, st, e);
            && (st.proc == Some(p) ==> p < st'.spawned)
            && st.spawned <= st'.spawned
            && (st'.proc == Some(p) <==>
                (st.proc == Some(p) && !Loses(st, e) && !(e.Stop? && !st.crashed)) || (st.spawned <= p < st'.spawned))
            && (st.spawned < st'.spawned ==> st'.spawned == st.spawned + 1)
            && (st.proc == Some(p) && Loses(st, e) ==> st'.restarts == st.restarts + 1)
            && (st.proc == Some(p) && !Loses(st, e) ==> st'.restarts <= st.restarts)
  {
    if Enabled(st, e) && e.Data? {
      DataMovesNoProc(cfg, st, e.chunk);
    }
  }

  lemma DataMovesNoProc(cfg: Config, st: State, chunk: string)
    requires Inv(cfg, st)
    ensures var st' := Feed(cfg, st, chunk);
            st'.proc == st.proc && st'.spawned == st.spawned && 0 <= st.restarts
              && (st'.restarts == st.restarts || st'.restarts == 0)
  {
    BufKeeps(cfg, st, st.buf + chunk);
    DrainKeeps(cfg, st.(buf := st.buf + chunk));
    DrainRestarts(cfg, st.(buf := st.buf + chunk));
  }

  // ── Giving up ──

  predicate Exhausted(cfg: Config, st: State) {
    st.restarts > cfg.maxRestarts && st.pending == map[]
  }

  lemma {:induction false} DrainExhausted(cfg: Config, st: State)
    requires InvButFraming(cfg, st) && st.pending == map[]
    ensures var st' := Drain(cfg, st);
            st'.pending == map[] && st'.restarts == st.restarts && st'.outcomes == st.outcomes
    decreases |st.buf|
  {
    if st.crashed || '\n' !in st.buf {
      DrainDone(cfg, st);
    } else {
      var line, next := DrainOnce(cfg, st);
      DrainExhausted(cfg, next);
    }
  }

  lemma GivenUpStep(cfg: Config, st: State, e: Event)
    requires Inv(cfg, st) && Exhausted(cfg, st)
    ensures var st' := Step(cfg, st, e);
            Exhausted(cfg, st') && st'.proc.None? && st'.spawned == st.spawned && st'.nextId == st.nextId
            && st'.outcomes == st.outcomes
  {
    if Enabled(st, e) && e.Data? {
      BufKeeps(cfg, st, st.buf + e.chunk);
      DrainKeeps(cfg, st.(buf := st.buf + e.chunk));
      DrainExhausted(cfg, st.(buf := st.buf + e.chunk));
      hide Drain, Inv;
    } else {
      GivenUpOtherwise(cfg, st, e);
    }
  }

  lemma GivenUpOtherwise(cfg: Config, st: State, e: Event)
    requires Inv(cfg, st) && Exhausted(cfg, st) && (!Enabled(st, e) || !e.Data?)
    ensures var st' := Step(cfg, st, e);
            Exhausted(cfg, st') && st'.proc.None? && st'.spawned == st.spawned && st'.nextId == st.nextId
            && st'.outcomes == st.outcomes
  {
    if Enabled(st, e) && e.End? { assert CallsOn(st.pending, e.dead) == {}; }
  }

  /** Past the ceiling with nothing pending, no event ever starts a process or accepts a call again. */
  lemma {:induction false} GivingUpIsAbsorbing(cfg: Config, st: State, evs: seq<Event>)
    requires Inv(cfg, st) && Exhausted(cfg, st)
    ensures var st' := Run(cfg, st, evs);
            Exhausted(cfg, st') && st'.proc.None? && st'.spawned == st.spawned && st'.nextId == st.nextId
            && st'.outcomes == st.outcomes
  {
    if evs != [] {
      hide Inv, Exhausted, Step;
      GivingUpIsAbsorbing(cfg, st, evs[..|evs| - 1]);
      RunKeeps(cfg, st, evs[..|evs| - 1]);
      GivenUpStep(cfg, Run(cfg, st, evs[..|evs| - 1]), evs[|evs| - 1]);
    }
  }
}
