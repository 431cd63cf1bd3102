/** The supervisor as the program writes it: fields updated in place by methods and callbacks. */
module Worker {
  import opened Text
  import opened WorkerModel

  /**
   * Every method takes `View()` through exactly one `Step`, so the invariant and the theorems about runs
   * (RunKeeps in WorkerModel.dfy, WorkerRuns.dfy) hold of every sequence of calls on a worker.
   */
  class PwshWorker {
    const cfg: Config

    var proc: Option<Proc>
    var pending: map<int, Proc>
    var nextId: int
    var buf: string
    var restarts: int

    // The world the worker acts on: the event loop's timers, the promises, and the processes.
    var timers: map<int, Proc>
    var sent: map<int, Proc>
    var outcomes: map<int, seq<Outcome>>
    var spawned: nat
    var killed: set<Proc>
    var ended: set<Proc>
    var crashed: bool

    function View(): State
      reads this
    {
      State(proc, pending, nextId, buf, restarts, timers, sent, outcomes, spawned, killed, ended, crashed)
    }

    constructor (cfg: Config)
      ensures View() == INITIAL && this.cfg == cfg
    {
      this.cfg := cfg;
      proc, pending, nextId, buf, restarts := None, map[], 1, "", 0;
      timers, sent, outcomes := map[], map[], map[];
      spawned, killed, ended, crashed := 0, {}, {}, false;
    }

    /** Spawns a process unless one is active; refuses once the restart limit is passed. */
    method Start() returns (up: bool)
      requires !crashed
      modifies this
      ensures View() == Step(cfg, old(View()), Begin)
      ensures up <==> proc.Some?
    {
      if proc.Some? {
        return true;
      }
      if restarts > cfg.maxRestarts {
        return false;
      }
      proc, spawned := Some(spawned), spawned + 1;
      up := true;
    }

    /** True in every reachable state: see CallsAccounted. */
    predicate NextIdIsFresh()
      reads this
    {
      nextId !in pending && nextId !in timers
    }

    /** The rest of `call` once `start` has been awaited: refuse, or number the request, arm it and write it. */
    method Submit(writeFails: bool) returns (id: Option<int>)
      requires !crashed && NextIdIsFresh()
      modifies this
      ensures View() == Step(cfg, old(View()), Event.Submit(writeFails))
      ensures id == if Accepts(cfg, old(View())) then Some(old(nextId)) else None
    {
      if proc.None? || |pending| >= cfg.maxQueue {
        return None;
      }
      var p := proc.value;
      var n := nextId;
      nextId := nextId + 1;
      timers := timers[n := p];
      pending := pending[n := p];
      if writeFails {
        pending := pending - {n};
        timers := timers - {n};
        outcomes := Record(outcomes, n, Rejected(StdinClosed));
        AddThenRemove(old(pending), n, p);
        AddThenRemove(old(timers), n, p);
      } else {
        sent := sent[n := p];
      }
      id := Some(n);
    }

    /** The data handler of process `source`; every process feeds the one buffer. */
    method OnData(source: Proc, chunk: string)
      requires !crashed && source < spawned
      modifies this
      ensures View() == Step(cfg, old(View()), Data(source, chunk))
    {
      buf := buf + chunk;
      ghost var fed := View();
      while !crashed && '\n' in buf
        invariant Drain(cfg, View()) == Drain(cfg, fed)
        decreases |buf|
      {
        var nl := IndexOf(buf, '\n').value;
        var line := Trim(buf[..nl]);
        buf := buf[nl + 1..];
        OnLine(line);
      }
      DrainDone(cfg, View());
    }

    /** One pass of the loop body: find the call a response belongs to and settle it. */
    method OnLine(line: string)
      requires !crashed
      modifies this`pending, this`timers, this`restarts, this`outcomes, this`crashed
      ensures View() == HandleLine(cfg, old(View()), line)
    {
      if line == "" {
        return;
      }
      var parsed := cfg.parse(line);
      if parsed.JsonNull? {
        crashed := true;
        return;
      }
      if parsed.NotJson? || parsed.msg.id.None? || parsed.msg.id.value !in pending {
        return;
      }
      var msg := parsed.msg;
      var id := msg.id.value;
      pending := pending - {id};
      timers := timers - {id};
      if msg.ok {
        restarts := 0;
        outcomes := Record(outcomes, id, Resolved(Flatten(msg.rows)));
      } else {
        outcomes := Record(outcomes, id, Rejected(Answered(msg.error)));
      }
    }

    /** Exit and spawn error alike: account for the active slot, then reject the calls sent to this process. */
    method Settle(dead: Proc, launchFailed: bool)
      requires !crashed && dead < spawned
      modifies this
      ensures View() == Step(cfg, old(View()), End(dead, launchFailed))
    {
      ended := ended + {dead};
      if proc == Some(dead) {
        proc := None;
        restarts := restarts + 1;
      }
      var cause := if restarts > cfg.maxRestarts then GaveUp else if launchFailed then LaunchFailed else ProcessExited;
      RejectCallsOn(dead, Rejected(cause));
    }

    /** The loop over `pending`: whatever the order, exactly the calls tagged with `dead` are rejected. */
    method RejectCallsOn(dead: Proc, err: Outcome)
      modifies this`pending, this`timers, this`outcomes
      ensures var ids := CallsOn(old(pending), dead);
              pending == old(pending) - ids && timers == old(timers) - ids
              && outcomes == RejectAll(old(outcomes), ids, err)
    {
      var todo := pending.Keys;
      ghost var was := pending;
      ghost var done: set<int> := {};
      while todo != {}
        invariant todo <= was.Keys && done == CallsOn(was, dead) - todo
        invariant pending == was - done && timers == old(timers) - done
        invariant outcomes == RejectAll(old(outcomes), done, err)
        decreases todo
      {
        var id := AnyOf(todo);
        assert id in pending;
        todo := todo - {id};
        if pending[id] == dead {
          RejectOneMore(old(outcomes), done, id, err);
          timers := timers - {id};
          outcomes := Record(outcomes, id, err);
          pending := pending - {id};
          done := done + {id};
          assert was - done == pending;
        }
      }
    }

    /** A call's timeout: take it off, kill the process it went to, and disown that process if still active. */
    method Fire(id: int)
      requires !crashed && id in timers
      modifies this
      ensures View() == Step(cfg, old(View()), Event.Fire(id))
    {
      var p := timers[id];
      timers := timers - {id};
      pending := pending - {id};
      killed := killed + {p};
      if proc == Some(p) {
        proc := None;
        restarts := restarts + 1;
      }
      outcomes := Record(outcomes, id, Rejected(TimedOut));
    }

    method Stop()
      requires !crashed
      modifies this
      ensures View() == Step(cfg, old(View()), Event.Stop)
    {
      if proc.None? {
        return;
      }
      var p := proc.value;
      proc := None;
      killed := killed + {p};
    }
  }

  /** The next key of an iteration over a set, in an order the proofs do not rely on. */
  method AnyOf<T>(s: set<T>) returns (x: T)
    requires s != {}
    ensures x in s
  {
    x :| x in s;
  }

  lemma AddThenRemove<V>(m: map<int, V>, k: int, v: V)
    requires k !in m
    ensures m[k := v] - {k} == m
  {
  }

  lemma RejectOneMore(outcomes: map<int, seq<Outcome>>, done: set<int>, id: int, o: Outcome)
    requires id !in done
    ensures RejectAll(outcomes, done + {id}, o) == Record(RejectAll(outcomes, done, o), id, o)
  {
  }
}
