/** Why a pool is on the catalog it is on. */
module PoolOrigins {
  import opened Text
  import opened PoolCache

  datatype Outcome = Connected | Failed(message: string, catalogUnavailable: bool)

  /** What the dials of a run were answered: the first connect of each, and the probe. */
  datatype Log = Log(answers: map<nat, Outcome>, probes: map<nat, Probe>)

  function Noted(cfg: Config, st: State, log: Log, e: Event): Log {
    if !Enabled(cfg, st, e) then log
    else match e
      case FirstOk(d) => log.(answers := log.answers[d := Connected])
      case FirstFailed(d, message, unavailable) => log.(answers := log.answers[d := Failed(message, unavailable)])
      case Probed(d, probe) => log.(probes := log.probes[d := probe])
      case _ => log
  }

  function LogOf(cfg: Config, evs: seq<Event>): Log {
    if evs == [] then Log(map[], map[])
    else
      var before := evs[..|evs| - 1];
      Noted(cfg, Run(cfg, INITIAL, before), LogOf(cfg, before), evs[|evs| - 1])
  }

  /** A fallback is worth trying: it is switched on, and would dial another database. */
  predicate MayFallBack(cfg: Config, t: Target) {
    cfg.enabled && !cfg.same(cfg.database(t.instance), cfg.fallbackDb)
  }

  predicate NoPoolOf(st: State, d: nat) {
    forall p :: p in st.made ==> st.made[p].dial != d
  }

  predicate OnlyPoolOf(st: State, d: nat, q: Pool) {
    q in st.made && st.made[q].dial == d && forall p :: p in st.made && p != q ==> st.made[p].dial != d
  }

  predicate DialHonest(cfg: Config, st: State, log: Log, d: nat)
    requires d in st.dials
  {
    && d < st.nextDial && d !in log.probes
    && match st.dials[d].stage
       case FirstTry => d !in log.answers && NoPoolOf(st, d)
       case SecondTry(first) =>
         && d in log.answers && log.answers[d] == Failed(first, true) && MayFallBack(cfg, st.dials[d].target)
         && NoPoolOf(st, d)
       case Probing(first, p) =>
         && first != "" && d in log.answers && log.answers[d] == Failed(first, true) && OnlyPoolOf(st, d, p)
         && p !in st.cache.info && st.made[p] == Made(st.dials[d].target, true, first, d)
  }

  /** How a pool that exists was dialled. */
  predicate MadeHonest(cfg: Config, st: State, log: Log, p: Pool)
    requires p in st.made
  {
    var m := st.made[p];
    && p < st.nextPool && m.dial < st.nextDial && m.dial in log.answers
    && log.answers[m.dial] == (if m.fellBack then Failed(m.first, true) else Connected)
    && (m.fellBack ==> MayFallBack(cfg, m.target))
    && (m.dial !in st.dials && p !in st.cache.info ==> m.dial in log.probes && log.probes[m.dial] == NoRow(true))
  }

  /** What a note says was found. */
  predicate Reports(n: Note, probe: Probe) {
    match probe
    case NoAnswer => n == Unreadable
    case NoRow(canSeeCatalog) => !canSeeCatalog && n == NotEstablished
    case Row(state) => if state == "ONLINE" then n == OnlineThere else n == SickThere(state)
  }

  /** What is said of a pool that was handed out. */
  predicate NoteHonest(st: State, log: Log, p: Pool)
    requires p in st.cache.info
  {
    && p in st.made
    && (st.made[p].fellBack && st.made[p].first != "" ==>
          && st.made[p].dial in log.probes && st.cache.info[p].reason.Some?
          && Reports(st.cache.info[p].reason.value.note, log.probes[st.made[p].dial]))
  }

  predicate ProbeHonest(st: State, log: Log, d: nat)
    requires d in log.probes
  {
    d < st.nextDial && d in log.answers && log.answers[d].Failed? && log.answers[d].message != ""
  }

  predicate Honest(cfg: Config, st: State, log: Log) {
    && (forall d :: d in st.dials ==> DialHonest(cfg, st, log, d))
    && (forall p :: p in st.made ==> MadeHonest(cfg, st, log, p))
    && (forall p :: p in st.cache.info ==> NoteHonest(st, log, p))
    && (forall d :: d in log.probes ==> ProbeHonest(st, log, d))
    && (forall d :: d in log.answers ==> d < st.nextDial)
  }

  // ── Every step keeps it ──

  /** Only dial `d` and its pools may differ. */
  ghost predicate OnlyDial(st: State, log: Log, st': State, log': Log, d: nat) {
    && st.nextDial <= st'.nextDial && st.nextPool <= st'.nextPool && d < st'.nextDial
    && (forall c :: c in st'.dials && c != d ==> c in st.dials && st'.dials[c] == st.dials[c])
    && (forall c :: c in st.dials && c != d ==> c in st'.dials)
    && (forall c :: c != d ==> (c in log'.answers <==> c in log.answers) && (c in log'.probes <==> c in log.probes))
    && (forall c :: c != d && c in log.answers ==> log'.answers[c] == log.answers[c])
    && (forall c :: c != d && c in log.probes ==> log'.probes[c] == log.probes[c])
    && OnlyPools(st, st', d)
  }

  ghost predicate OnlyPools(st: State, st': State, d: nat) {
    && (forall p :: p in st'.made && st'.made[p].dial != d ==> p in st.made && st'.made[p] == st.made[p])
    && (forall p :: p in st.made ==> p in st'.made && st'.made[p] == st.made[p])
    && (forall p :: p in st'.made && st'.made[p].dial != d ==>
          (p in st'.cache.info <==> p in st.cache.info)
          && (p in st.cache.info ==> st'.cache.info[p] == st.cache.info[p]))
  }

  lemma OtherDial(cfg: Config, st: State, log: Log, st': State, log': Log, d: nat, c: nat)
    requires OnlyDial(st, log, st', log', d) && c in st'.dials && c != d && c in st.dials && DialHonest(cfg, st, log, c)
    ensures DialHonest(cfg, st', log', c)
  {
  }

  lemma OtherMade(cfg: Config, st: State, log: Log, st': State, log': Log, d: nat, p: Pool)
    requires OnlyDial(st, log, st', log', d) && p in st'.made && st'.made[p].dial != d && p in st.made
    requires MadeHonest(cfg, st, log, p)
    ensures MadeHonest(cfg, st', log', p)
  {
  }

  lemma OthersHonest(cfg: Config, st: State, log: Log, st': State, log': Log, d: nat)
    requires Honest(cfg, st, log) && OnlyDial(st, log, st', log', d)
    ensures forall c :: c in st'.dials && c != d ==> DialHonest(cfg, st', log', c)
    ensures forall p :: p in st'.made && st'.made[p].dial != d ==> MadeHonest(cfg, st', log', p)
    ensures forall c :: c in log'.probes && c != d ==> ProbeHonest(st', log', c)
    ensures forall c :: c in log'.answers ==> c < st'.nextDial
  {
    hide DialHonest, MadeHonest;
    forall c | c in st'.dials && c != d ensures DialHonest(cfg, st', log', c) {
      OtherDial(cfg, st, log, st', log', d, c);
    }
    forall p | p in st'.made && st'.made[p].dial != d ensures MadeHonest(cfg, st', log', p) {
      OtherMade(cfg, st, log, st', log', d, p);
    }
    forall c | c in log'.probes && c != d ensures ProbeHonest(st', log', c) { assert ProbeHonest(st, log, c); }
  }

  lemma OtherNote(st: State, log: Log, st': State, log': Log, d: nat, p: Pool)
    requires OnlyDial(st, log, st', log', d) && p in st.cache.info && p in st'.cache.info && NoteHonest(st, log, p)
    requires st.made[p].dial != d
    ensures NoteHonest(st', log', p)
  {
  }

  /** So what is to be shown of a step is about that dial and its pools. */
  lemma Closes(cfg: Config, st: State, log: Log, st': State, log': Log, d: nat)
    requires Honest(cfg, st, log) && OnlyDial(st, log, st', log', d)
    requires d in st'.dials ==> DialHonest(cfg, st', log', d)
    requires forall p :: p in st'.made && st'.made[p].dial == d ==> MadeHonest(cfg, st', log', p)
    requires forall p :: p in st'.cache.info ==> p in st'.made && (st'.made[p].dial == d ==> NoteHonest(st', log', p))
    requires d in log'.probes ==> ProbeHonest(st', log', d)
    ensures Honest(cfg, st', log')
  {
    OthersHonest(cfg, st, log, st', log', d);
    hide DialHonest, MadeHonest, ProbeHonest, NoteHonest;
    forall p | p in st'.cache.info ensures NoteHonest(st', log', p) {
      if st'.made[p].dial != d { OtherNote(st, log, st', log', d, p); }
    }
  }

  lemma KnownPools(cfg: Config, st: State, log: Log)
    requires Honest(cfg, st, log)
    ensures st.nextPool !in st.made && st.nextPool !in st.cache.info
    ensures forall p :: p in st.cache.info ==> p in st.made
    ensures forall p :: p in st.made ==> st.made[p].dial < st.nextDial && st.made[p].dial in log.answers
    ensures forall d :: d in st.dials ==> d < st.nextDial && d !in log.probes
    ensures forall d :: d in log.probes ==> d < st.nextDial
  {
    forall p | p in st.made ensures p < st.nextPool && st.made[p].dial < st.nextDial && st.made[p].dial in log.answers {
      assert MadeHonest(cfg, st, log, p);
    }
    forall p | p in st.cache.info ensures p in st.made { assert NoteHonest(st, log, p); }
    forall d | d in st.dials ensures d < st.nextDial && d !in log.probes { assert DialHonest(cfg, st, log, d); }
    forall d | d in log.probes ensures d < st.nextDial { assert ProbeHonest(st, log, d); }
  }

  lemma GetHonest(cfg: Config, st: State, log: Log, t: Target)
    requires Honest(cfg, st, log)
    ensures Honest(cfg, Step(cfg, st, Get(t)), log)
  {
    var st' := Step(cfg, st, Get(t));
    if st' != st {
      KnownPools(cfg, st, log);
      var d := st.nextDial;
      hide Key, MadeHonest, ProbeHonest, NoteHonest, Honest;
      assert OnlyDial(st, log, st', log, d) by { hide DialHonest; }
      assert DialHonest(cfg, st', log, d) by { hide OnlyDial; KnownAnswers(cfg, st, log); }
      Closes(cfg, st, log, st', log, d);
    }
  }

  lemma KnownAnswers(cfg: Config, st: State, log: Log)
    requires Honest(cfg, st, log)
    ensures forall d :: d in log.answers ==> d < st.nextDial
  {
  }

  /** What is cached, retired or queried does not matter. */
  lemma QuietHonest(cfg: Config, st: State, log: Log, st': State)
    requires Honest(cfg, st, log)
    requires st'.dials == st.dials && st'.nextDial == st.nextDial && st'.made == st.made && st'.nextPool == st.nextPool
    requires st'.cache.info == st.cache.info
    ensures Honest(cfg, st', log)
  {
    forall d | d in st'.dials ensures DialHonest(cfg, st', log, d) { assert DialHonest(cfg, st, log, d); }
    forall p | p in st'.made ensures MadeHonest(cfg, st', log, p) { assert MadeHonest(cfg, st, log, p); }
    forall p | p in st'.cache.info ensures NoteHonest(st', log, p) { assert NoteHonest(st, log, p); }
    forall d | d in log.probes ensures ProbeHonest(st', log, d) { assert ProbeHonest(st, log, d); }
  }

  /** A step of a dial concerns that dial alone. */
  lemma OkStep(cfg: Config, st: State, log: Log, e: Event, d: nat)
    requires Enabled(cfg, st, e) && d < st.nextDial && st.nextPool !in st.made && st.nextPool !in st.cache.info
    requires e == FirstOk(d)
    ensures OnlyDial(st, log, Step(cfg, st, e), Noted(cfg, st, log, e), d)
  {
    hide Key, Truthy;
  }

  lemma SecondOkStep(cfg: Config, st: State, log: Log, d: nat)
    requires Enabled(cfg, st, SecondOk(d)) && d < st.nextDial && st.nextPool !in st.made
             && st.nextPool !in st.cache.info
    ensures OnlyDial(st, log, Step(cfg, st, SecondOk(d)), log, d)
  {
    if st.dials[d].stage.first == "" { SilentStep(cfg, st, log, d); } else { ProbingStep(cfg, st, log, d); }
  }

  lemma SilentStep(cfg: Config, st: State, log: Log, d: nat)
    requires Enabled(cfg, st, SecondOk(d)) && d < st.nextDial && st.nextPool !in st.made
             && st.nextPool !in st.cache.info
    requires st.dials[d].stage.first == ""
    ensures OnlyDial(st, log, Step(cfg, st, SecondOk(d)), log, d)
  {
    hide Key, Truthy;
  }

  lemma ProbingStep(cfg: Config, st: State, log: Log, d: nat)
    requires Enabled(cfg, st, SecondOk(d)) && d < st.nextDial && st.nextPool !in st.made
             && st.nextPool !in st.cache.info
    requires st.dials[d].stage.first != ""
    ensures OnlyDial(st, log, Step(cfg, st, SecondOk(d)), log, d)
  {
    hide Key, Finish;
  }

  lemma FailStep(cfg: Config, st: State, log: Log, e: Event, d: nat)
    requires Enabled(cfg, st, e) && d < st.nextDial && (e == SecondFailed(d) || (e.FirstFailed? && e.dial == d))
    ensures OnlyDial(st, log, Step(cfg, st, e), Noted(cfg, st, log, e), d)
  {
  }

  lemma ProbeStep(cfg: Config, st: State, log: Log, e: Event, d: nat, p: Pool)
    requires e.Probed? && e.dial == d && Enabled(cfg, st, e) && d < st.nextDial && p == st.dials[d].stage.pool
    requires p in st.made && st.made[p].dial == d
    ensures OnlyDial(st, log, Step(cfg, st, e), Noted(cfg, st, log, e), d)
  {
    hide Key, Truthy;
  }

  lemma FirstOkHonest(cfg: Config, st: State, log: Log, d: nat)
    requires Honest(cfg, st, log) && Enabled(cfg, st, FirstOk(d))
    ensures Honest(cfg, Step(cfg, st, FirstOk(d)), Noted(cfg, st, log, FirstOk(d)))
  {
    var st', log' := Step(cfg, st, FirstOk(d)), Noted(cfg, st, log, FirstOk(d));
    assert DialHonest(cfg, st, log, d);
    KnownPools(cfg, st, log);
    OkStep(cfg, st, log, FirstOk(d), d);
    hide Key, Honest, ProbeHonest, OnlyDial, Truthy;
    assert MadeHonest(cfg, st', log', st.nextPool) && NoteHonest(st', log', st.nextPool);
    hide DialHonest, MadeHonest, NoteHonest;
    Closes(cfg, st, log, st', log', d);
  }

  lemma FirstFailedHonest(cfg: Config, st: State, log: Log, e: Event)
    requires Honest(cfg, st, log) && e.FirstFailed? && Enabled(cfg, st, e)
    ensures Honest(cfg, Step(cfg, st, e), Noted(cfg, st, log, e))
  {
    var d := e.dial;
    var st', log' := Step(cfg, st, e), Noted(cfg, st, log, e);
    assert DialHonest(cfg, st, log, d);
    KnownPools(cfg, st, log);
    FailStep(cfg, st, log, e, d);
    hide Key, Honest, ProbeHonest, OnlyDial, MadeHonest, NoteHonest;
    assert d in st'.dials ==> DialHonest(cfg, st', log', d);
    Closes(cfg, st, log, st', log', d);
  }

  lemma SecondFailedHonest(cfg: Config, st: State, log: Log, d: nat)
    requires Honest(cfg, st, log) && Enabled(cfg, st, SecondFailed(d))
    ensures Honest(cfg, Step(cfg, st, SecondFailed(d)), log)
  {
    var st' := Step(cfg, st, SecondFailed(d));
    assert DialHonest(cfg, st, log, d);
    KnownPools(cfg, st, log);
    FailStep(cfg, st, log, SecondFailed(d), d);
    hide Key, Honest, ProbeHonest, OnlyDial, MadeHonest, NoteHonest;
    Closes(cfg, st, log, st', log, d);
  }

  lemma SecondOkHonest(cfg: Config, st: State, log: Log, d: nat)
    requires Honest(cfg, st, log) && Enabled(cfg, st, SecondOk(d))
    ensures Honest(cfg, Step(cfg, st, SecondOk(d)), log)
  {
    var st', p := Step(cfg, st, SecondOk(d)), st.nextPool;
    assert DialHonest(cfg, st, log, d);
    KnownPools(cfg, st, log);
    SecondOkStep(cfg, st, log, d);
    hide Honest, OnlyDial;
    OnFallback(cfg, st, log, d);
    assert forall q :: q in st'.made && q != p ==> st'.made[q].dial != d;
    hide DialHonest, MadeHonest, NoteHonest, Step;
    Closes(cfg, st, log, st', log, d);
  }

  /** The pool of a second connect, and its dial, if it goes on to the probe. */
  lemma OnFallback(cfg: Config, st: State, log: Log, d: nat)
    requires Enabled(cfg, st, SecondOk(d)) && DialHonest(cfg, st, log, d)
    requires st.nextPool !in st.made && st.nextPool !in st.cache.info
    ensures var st', p := Step(cfg, st, SecondOk(d)), st.nextPool;
            && p in st'.made && st'.made[p].dial == d && MadeHonest(cfg, st', log, p)
            && (p in st'.cache.info ==> NoteHonest(st', log, p))
            && (d in st'.dials ==> DialHonest(cfg, st', log, d))
  {
    hide Key, Truthy;
  }

  lemma ProbedHonest(cfg: Config, st: State, log: Log, e: Event)
    requires Honest(cfg, st, log) && e.Probed? && Enabled(cfg, st, e)
    ensures Honest(cfg, Step(cfg, st, e), Noted(cfg, st, log, e))
  {
    var d := e.dial;
    var p := st.dials[d].stage.pool;
    var st', log' := Step(cfg, st, e), Noted(cfg, st, log, e);
    assert DialHonest(cfg, st, log, d) && MadeHonest(cfg, st, log, p);
    KnownPools(cfg, st, log);
    ProbeStep(cfg, st, log, e, d, p);
    OnProbed(cfg, st, log, e, p);
    hide Honest, OnlyDial;
    assert st'.made == st.made && d !in st'.dials;
    hide MadeHonest, NoteHonest, Step, Noted;
    Closes(cfg, st, log, st', log', d);
  }

  /** The pool of a probed dial. */
  lemma OnProbed(cfg: Config, st: State, log: Log, e: Event, p: Pool)
    requires e.Probed? && Enabled(cfg, st, e) && DialHonest(cfg, st, log, e.dial) && p == st.dials[e.dial].stage.pool
    requires MadeHonest(cfg, st, log, p)
    ensures var st', log' := Step(cfg, st, e), Noted(cfg, st, log, e);
            && p in st'.made && MadeHonest(cfg, st', log', p) && (p in st'.cache.info ==> NoteHonest(st', log', p))
            && e.dial in log'.probes && ProbeHonest(st', log', e.dial)
  {
    hide Key, Truthy;
  }

  lemma StepHonest(cfg: Config, st: State, log: Log, e: Event)
    requires Honest(cfg, st, log)
    ensures Honest(cfg, Step(cfg, st, e), Noted(cfg, st, log, e))
  {
    hide Honest, Finish, Create, Key, Evict, Retire;
    if Enabled(cfg, st, e) {
      match e
      case Get(t) => GetHonest(cfg, st, log, t);
      case FirstOk(d) => FirstOkHonest(cfg, st, log, d);
      case FirstFailed(_, _, _) => FirstFailedHonest(cfg, st, log, e);
      case SecondOk(d) => SecondOkHonest(cfg, st, log, d);
      case SecondFailed(d) => SecondFailedHonest(cfg, st, log, d);
      case Probed(_, _) => ProbedHonest(cfg, st, log, e);
      case _ =>
        KeepsInfo(cfg, st, e);
        QuietHonest(cfg, st, log, Step(cfg, st, e));
    }
  }

  lemma KeepsInfo(cfg: Config, st: State, e: Event)
    requires e.PoolError? || e.Disconnect? || e.Fire? || e.Tick? || e.StartQuery? || e.EndQuery?
    ensures var st' := Step(cfg, st, e);
            && st'.dials == st.dials && st'.nextDial == st.nextDial && st'.made == st.made
            && st'.nextPool == st.nextPool && st'.cache.info == st.cache.info
  {
  }

  lemma {:induction false} RunHonest(cfg: Config, evs: seq<Event>)
    ensures Honest(cfg, Run(cfg, INITIAL, evs), LogOf(cfg, evs))
  {
    if evs != [] {
      var before := evs[..|evs| - 1];
      RunHonest(cfg, before);
      StepHonest(cfg, Run(cfg, INITIAL, before), LogOf(cfg, before), evs[|evs| - 1]);
    }
  }

  // ── What it means ──

  /**
   * A pool is on the fallback catalog iff the first connect of its dial failed for want of a catalog, falling back is
   * switched on, and the configured database is another one. Otherwise that first connect succeeded.
   */
  lemma FallsBackExactly(cfg: Config, evs: seq<Event>, p: Pool)
    requires p in Run(cfg, INITIAL, evs).made
    ensures var m, answers := Run(cfg, INITIAL, evs).made[p], LogOf(cfg, evs).answers;
            && m.dial in answers
            && (m.fellBack <==>
                  && answers[m.dial].Failed? && answers[m.dial].catalogUnavailable && cfg.enabled
                  && !cfg.same(cfg.database(m.target.instance), cfg.fallbackDb))
            && (m.fellBack ==> answers[m.dial].message == m.first)
            && (!m.fellBack ==> answers[m.dial] == Connected)
  {
    RunHonest(cfg, evs);
    assert MadeHonest(cfg, Run(cfg, INITIAL, evs), LogOf(cfg, evs), p);
  }

  /** A pool of a dial that is over was handed out, unless the server could show it has no such database. */
  lemma HandedOutExactly(cfg: Config, evs: seq<Event>, p: Pool)
    requires p in Run(cfg, INITIAL, evs).made && Run(cfg, INITIAL, evs).made[p].dial !in Run(cfg, INITIAL, evs).dials
    ensures var st, probes := Run(cfg, INITIAL, evs), LogOf(cfg, evs).probes;
            p in st.cache.info <==> !(st.made[p].dial in probes && probes[st.made[p].dial] == NoRow(true))
  {
    RunHonest(cfg, evs);
    var st, log := Run(cfg, INITIAL, evs), LogOf(cfg, evs);
    assert MadeHonest(cfg, st, log, p);
    if p in st.cache.info && st.made[p].dial in log.probes {
      assert NoteHonest(st, log, p) && ProbeHonest(st, log, st.made[p].dial);
    }
  }

  /** What is said of a fallback is what its probe found: nothing, no row to be seen, or the state of the database. */
  lemma NoteSaysWhatWasFound(cfg: Config, evs: seq<Event>, p: Pool)
    requires var st := Run(cfg, INITIAL, evs);
             p in st.cache.info && p in st.made && st.made[p].fellBack && st.made[p].first != ""
    ensures var st, probes := Run(cfg, INITIAL, evs), LogOf(cfg, evs).probes; var d := st.made[p].dial;
            && d in probes && st.cache.info[p].reason.Some?
            && (st.cache.info[p].reason.value.note == Unreadable <==> probes[d] == NoAnswer)
            && (st.cache.info[p].reason.value.note == NotEstablished <==> probes[d] == NoRow(false))
            && (st.cache.info[p].reason.value.note == OnlineThere <==> probes[d] == Row("ONLINE"))
            && (forall s: string {:trigger SickThere(s)} ::
                  st.cache.info[p].reason.value.note == SickThere(s) <==> s != "ONLINE" && probes[d] == Row(s))
  {
    RunHonest(cfg, evs);
    assert NoteHonest(Run(cfg, INITIAL, evs), LogOf(cfg, evs), p);
  }

  // ── A failure that ends its dial ──

  predicate Over(st: State, d: nat) {
    d < st.nextDial && d !in st.dials && NoPoolOf(st, d)
  }

  lemma StaysOver(cfg: Config, st: State, e: Event, d: nat)
    requires Over(st, d)
    ensures Over(Step(cfg, st, e), d)
  {
  }

  lemma {:induction false} StaysOverForGood(cfg: Config, evs: seq<Event>, more: seq<Event>, d: nat)
    requires Over(Run(cfg, INITIAL, evs), d)
    ensures Over(Run(cfg, INITIAL, evs + more), d)
  {
    if more == [] {
      assert evs + more == evs;
    } else {
      var before := more[..|more| - 1];
      StaysOverForGood(cfg, evs, before, d);
      assert evs + more == (evs + before) + [more[|more| - 1]];
      RunSnoc(cfg, evs + before, more[|more| - 1]);
      hide Over;
      StaysOver(cfg, Run(cfg, INITIAL, evs + before), more[|more| - 1], d);
    }
  }

  /**
   * A first connect that fails goes on to a second one iff the failure was for want of a catalog and falling back is
   * worth trying. Otherwise the dial is over: whatever happens later, it never makes a pool.
   */
  lemma FailureEndsDial(cfg: Config, evs: seq<Event>, d: nat, message: string, unavailable: bool, more: seq<Event>)
    requires Enabled(cfg, Run(cfg, INITIAL, evs), FirstFailed(d, message, unavailable))
    ensures var t := Run(cfg, INITIAL, evs).dials[d].target;
            var failed := evs + [FirstFailed(d, message, unavailable)];
            var falls := unavailable && cfg.enabled && !cfg.same(cfg.database(t.instance), cfg.fallbackDb);
            && (falls ==> d in Run(cfg, INITIAL, failed).dials
                          && Run(cfg, INITIAL, failed).dials[d] == Dial(t, SecondTry(message)))
            && (!falls ==>
                  && d !in Run(cfg, INITIAL, failed + more).dials
                  && NoPoolOf(Run(cfg, INITIAL, failed + more), d))
  {
    var st, e := Run(cfg, INITIAL, evs), FirstFailed(d, message, unavailable);
    RunSnoc(cfg, evs, e);
    RunHonest(cfg, evs);
    assert DialHonest(cfg, st, LogOf(cfg, evs), d);
    hide Honest, DialHonest;
    if d !in Step(cfg, st, e).dials { StaysOverForGood(cfg, evs + [e], more, d); }
  }

  /** A second failure ends its dial as well: no pool ever comes of it. */
  lemma SecondFailureEndsDial(cfg: Config, evs: seq<Event>, d: nat, more: seq<Event>)
    requires Enabled(cfg, Run(cfg, INITIAL, evs), SecondFailed(d))
    ensures var st := Run(cfg, INITIAL, evs + [SecondFailed(d)] + more); d !in st.dials && NoPoolOf(st, d)
  {
    var st, e := Run(cfg, INITIAL, evs), SecondFailed(d);
    RunSnoc(cfg, evs, e);
    RunHonest(cfg, evs);
    assert DialHonest(cfg, st, LogOf(cfg, evs), d);
    hide Honest, DialHonest;
    StaysOverForGood(cfg, evs + [e], more, d);
  }

  predicate CachedNow(st: State, p: Pool) {
    && p in st.made && Key(st.made[p].target) in st.cache.pools && st.cache.pools[Key(st.made[p].target)] == p
    && (p in st.cache.timers <==> st.made[p].fellBack && st.made[p].first != "") && st.made[p].dial !in st.dials
  }

  lemma FinishCaches(cfg: Config, st: State, d: nat, p: Pool, t: Target, reason: Option<Reason>)
    requires p in st.made && st.made[p].target == t && st.made[p].dial == d && p !in st.cache.timers
    requires Truthy(reason) <==> st.made[p].fellBack && st.made[p].first != ""
    ensures CachedNow(Finish(cfg, st, d, p, t, reason), p)
  {
    hide Key, Truthy;
  }

  lemma StepHandsOut(cfg: Config, st: State, log: Log, e: Event, p: Pool)
    requires Honest(cfg, st, log) && p in Step(cfg, st, e).cache.info && p !in st.cache.info && p !in st.cache.timers
    ensures CachedNow(Step(cfg, st, e), p)
  {
    KnownPools(cfg, st, log);
    NewlyHandedOut(cfg, st, e, p);
    if e.Probed? { ProbingIsTrue(cfg, st, log, e.dial); }
    hide Honest, CachedNow, Key;
    match e
    case FirstOk(d) =>
      FinishCaches(cfg, Create(st, st.dials[d].target, false, "", d), d, p, st.dials[d].target, None);
    case SecondOk(d) =>
      var t, first := st.dials[d].target, st.dials[d].stage.first;
      FinishCaches(cfg, Create(st, t, true, first, d), d, p, t, Some(Reason(first, Raw)));
    case Probed(d, probe) =>
      var t, first := st.dials[d].target, st.dials[d].stage.first;
      FinishCaches(cfg, st, d, p, t, Some(Reason(first, NoteOf(probe))));
    case _ =>
  }

  lemma NewlyHandedOut(cfg: Config, st: State, e: Event, p: Pool)
    requires p in Step(cfg, st, e).cache.info && p !in st.cache.info
    ensures Enabled(cfg, st, e) && (e.FirstOk? || e.SecondOk? || e.Probed?)
    ensures p == if e.Probed? then st.dials[e.dial].stage.pool else st.nextPool
  {
  }

  lemma ProbingIsTrue(cfg: Config, st: State, log: Log, d: nat)
    requires Honest(cfg, st, log) && d in st.dials && st.dials[d].stage.Probing?
    ensures var q := st.dials[d].stage.pool;
            && q in st.made && st.made[q] == Made(st.dials[d].target, true, st.dials[d].stage.first, d)
            && st.dials[d].stage.first != ""
  {
    assert DialHonest(cfg, st, log, d);
  }

  lemma HasNoTimerYet(cfg: Config, st: State, p: Pool)
    requires Inv(cfg, st) && p !in st.cache.info
    ensures p !in st.cache.timers
  {
  }

  /**
   * A pool that is handed out is from then on the one its key is found under, whatever was there before; it is given a
   * retirement timer iff it fell back after a failure that had a message; and its dial is over.
   */
  lemma HandsOutIntoCache(cfg: Config, evs: seq<Event>, e: Event, p: Pool)
    requires cfg.ttl >= 0 && p in Run(cfg, INITIAL, evs + [e]).cache.info && p !in Run(cfg, INITIAL, evs).cache.info
    ensures var st := Run(cfg, INITIAL, evs + [e]);
            && p in st.made && Key(st.made[p].target) in st.cache.pools && st.cache.pools[Key(st.made[p].target)] == p
            && (p in st.cache.timers <==> st.made[p].fellBack && st.made[p].first != "")
            && st.made[p].dial !in st.dials
  {
    RunSnoc(cfg, evs, e);
    Reachable(cfg, evs);
    RunHonest(cfg, evs);
    hide Honest, Key, Inv, Step;
    HasNoTimerYet(cfg, Run(cfg, INITIAL, evs), p);
    StepHandsOut(cfg, Run(cfg, INITIAL, evs), LogOf(cfg, evs), e, p);
  }
}
