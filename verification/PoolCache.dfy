/** The keyed pool cache: catalog fallback, retirement, error eviction. */
module PoolCache {
  import opened Text

  import SqlErrors

  type Pool = nat

  /** Who a pool is dialled for, and with what secret: a password, or nothing where a token is used. */
  datatype Target = Target(identity: string, secret: string, instance: string, write: bool)

  function Key(t: Target): string {
    t.identity + "::" + (if t.write then t.instance + "#rw" else t.instance)
  }

  /** What the probe after a fallback adds to the first failure's message; Raw means there was no probe. */
  datatype Note = Raw | Unreadable | NotEstablished | OnlineThere | SickThere(state: string)

  datatype Reason = Reason(first: string, note: Note)

  /** A `fallbackReason` is tested for truth, so an empty text counts as no reason at all. */
  predicate Truthy(r: Option<Reason>) {
    r.Some? && (r.value.first != "" || r.value.note != Raw)
  }

  datatype Catalog = Catalog(configured: string, actual: string, reason: Option<Reason>)

  datatype Timer = Timer(key: string, fireAt: int)

  /** SQL_CATALOG_FALLBACK_TTL_MS, parsed (None is not a finite number), clamped to what a timer accepts. */
  function FallbackTtl(parsed: Option<int>): (ms: int)
    ensures 1000 <= ms <= 2_147_483_647
    ensures parsed == None ==> ms == 60_000
    ensures parsed.Some? ==>
              && (1000 <= parsed.value <= 2_147_483_647 ==> ms == parsed.value)
              && (parsed.value < 1000 ==> ms == 1000) && (parsed.value > 2_147_483_647 ==> ms == 2_147_483_647)
  {
    match parsed
    case None => 60000
    case Some(v) => if v < 1000 then 1000 else if v > 0x7FFF_FFFF then 0x7FFF_FFFF else v
  }

  /** `pools`, `poolCatalogInfo` and the pending retirement timers. */
  datatype Cache = Cache(pools: map<string, Pool>, info: map<Pool, Catalog>, timers: map<Pool, Timer>)

  function Register(c: Cache, key: string, p: Pool, cat: Catalog, now: int, ttl: int): Cache {
    var timers := if Truthy(cat.reason) then c.timers[p := Timer(key, now + ttl)] else c.timers;
    Cache(c.pools[key := p], c.info[p := cat], timers)
  }

  /** Drops the entry of `key` only if it is still this very pool. */
  function Evict(c: Cache, key: string, p: Pool): Cache {
    if key in c.pools && c.pools[key] == p then c.(pools := c.pools - {key}) else c
  }

  function Retire(c: Cache, p: Pool): Cache
    requires p in c.timers
  {
    Evict(c.(timers := c.timers - {p}), c.timers[p].key, p)
  }

  // ── Steps: between two awaits anything else may run, and nothing stops two dials of the same key ──

  /**
   * The fleet and the settings: `same` compares database names as the program does, and `uses` says with which
   * secrets callers come.
   */
  datatype Config = Config(fleet: set<string>, database: string -> string, fallbackDb: string, enabled: bool,
                           same: (string, string) -> bool, ttl: int, uses: Target -> bool)

  datatype Stage = FirstTry | SecondTry(first: string) | Probing(first: string, pool: Pool)

  datatype Dial = Dial(target: Target, stage: Stage)

  /** How a pool came to be: for whom, by which dial, and whether and after what message it fell back. */
  datatype Made = Made(target: Target, fellBack: bool, first: string, dial: nat)

  datatype Probe = NoAnswer | NoRow(canSeeCatalog: bool) | Row(state: string)

  datatype QueryResult = QueryResult(pool: Pool, warned: bool)

  datatype State = State(
    cache: Cache, now: int, dials: map<nat, Dial>, nextDial: nat, made: map<Pool, Made>, nextPool: Pool,
    connected: set<Pool>, cachedAt: map<Pool, int>, running: map<nat, Pool>, results: seq<QueryResult>)

  const INITIAL := State(Cache(map[], map[], map[]), 0, map[], 0, map[], 0, {}, map[], map[], [])

  datatype Event =
    | Get(target: Target)
    | FirstOk(dial: nat)
    | FirstFailed(dial: nat, message: string, catalogUnavailable: bool)
    | SecondOk(dial: nat)
    | SecondFailed(dial: nat)
    | Probed(dial: nat, probe: Probe)
    | PoolError(pool: Pool)
    | Disconnect(pool: Pool)
    | Fire(pool: Pool)
    | Tick(to: int)
    | StartQuery(query: nat, pool: Pool)
    | EndQuery(query: nat)

  /**
   * Nobody connects without an identity; an armed timer fires before time moves past it; a query runs on a pool that
   * was handed out.
   */
  predicate Enabled(cfg: Config, st: State, e: Event) {
    match e
    case Get(t) => Calls(cfg, t)
    case FirstOk(d) => d in st.dials && st.dials[d].stage.FirstTry?
    case FirstFailed(d, _, _) => d in st.dials && st.dials[d].stage.FirstTry?
    case SecondOk(d) => d in st.dials && st.dials[d].stage.SecondTry?
    case SecondFailed(d) => d in st.dials && st.dials[d].stage.SecondTry?
    case Probed(d, _) => d in st.dials && st.dials[d].stage.Probing?
    case PoolError(p) => p in st.made
    case Disconnect(p) => p in st.made
    case Fire(p) => p in st.cache.timers && st.cache.timers[p].fireAt <= st.now
    case Tick(to) => st.now <= to && forall p :: p in st.cache.timers ==> to <= st.cache.timers[p].fireAt
    case StartQuery(q, p) => q !in st.running && p in st.cache.info
    case EndQuery(q) => q in st.running
  }

  function NoteOf(probe: Probe): Note {
    match probe
    case NoAnswer => Unreadable
    case NoRow(_) => NotEstablished
    case Row(s) => if s == "ONLINE" then OnlineThere else SickThere(s)
  }

  /** A finished dial hands its pool out and caches it. */
  function Finish(cfg: Config, st: State, d: nat, p: Pool, t: Target, reason: Option<Reason>): State {
    var db := cfg.database(t.instance);
    var cat := Catalog(db, if reason.Some? then cfg.fallbackDb else db, reason);
    st.(cache := Register(st.cache, Key(t), p, cat, st.now, cfg.ttl), cachedAt := st.cachedAt[p := st.now],
        dials := st.dials - {d})
  }

  /** A connect succeeded: a new pool exists, its error listener attached, not cached yet. */
  function Create(st: State, t: Target, fellBack: bool, first: string, d: nat): State {
    st.(made := st.made[st.nextPool := Made(t, fellBack, first, d)], connected := st.connected + {st.nextPool},
        nextPool := st.nextPool + 1)
  }

  function Step(cfg: Config, st: State, e: Event): State {
    if !Enabled(cfg, st, e) then st
    else match e
      case Get(t) =>
        if Key(t) in st.cache.pools && st.cache.pools[Key(t)] in st.connected then st
        else st.(dials := st.dials[st.nextDial := Dial(t, FirstTry)], nextDial := st.nextDial + 1)
      case FirstOk(d) =>
        var t := st.dials[d].target;
        Finish(cfg, Create(st, t, false, "", d), d, st.nextPool, t, None)
      case FirstFailed(d, message, catalogUnavailable) =>
        var t := st.dials[d].target;
        if !cfg.enabled || cfg.same(cfg.database(t.instance), cfg.fallbackDb) || !catalogUnavailable
          then st.(dials := st.dials - {d})
        else st.(dials := st.dials[d := Dial(t, SecondTry(message))])
      case SecondFailed(d) => st.(dials := st.dials - {d})
      case SecondOk(d) =>
        var t, first := st.dials[d].target, st.dials[d].stage.first;
        var created := Create(st, t, true, first, d);
        if first == "" then Finish(cfg, created, d, st.nextPool, t, Some(Reason(first, Raw)))
        else created.(dials := st.dials[d := Dial(t, Probing(first, st.nextPool))])
      case Probed(d, probe) =>
        var t, first, p := st.dials[d].target, st.dials[d].stage.first, st.dials[d].stage.pool;
        if probe == NoRow(true) then st.(dials := st.dials - {d}, connected := st.connected - {p})
        else Finish(cfg, st, d, p, t, Some(Reason(first, NoteOf(probe))))
      case PoolError(p) => st.(cache := Evict(st.cache, Key(st.made[p].target), p))
      case Disconnect(p) => st.(connected := st.connected - {p})
      case Fire(p) => st.(cache := Retire(st.cache, p))
      case Tick(to) => st.(now := to)
      case StartQuery(q, p) => st.(running := st.running[q := p])
      case EndQuery(q) =>
        var p := st.running[q];
        var warned := p in st.cache.info && Truthy(st.cache.info[p].reason);
        st.(running := st.running - {q}, results := st.results + [QueryResult(p, warned)])
  }

  function Run(cfg: Config, st: State, evs: seq<Event>): State {
    if evs == [] then st else Step(cfg, Run(cfg, st, evs[..|evs| - 1]), evs[|evs| - 1])
  }

  // ── The cache as the program keeps it: what runs from one await to the next ──

  class PoolManager {
    const cfg: Config
    var pools: map<string, Pool>
    var poolCatalogInfo: map<Pool, Catalog>
    var timers: map<Pool, Timer>

    // The world: the clock, the suspended dials and queries, the connections; and the history the theorems are about.
    var now: int
    var dials: map<nat, Dial>
    var nextDial: nat
    var nextPool: Pool
    var connected: set<Pool>
    var running: map<nat, Pool>
    ghost var made: map<Pool, Made>
    ghost var cachedAt: map<Pool, int>
    ghost var results: seq<QueryResult>

    ghost function View(): State
      reads this
    {
      State(Cache(pools, poolCatalogInfo, timers), now, dials, nextDial, made, nextPool, connected, cachedAt,
            running, results)
    }

    constructor (cfg: Config, parsedTtl: Option<int>)
      ensures View() == INITIAL && this.cfg == cfg.(ttl := FallbackTtl(parsedTtl))
    {
      this.cfg := cfg.(ttl := FallbackTtl(parsedTtl));
      pools, poolCatalogInfo, timers := map[], map[], map[];
      now, dials, nextDial, nextPool, connected, running := 0, map[], 0, 0, {}, map[];
      made, cachedAt, results := map[], map[], [];
    }

    /** Up to the first await: the cached pool while it is connected, or a dial of its own for this very call. */
    method GetPool(t: Target) returns (existing: Option<Pool>)
      requires Enabled(cfg, View(), Get(t))
      modifies this
      ensures View() == Step(cfg, old(View()), Get(t))
      ensures existing.Some? ==> existing.value in connected && View() == old(View())
      ensures existing.None? ==> nextDial == old(nextDial) + 1 && dials[old(nextDial)] == Dial(t, FirstTry)
    {
      var key := Key(t);
      if key in pools && pools[key] in connected {
        return Some(pools[key]);
      }
      dials, nextDial := dials[nextDial := Dial(t, FirstTry)], nextDial + 1;
      existing := None;
    }

    method OnFirstOk(d: nat)
      requires Enabled(cfg, View(), FirstOk(d))
      modifies this
      ensures View() == Step(cfg, old(View()), FirstOk(d))
    {
      var t := dials[d].target;
      var p := Connect(t, false, "", d);
      Adopt(d, p, t, None);
    }

    method OnFirstFailed(d: nat, message: string, catalogUnavailable: bool)
      requires Enabled(cfg, View(), FirstFailed(d, message, catalogUnavailable))
      modifies this
      ensures View() == Step(cfg, old(View()), FirstFailed(d, message, catalogUnavailable))
    {
      var t := dials[d].target;
      var sameDb := cfg.same(cfg.database(t.instance), cfg.fallbackDb);
      if !cfg.enabled || sameDb || !catalogUnavailable {
        dials := dials - {d};
      } else {
        dials := dials[d := Dial(t, SecondTry(message))];
      }
    }

    method OnSecondFailed(d: nat)
      requires Enabled(cfg, View(), SecondFailed(d))
      modifies this
      ensures View() == Step(cfg, old(View()), SecondFailed(d))
    {
      dials := dials - {d};
    }

    /** Connected to the fallback catalog. An empty reason is no reason: there is no probe then. */
    method OnSecondOk(d: nat)
      requires Enabled(cfg, View(), SecondOk(d))
      modifies this
      ensures View() == Step(cfg, old(View()), SecondOk(d))
    {
      var t, first := dials[d].target, dials[d].stage.first;
      var p := Connect(t, true, first, d);
      if first == "" {
        Adopt(d, p, t, Some(Reason(first, Raw)));
      } else {
        dials := dials[d := Dial(t, Probing(first, p))];
      }
    }

    method OnProbed(d: nat, probe: Probe)
      requires Enabled(cfg, View(), Probed(d, probe))
      modifies this
      ensures View() == Step(cfg, old(View()), Probed(d, probe))
    {
      var t, first, p := dials[d].target, dials[d].stage.first, dials[d].stage.pool;
      if probe == NoRow(true) {
        connected := connected - {p};
        dials := dials - {d};
      } else {
        Adopt(d, p, t, Some(Reason(first, NoteOf(probe))));
      }
    }

    method Connect(t: Target, fellBack: bool, first: string, ghost d: nat) returns (p: Pool)
      modifies this`made, this`connected, this`nextPool
      ensures p == old(nextPool) && View() == Create(old(View()), t, fellBack, first, d)
    {
      p := nextPool;
      made := made[p := Made(t, fellBack, first, d)];
      connected := connected + {p};
      nextPool := nextPool + 1;
    }

    /** The end of `getPool`: catalog information, cache entry, and a retirement timer if there is a reason for one. */
    method Adopt(d: nat, p: Pool, t: Target, reason: Option<Reason>)
      modifies this`pools, this`poolCatalogInfo, this`timers, this`cachedAt, this`dials
      ensures View() == Finish(cfg, old(View()), d, p, t, reason)
    {
      var db := cfg.database(t.instance);
      poolCatalogInfo := poolCatalogInfo[p := Catalog(db, if reason.Some? then cfg.fallbackDb else db, reason)];
      pools := pools[Key(t) := p];
      if Truthy(reason) {
        timers := timers[p := Timer(Key(t), now + cfg.ttl)];
      }
      cachedAt := cachedAt[p := now];
      dials := dials - {d};
    }

    /** The error listener, with the key it was attached under. */
    method OnError(key: string, p: Pool)
      requires p in made && key == Key(made[p].target)
      modifies this
      ensures View() == Step(cfg, old(View()), PoolError(p))
    {
      if key in pools && pools[key] == p {
        pools := pools - {key};
      }
    }

    method OnRetirement(p: Pool)
      requires Enabled(cfg, View(), Fire(p))
      modifies this
      ensures View() == Step(cfg, old(View()), Fire(p))
    {
      var key := timers[p].key;
      timers := timers - {p};
      if key !in pools || pools[key] != p {
        return;
      }
      pools := pools - {key};
    }

    /** A query returns: its warning is the catalog information of the pool it ran on. */
    method OnQueryEnd(q: nat) returns (warned: bool)
      requires Enabled(cfg, View(), EndQuery(q))
      modifies this
      ensures View() == Step(cfg, old(View()), EndQuery(q))
      ensures results == old(results) + [QueryResult(old(running)[q], warned)]
    {
      var p := running[q];
      warned := p in poolCatalogInfo && Truthy(poolCatalogInfo[p].reason);
      running := running - {q};
      results := results + [QueryResult(p, warned)];
    }
  }

  // ── Invariants ──

  /** The catalog information of a pool that has been handed out says how it was dialled. */
  predicate TrueInfo(cfg: Config, m: Made, cat: Catalog) {
    && cat.configured == cfg.database(m.target.instance)
    && cat.actual == (if m.fellBack then cfg.fallbackDb else cat.configured)
    && (cat.reason.Some? <==> m.fellBack)
    && (m.fellBack ==> cat.reason.value.first == m.first && (cat.reason.value.note == Raw <==> m.first == ""))
  }

  /** A warning is due, in the code's terms: the fallback fired and the first failure had a message. */
  predicate Noticeable(m: Made) {
    m.fellBack && m.first != ""
  }

  predicate InfoTrue(cfg: Config, st: State) {
    forall p :: p in st.cache.info ==> p in st.made && p in st.cachedAt && TrueInfo(cfg, st.made[p], st.cache.info[p])
  }

  predicate CacheTrue(st: State) {
    forall k :: k in st.cache.pools ==>
      st.cache.pools[k] in st.cache.info && st.cache.pools[k] in st.made && Key(st.made[st.cache.pools[k]].target) == k
  }

  predicate TimerTrue(cfg: Config, st: State, p: Pool)
    requires p in st.cache.timers
  {
    && p in st.cache.info && p in st.made && p in st.cachedAt && Noticeable(st.made[p])
    && st.cache.timers[p] == Timer(Key(st.made[p].target), st.cachedAt[p] + cfg.ttl)
    && st.now <= st.cachedAt[p] + cfg.ttl
  }

  predicate TimersTrue(cfg: Config, st: State) {
    && (forall p :: p in st.cache.timers ==> TimerTrue(cfg, st, p))
    && (forall k :: k in st.cache.pools ==>
          && st.cache.pools[k] in st.made
          && (Noticeable(st.made[st.cache.pools[k]]) ==> st.cache.pools[k] in st.cache.timers))
  }

  predicate DialsTrue(cfg: Config, st: State) {
    && (forall d :: d in st.dials ==> d < st.nextDial && Calls(cfg, st.dials[d].target))
    && (forall d :: d in st.dials && st.dials[d].stage.Probing? ==> ProbeTrue(st, st.dials[d]))
    && (forall c, d ::
          c in st.dials && d in st.dials && c != d && st.dials[c].stage.Probing? && st.dials[d].stage.Probing? ==>
            st.dials[c].stage.pool != st.dials[d].stage.pool)
  }

  predicate ProbeTrue(st: State, d: Dial)
    requires d.stage.Probing?
  {
    && d.stage.first != "" && d.stage.pool in st.made && d.stage.pool !in st.cache.info
    && st.made[d.stage.pool] == Made(d.target, true, d.stage.first, st.made[d.stage.pool].dial)
  }

  predicate MadeTrue(cfg: Config, st: State) {
    forall p :: p in st.made ==> p < st.nextPool && Calls(cfg, st.made[p].target)
  }

  predicate QueriesTrue(st: State) {
    && (forall q :: q in st.running ==> st.running[q] in st.cache.info)
    && (forall i :: 0 <= i < |st.results| ==>
          st.results[i].pool in st.made && (st.results[i].warned <==> Noticeable(st.made[st.results[i].pool])))
  }

  predicate Inv(cfg: Config, st: State) {
    InfoTrue(cfg, st) && CacheTrue(st) && TimersTrue(cfg, st) && DialsTrue(cfg, st) && MadeTrue(cfg, st)
      && QueriesTrue(st)
  }

  // ── Preservation ──

  lemma CreateKeeps(cfg: Config, st: State, t: Target, fellBack: bool, first: string, d: nat)
    requires Inv(cfg, st) && Calls(cfg, t)
    ensures Inv(cfg, Create(st, t, fellBack, first, d))
    ensures st.nextPool !in st.made && st.nextPool !in st.cache.info
    ensures forall d :: d in st.dials && st.dials[d].stage.Probing? ==> st.dials[d].stage.pool != st.nextPool
  {
    var st' := Create(st, t, fellBack, first, d);
    assert st.nextPool !in st.made;
    CreateKeepsTimers(cfg, st, t, fellBack, first, d);
    hide TimersTrue, Key;
    forall d | d in st'.dials && st'.dials[d].stage.Probing? ensures ProbeTrue(st', st'.dials[d]) {
      assert ProbeTrue(st, st.dials[d]);
    }
  }

  lemma CreateKeepsTimers(cfg: Config, st: State, t: Target, fellBack: bool, first: string, d: nat)
    requires TimersTrue(cfg, st) && st.nextPool !in st.made
    ensures TimersTrue(cfg, Create(st, t, fellBack, first, d))
  {
    var st' := Create(st, t, fellBack, first, d);
    forall p | p in st'.cache.timers ensures TimerTrue(cfg, st', p) { assert TimerTrue(cfg, st, p); }
  }

  /** What a finishing dial must know about its pool. */
  predicate Finishable(cfg: Config, st: State, d: nat, p: Pool, t: Target, reason: Option<Reason>) {
    && d in st.dials && p in st.made && p !in st.cache.info && st.made[p].target == t
    && (reason.Some? <==> st.made[p].fellBack)
    && (reason.Some? ==> reason.value.first == st.made[p].first)
    && (reason.Some? ==> (reason.value.note == Raw <==> st.made[p].first == ""))
    && forall c :: c in st.dials && c != d && st.dials[c].stage.Probing? ==> st.dials[c].stage.pool != p
  }

  lemma FinishKeepsInfo(cfg: Config, st: State, d: nat, p: Pool, t: Target, reason: Option<Reason>)
    requires Inv(cfg, st) && Finishable(cfg, st, d, p, t, reason)
    ensures var st' := Finish(cfg, st, d, p, t, reason); InfoTrue(cfg, st') && CacheTrue(st') && QueriesTrue(st')
  {
  }

  lemma FinishKeepsTimers(cfg: Config, st: State, d: nat, p: Pool, t: Target, reason: Option<Reason>)
    requires Inv(cfg, st) && Finishable(cfg, st, d, p, t, reason) && cfg.ttl >= 0
    ensures TimersTrue(cfg, Finish(cfg, st, d, p, t, reason))
  {
    var st' := Finish(cfg, st, d, p, t, reason);
    assert Truthy(reason) <==> Noticeable(st.made[p]);
    forall q | q in st'.cache.timers ensures TimerTrue(cfg, st', q) {
      if q != p { assert TimerTrue(cfg, st, q); }
    }
  }

  lemma FinishKeepsDials(cfg: Config, st: State, d: nat, p: Pool, t: Target, reason: Option<Reason>)
    requires Inv(cfg, st) && Finishable(cfg, st, d, p, t, reason)
    ensures var st' := Finish(cfg, st, d, p, t, reason); DialsTrue(cfg, st') && MadeTrue(cfg, st')
  {
    var st' := Finish(cfg, st, d, p, t, reason);
    forall c | c in st'.dials && st'.dials[c].stage.Probing? ensures ProbeTrue(st', st'.dials[c]) {
      assert ProbeTrue(st, st.dials[c]);
    }
  }

  lemma FinishKeeps(cfg: Config, st: State, d: nat, p: Pool, t: Target, reason: Option<Reason>)
    requires Inv(cfg, st) && Finishable(cfg, st, d, p, t, reason) && cfg.ttl >= 0
    ensures Inv(cfg, Finish(cfg, st, d, p, t, reason))
  {
    FinishKeepsInfo(cfg, st, d, p, t, reason);
    FinishKeepsTimers(cfg, st, d, p, t, reason);
    FinishKeepsDials(cfg, st, d, p, t, reason);
  }

  /** A dial moves on to its next stage, or away. */
  lemma StageKeeps(cfg: Config, st: State, st': State)
    requires Inv(cfg, st) && st' == st.(dials := st'.dials, nextDial := st'.nextDial, connected := st'.connected)
    requires DialsTrue(cfg, st')
    ensures Inv(cfg, st')
  {
    forall p | p in st'.cache.timers ensures TimerTrue(cfg, st', p) { assert TimerTrue(cfg, st, p); }
  }

  /** What the dials need to know does not change with the map or the timers. */
  lemma DialsStay(cfg: Config, st: State, st': State)
    requires DialsTrue(cfg, st) && st'.dials == st.dials && st'.nextDial == st.nextDial && st'.made == st.made
    requires st'.cache.info == st.cache.info
    ensures DialsTrue(cfg, st')
  {
    forall d | d in st'.dials && st'.dials[d].stage.Probing? ensures ProbeTrue(st', st'.dials[d]) {
      assert ProbeTrue(st, st.dials[d]);
    }
  }

  lemma EvictKeepsTimers(cfg: Config, st: State, key: string, p: Pool)
    requires TimersTrue(cfg, st)
    ensures TimersTrue(cfg, st.(cache := Evict(st.cache, key, p)))
  {
    var st' := st.(cache := Evict(st.cache, key, p));
    forall q | q in st'.cache.timers ensures TimerTrue(cfg, st', q) { assert TimerTrue(cfg, st, q); }
  }

  lemma EvictKeeps(cfg: Config, st: State, key: string, p: Pool)
    requires Inv(cfg, st)
    ensures Inv(cfg, st.(cache := Evict(st.cache, key, p)))
  {
    EvictKeepsTimers(cfg, st, key, p);
    DialsStay(cfg, st, st.(cache := Evict(st.cache, key, p)));
    hide TimersTrue, DialsTrue;
  }

  lemma RetireKeepsTimers(cfg: Config, st: State, p: Pool)
    requires TimersTrue(cfg, st) && CacheTrue(st) && p in st.cache.timers
    ensures TimersTrue(cfg, st.(cache := Retire(st.cache, p)))
  {
    var st' := st.(cache := Retire(st.cache, p));
    assert TimerTrue(cfg, st, p);
    hide Key;
    forall q | q in st'.cache.timers ensures TimerTrue(cfg, st', q) { assert TimerTrue(cfg, st, q); }
  }

  lemma RetireKeeps(cfg: Config, st: State, p: Pool)
    requires Inv(cfg, st) && p in st.cache.timers
    ensures Inv(cfg, st.(cache := Retire(st.cache, p)))
  {
    RetireKeepsTimers(cfg, st, p);
    DialsStay(cfg, st, st.(cache := Retire(st.cache, p)));
    hide TimersTrue, DialsTrue;
  }

  lemma FirstOkKeeps(cfg: Config, st: State, d: nat)
    requires Inv(cfg, st) && Enabled(cfg, st, FirstOk(d)) && cfg.ttl >= 0
    ensures Inv(cfg, Step(cfg, st, FirstOk(d)))
  {
    var t := st.dials[d].target;
    CreateKeeps(cfg, st, t, false, "", d);
    hide Inv;
    FinishKeeps(cfg, Create(st, t, false, "", d), d, st.nextPool, t, None);
  }

  lemma SecondOkKeeps(cfg: Config, st: State, d: nat)
    requires Inv(cfg, st) && Enabled(cfg, st, SecondOk(d)) && cfg.ttl >= 0
    ensures Inv(cfg, Step(cfg, st, SecondOk(d)))
  {
    var t, first := st.dials[d].target, st.dials[d].stage.first;
    CreateKeeps(cfg, st, t, true, first, d);
    if first == "" {
      hide Inv;
      FinishKeeps(cfg, Create(st, t, true, first, d), d, st.nextPool, t, Some(Reason(first, Raw)));
    } else {
      GoesProbing(cfg, st, d);
    }
  }

  lemma GoesProbing(cfg: Config, st: State, d: nat)
    requires Inv(cfg, st) && Enabled(cfg, st, SecondOk(d)) && st.dials[d].stage.first != ""
    ensures Inv(cfg, Step(cfg, st, SecondOk(d)))
  {
    var first := st.dials[d].stage.first;
    var created, st' := Create(st, st.dials[d].target, true, first, d), Step(cfg, st, SecondOk(d));
    CreateKeeps(cfg, st, st.dials[d].target, true, first, d);
    hide InfoTrue, CacheTrue, TimersTrue, QueriesTrue;
    forall c | c in st'.dials && st'.dials[c].stage.Probing? ensures ProbeTrue(st', st'.dials[c]) {
      if c != d { assert ProbeTrue(created, created.dials[c]); }
    }
    StageKeeps(cfg, created, st');
  }

  lemma ProbedKeeps(cfg: Config, st: State, d: nat, probe: Probe)
    requires Inv(cfg, st) && Enabled(cfg, st, Probed(d, probe)) && cfg.ttl >= 0
    ensures Inv(cfg, Step(cfg, st, Probed(d, probe)))
  {
    assert ProbeTrue(st, st.dials[d]);
    if probe == NoRow(true) {
      FewerDialsKeep(cfg, st, d, st.connected - {st.dials[d].stage.pool});
    } else {
      var first := st.dials[d].stage.first;
      hide InfoTrue, CacheTrue, TimersTrue, QueriesTrue, MadeTrue;
      FinishKeeps(cfg, st, d, st.dials[d].stage.pool, st.dials[d].target, Some(Reason(first, NoteOf(probe))));
    }
  }

  lemma FewerDialsKeep(cfg: Config, st: State, d: nat, connected: set<Pool>)
    requires Inv(cfg, st)
    ensures Inv(cfg, st.(dials := st.dials - {d}, connected := connected))
  {
    hide InfoTrue, CacheTrue, TimersTrue, QueriesTrue, MadeTrue;
    var st' := st.(dials := st.dials - {d}, connected := connected);
    forall c | c in st'.dials && st'.dials[c].stage.Probing? ensures ProbeTrue(st', st'.dials[c]) {
      assert ProbeTrue(st, st.dials[c]);
    }
    StageKeeps(cfg, st, st');
  }

  /** Beginning a dial, or its going on to the fallback, registers nothing yet. */
  lemma DialKeeps(cfg: Config, st: State, e: Event)
    requires Inv(cfg, st) && Enabled(cfg, st, e) && (e.Get? || e.FirstFailed?)
    ensures Inv(cfg, Step(cfg, st, e))
  {
    hide InfoTrue, CacheTrue, TimersTrue, QueriesTrue, MadeTrue;
    var st' := Step(cfg, st, e);
    forall c | c in st'.dials && st'.dials[c].stage.Probing? ensures ProbeTrue(st', st'.dials[c]) {
      assert ProbeTrue(st, st.dials[c]);
    }
    StageKeeps(cfg, st, st');
  }

  lemma DisconnectKeeps(cfg: Config, st: State, connected: set<Pool>)
    requires Inv(cfg, st)
    ensures Inv(cfg, st.(connected := connected))
  {
    hide InfoTrue, CacheTrue, TimersTrue, QueriesTrue, MadeTrue;
    var st' := st.(connected := connected);
    DialsStay(cfg, st, st');
    StageKeeps(cfg, st, st');
  }

  /** Nothing the cache or the dials depend on has changed. */
  lemma QuietKeeps(cfg: Config, st: State, st': State)
    requires Inv(cfg, st) && st' == st.(now := st'.now, running := st'.running, results := st'.results)
    requires QueriesTrue(st') && forall p :: p in st.cache.timers ==> st'.now <= st.cache.timers[p].fireAt
    ensures Inv(cfg, st')
  {
    forall p | p in st'.cache.timers ensures TimerTrue(cfg, st', p) { assert TimerTrue(cfg, st, p); }
    DialsStay(cfg, st, st');
    hide DialsTrue;
  }

  lemma QueryStepKeeps(cfg: Config, st: State, e: Event)
    requires Inv(cfg, st) && Enabled(cfg, st, e) && (e.StartQuery? || e.EndQuery? || e.Tick?)
    ensures Inv(cfg, Step(cfg, st, e))
  {
    forall p | p in st.cache.timers ensures st.now <= st.cache.timers[p].fireAt { assert TimerTrue(cfg, st, p); }
    if e.EndQuery? {
      var p := st.running[e.query];
      assert TrueInfo(cfg, st.made[p], st.cache.info[p]);
      assert Truthy(st.cache.info[p].reason) <==> Noticeable(st.made[p]);
    }
    QuietKeeps(cfg, st, Step(cfg, st, e));
  }

  lemma StepKeeps(cfg: Config, st: State, e: Event)
    requires Inv(cfg, st) && cfg.ttl >= 0
    ensures Inv(cfg, Step(cfg, st, e))
  {
    hide Inv, Finish, Create, Key, Evict, Retire;
    if Enabled(cfg, st, e) {
      match e
      case Get(_) => DialKeeps(cfg, st, e);
      case FirstOk(d) => FirstOkKeeps(cfg, st, d);
      case FirstFailed(_, _, _) => DialKeeps(cfg, st, e);
      case SecondOk(d) => SecondOkKeeps(cfg, st, d);
      case SecondFailed(d) => FewerDialsKeep(cfg, st, d, st.connected);
      case Probed(d, probe) => ProbedKeeps(cfg, st, d, probe);
      case PoolError(p) => EvictKeeps(cfg, st, Key(st.made[p].target), p);
      case Disconnect(p) => DisconnectKeeps(cfg, st, st.connected - {p});
      case Fire(p) => RetireKeeps(cfg, st, p);
      case Tick(_) => QueryStepKeeps(cfg, st, e);
      case StartQuery(_, _) => QueryStepKeeps(cfg, st, e);
      case EndQuery(_) => QueryStepKeeps(cfg, st, e);
    }
  }

  lemma {:induction false} Reachable(cfg: Config, evs: seq<Event>)
    requires cfg.ttl >= 0
    ensures Inv(cfg, Run(cfg, INITIAL, evs))
  {
    if evs != [] {
      Reachable(cfg, evs[..|evs| - 1]);
      StepKeeps(cfg, Run(cfg, INITIAL, evs[..|evs| - 1]), evs[|evs| - 1]);
    }
  }

  // ── Keys ──

  function Tail(t: Target): string {
    if t.write then t.instance + "#rw" else t.instance
  }

  /** What follows the identity in the keys of a fleet. */
  function Tails(fleet: set<string>): set<string> {
    fleet + set name | name in fleet :: name + "#rw"
  }

  predicate InFleet(fleet: set<string>, t: Target) {
    t.instance in fleet && t.identity != ""
  }

  /** A call the program is really given. */
  predicate Calls(cfg: Config, t: Target) {
    InFleet(cfg.fleet, t) && cfg.uses(t)
  }

  /** Equal but possibly for the secret, which is no part of a key. */
  predicate Alike(a: Target, b: Target) {
    a.identity == b.identity && a.instance == b.instance && a.write == b.write
  }

  /** Every identity, instance and intent has a key of its own. */
  ghost predicate KeysTellApart(fleet: set<string>) {
    forall a, b :: InFleet(fleet, a) && InFleet(fleet, b) && Key(a) == Key(b) ==> Alike(a, b)
  }

  predicate WriteTailsFree(fleet: set<string>) {
    forall x, y :: x in fleet && y in fleet ==> y != x + "#rw"
  }

  /** `y` is `x` behind something an identity can end in together with the separator. */
  predicate Hides(y: string, x: string) {
    y == ":" + x || EndsWith(y, "::" + x)
  }

  predicate NamesTellApart(fleet: set<string>) {
    WriteTailsFree(fleet) && forall x, y :: x in Tails(fleet) && y in Tails(fleet) ==> !Hides(y, x)
  }

  lemma TailInTails(fleet: set<string>, t: Target)
    requires t.instance in fleet
    ensures Tail(t) in Tails(fleet) && Key(t) == t.identity + ("::" + Tail(t))
  {
    assert t.identity + "::" + Tail(t) == t.identity + ("::" + Tail(t));
  }

  lemma TailIsSomeones(fleet: set<string>, x: string) returns (t: Target)
    requires x in Tails(fleet)
    ensures t.instance in fleet && Tail(t) == x && t.identity == "u"
  {
    if x in fleet {
      t := Target("u", "", x, false);
    } else {
      var name :| name in fleet && name + "#rw" == x;
      t := Target("u", "", name, true);
    }
  }

  lemma SameTail(fleet: set<string>, a: Target, b: Target)
    requires WriteTailsFree(fleet) && a.instance in fleet && b.instance in fleet && Tail(a) == Tail(b)
    ensures a.instance == b.instance && a.write == b.write
  {
    if a.write && b.write {
      assert Tail(a)[..|Tail(a)| - 3] == a.instance && Tail(b)[..|Tail(b)| - 3] == b.instance;
    }
  }

  /** Two ways to read one key: the longer tail hides the shorter one. */
  lemma TwoReadings(a: string, x: string, b: string, y: string)
    requires a + ("::" + y) == b + ("::" + x) && |a| < |b|
    ensures Hides(y, x)
  {
    var k := a + ("::" + y);
    var w := b[|a|..];
    assert k[..|a|] == a && k[|a|..] == "::" + y;
    assert k[..|b|] == b && k[|b|..] == "::" + x;
    assert b == a + w;
    assert k[|a|..] == w + ("::" + x);
    if |w| == 1 {
      assert (w + ("::" + x))[1..] == "::" + x;
      assert ("::" + y)[1..] == ":" + y;
      assert (":" + y)[1..] == y && ("::" + x)[1..] == ":" + x;
    } else {
      assert (w + ("::" + x))[2..] == w[2..] + ("::" + x);
      assert ("::" + y)[2..] == y;
      assert y[|y| - |"::" + x|..] == "::" + x;
    }
  }

  lemma ApartIfNamesAre(fleet: set<string>, a: Target, b: Target)
    requires NamesTellApart(fleet) && InFleet(fleet, a) && InFleet(fleet, b) && Key(a) == Key(b)
    ensures Alike(a, b)
  {
    TailInTails(fleet, a);
    TailInTails(fleet, b);
    if |a.identity| < |b.identity| {
      TwoReadings(a.identity, Tail(b), b.identity, Tail(a));
    } else if |b.identity| < |a.identity| {
      TwoReadings(b.identity, Tail(a), a.identity, Tail(b));
    } else {
      var k := Key(a);
      assert k[..|a.identity|] == a.identity && k[|a.identity|..] == "::" + Tail(a);
      assert k[..|b.identity|] == b.identity && k[|b.identity|..] == "::" + Tail(b);
      assert ("::" + Tail(a))[2..] == Tail(a) && ("::" + Tail(b))[2..] == Tail(b);
      SameTail(fleet, a, b);
    }
  }

  /** A hidden tail has two readings behind some identities. */
  lemma HiddenReads(x: string, y: string) returns (u: string)
    requires Hides(y, x)
    ensures "u" + ("::" + y) == u + ("::" + x) && |u| > 1
  {
    if y == ":" + x {
      u := "u:";
    } else {
      var w := y[..|y| - |"::" + x|];
      u := "u::" + w;
      assert y == w + ("::" + x);
    }
  }

  /** A hidden tail gives two identities one key. */
  lemma HiddenCollides(fleet: set<string>, x: string, y: string) returns (a: Target, b: Target)
    requires x in Tails(fleet) && y in Tails(fleet) && Hides(y, x)
    ensures InFleet(fleet, a) && InFleet(fleet, b) && Key(a) == Key(b) && !Alike(a, b)
  {
    a := TailIsSomeones(fleet, y);
    b := TailIsSomeones(fleet, x);
    var u := HiddenReads(x, y);
    b := b.(identity := u);
    TailInTails(fleet, a);
    TailInTails(fleet, b);
    hide Key, Hides, Tails;
  }

  lemma WriteTailCollides(x: string)
    ensures Key(Target("u", "", x + "#rw", false)) == Key(Target("u", "", x, true))
  {
  }

  /** Exactly when the keys of a fleet tell all its targets apart, whatever the identities are called. */
  lemma KeysTellApartExactly(fleet: set<string>)
    ensures KeysTellApart(fleet) <==> NamesTellApart(fleet)
  {
    if NamesTellApart(fleet) {
      forall a, b | InFleet(fleet, a) && InFleet(fleet, b) && Key(a) == Key(b) ensures Alike(a, b) {
        ApartIfNamesAre(fleet, a, b);
      }
    } else if !WriteTailsFree(fleet) {
      var x, y :| x in fleet && y in fleet && y == x + "#rw";
      WriteTailCollides(x);
      assert InFleet(fleet, Target("u", "", y, false)) && InFleet(fleet, Target("u", "", x, true));
    } else {
      var x, y :| x in Tails(fleet) && y in Tails(fleet) && Hides(y, x);
      var a, b := HiddenCollides(fleet, x, y);
    }
  }

  // ── What holds of every run ──

  /** In every run, a pool found under a target's key was dialled for that target, with its own secret. */
  ghost predicate FoundAsDialled(cfg: Config) {
    forall evs, t :: Calls(cfg, t) && Key(t) in Run(cfg, INITIAL, evs).cache.pools ==> DialledFor(cfg, evs, t)
  }

  predicate DialledFor(cfg: Config, evs: seq<Event>, t: Target)
    requires Key(t) in Run(cfg, INITIAL, evs).cache.pools
  {
    var st := Run(cfg, INITIAL, evs);
    var p := st.cache.pools[Key(t)];
    p in st.made && st.made[p].target == t
  }

  /** Of the calls the program is given, no two different ones share a key. */
  ghost predicate CallsTellApart(cfg: Config) {
    forall a, b :: Calls(cfg, a) && Calls(cfg, b) && Key(a) == Key(b) ==> a == b
  }

  /** Every pool found was dialled with the caller's own credentials exactly when no two different calls share a key. */
  lemma OwnCredentialsExactly(cfg: Config)
    requires cfg.ttl >= 0
    ensures FoundAsDialled(cfg) <==> CallsTellApart(cfg)
  {
    if CallsTellApart(cfg) {
      forall evs, t | Calls(cfg, t) && Key(t) in Run(cfg, INITIAL, evs).cache.pools ensures DialledFor(cfg, evs, t) {
        Reachable(cfg, evs);
      }
    } else {
      var a, b :| Calls(cfg, a) && Calls(cfg, b) && Key(a) == Key(b) && a != b;
      FoundByAnother(cfg, a, b);
    }
  }

  /**
   * With one secret for each identity: a cached pool was dialled for the identity, instance and intent it is found
   * under, and with the caller's secret, exactly when the fleet's names allow it.
   */
  lemma CachedForItsKeyExactly(cfg: Config, secret: string -> string)
    requires cfg.ttl >= 0 && forall t :: cfg.uses(t) <==> t.secret == secret(t.identity)
    ensures FoundAsDialled(cfg) <==> NamesTellApart(cfg.fleet)
  {
    OwnCredentialsExactly(cfg);
    KeysTellApartExactly(cfg.fleet);
    if !NamesTellApart(cfg.fleet) {
      var a, b :| InFleet(cfg.fleet, a) && InFleet(cfg.fleet, b) && Key(a) == Key(b) && !Alike(a, b);
      var c, d := a.(secret := secret(a.identity)), b.(secret := secret(b.identity));
      assert Calls(cfg, c) && Calls(cfg, d) && Key(c) == Key(d);
    }
  }

  /** With two secrets in use for one identity it never holds: the pool dialled with the first serves the second. */
  lemma SecondSecretIsServed(cfg: Config, t: Target, secret: string)
    requires cfg.ttl >= 0 && Calls(cfg, t) && Calls(cfg, t.(secret := secret)) && secret != t.secret
    ensures !FoundAsDialled(cfg)
    ensures var st := Run(cfg, INITIAL, [Get(t)] + [FirstOk(0)]); Step(cfg, st, Get(t.(secret := secret))) == st
  {
    OwnCredentialsExactly(cfg);
    RunSnoc(cfg, [], Get(t));
    RunSnoc(cfg, [Get(t)], FirstOk(0));
    assert [] + [Get(t)] == [Get(t)];
    assert Run(cfg, INITIAL, [Get(t)]) == Dialling(t, FirstTry);
    FirstConnects(cfg, t);
  }

  /** Two calls with one key: the pool dialled for the first is handed to the second. */
  lemma FoundByAnother(cfg: Config, a: Target, b: Target)
    requires Calls(cfg, a) && Calls(cfg, b) && Key(a) == Key(b) && a != b
    ensures !FoundAsDialled(cfg)
  {
    var evs := [] + [Get(a)];
    RunSnoc(cfg, [], Get(a));
    RunSnoc(cfg, evs, FirstOk(0));
    assert Run(cfg, INITIAL, evs) == Dialling(a, FirstTry);
    FirstConnects(cfg, a);
    assert Key(b) in Run(cfg, INITIAL, evs + [FirstOk(0)]).cache.pools;
    assert !DialledFor(cfg, evs + [FirstOk(0)], b);
  }

  lemma FirstConnects(cfg: Config, t: Target)
    ensures var st := Step(cfg, Dialling(t, FirstTry), FirstOk(0));
            && Key(t) in st.cache.pools && st.cache.pools[Key(t)] in st.connected
            && st.cache.pools[Key(t)] in st.made && st.made[st.cache.pools[Key(t)]].target == t
  {
  }

  /** An error or a retirement removes at most the entry of its own pool, and adds nothing. */
  lemma RemovesOnlyItsOwn(cfg: Config, st: State, e: Event, k: string)
    requires e.PoolError? || e.Fire?
    ensures var after := Step(cfg, st, e).cache.pools;
            && (k in after ==> k in st.cache.pools && after[k] == st.cache.pools[k])
            && (k in st.cache.pools && st.cache.pools[k] != e.pool ==> k in after)
  {
  }

  /** ... and whichever key its pool is cached under, that entry does go. */
  lemma RemovesItsOwn(cfg: Config, evs: seq<Event>, e: Event, k: string)
    requires cfg.ttl >= 0 && (e.PoolError? || e.Fire?) && Enabled(cfg, Run(cfg, INITIAL, evs), e)
    ensures var after := Step(cfg, Run(cfg, INITIAL, evs), e).cache.pools;
            k in after ==> after[k] != e.pool
  {
    Reachable(cfg, evs);
    var st := Run(cfg, INITIAL, evs);
    if e.Fire? { assert TimerTrue(cfg, st, e.pool); }
  }

  /**
   * A cached pool has an unfired retirement timer iff it fell back after a failure that had a message,
   * and then it is never cached past its time to live.
   */
  lemma {:induction false} RetiredInTime(cfg: Config, evs: seq<Event>, k: string)
    requires cfg.ttl >= 0 && k in Run(cfg, INITIAL, evs).cache.pools
    ensures var st := Run(cfg, INITIAL, evs); var p := st.cache.pools[k];
            && p in st.made && p in st.cachedAt
            && (p in st.cache.timers <==> st.made[p].fellBack && st.made[p].first != "")
            && (p in st.cache.timers ==>
                  st.now <= st.cachedAt[p] + cfg.ttl && st.cache.timers[p] == Timer(k, st.cachedAt[p] + cfg.ttl))
  {
    Reachable(cfg, evs);
    var st := Run(cfg, INITIAL, evs);
    var p := st.cache.pools[k];
    if p in st.cache.timers { assert TimerTrue(cfg, st, p); }
  }

  lemma RunSnoc(cfg: Config, evs: seq<Event>, e: Event)
    ensures Run(cfg, INITIAL, evs + [e]) == Step(cfg, Run(cfg, INITIAL, evs), e)
  {
    assert (evs + [e])[..|evs|] == evs;
  }

  /** The state after the fallback was dialled because of a first failure with an empty message. */
  function Unannounced(cfg: Config, t: Target): State {
    var cat := Catalog(cfg.database(t.instance), cfg.fallbackDb, Some(Reason("", Raw)));
    State(Cache(map[Key(t) := 0], map[0 := cat], map[]), 0, map[], 1, map[0 := Made(t, true, "", 0)], 1, {0},
          map[0 := 0], map[], [])
  }

  function Dialling(t: Target, stage: Stage): State {
    INITIAL.(dials := map[0 := Dial(t, stage)], nextDial := 1)
  }

  // ── Which failures fall back ──

  const CATALOG_UNAVAILABLE_ERRORS: set<int> := {905, 911, 926, 927, 942, 945, 4060, 18456}

  /** A listed number among those of the error, or, failing that, a message that `says` so. */
  ghost predicate IsCatalogUnavailable(g: SqlErrors.Graph, e: SqlErrors.Ref, message: string, says: string -> bool)
    requires SqlErrors.Closed(g) && e in g
  {
    (exists n :: n in SqlErrors.Numbers(g, SqlErrors.Visit(g, Some(e), 0, [])) && n in CATALOG_UNAVAILABLE_ERRORS)
      || says(message)
  }

  /** An error object with a number and nothing else. */
  function Bare(n: int): (g: SqlErrors.Graph)
    ensures SqlErrors.Closed(g)
  {
    map[0 := SqlErrors.Node(Some(n), None, None, [])]
  }

  /** A lone error falls back iff its number is one of these, or its message says so. */
  lemma BareFallsBack(n: int, message: string, says: string -> bool)
    ensures IsCatalogUnavailable(Bare(n), 0, message, says)
       <==> n in {905, 911, 926, 927, 942, 945, 4060, 18456} || says(message)
  {
    var g := Bare(n);
    var kids := SqlErrors.Kids(g[0]);
    var order := SqlErrors.Visit(g, Some(0), 0, []);
    assert kids == [None, None];
    var last: seq<Option<SqlErrors.Ref>> := kids[1..];
    var end: seq<Option<SqlErrors.Ref>> := last[1..];
    assert last == [None] && end == [];
    var none: seq<SqlErrors.Ref> := [];
    assert none + [0] == [0];
    assert SqlErrors.VisitAll(g, last, 1, [0]) == SqlErrors.VisitAll(g, end, 1, [0]) == [0];
    assert SqlErrors.VisitAll(g, kids, 1, [0]) == [0];
    assert order == [0];
    forall m: int ensures m in SqlErrors.Numbers(g, order) <==> m == n {
      SqlErrors.NumbersFrom(g, order, m);
      assert SqlErrors.HasNumber(g, 0, m) <==> m == n;
    }
  }

  lemma FirstDial(cfg: Config, t: Target)
    requires cfg.enabled && Calls(cfg, t) && !cfg.same(cfg.database(t.instance), cfg.fallbackDb)
    ensures Step(cfg, INITIAL, Get(t)) == Dialling(t, FirstTry)
    ensures Step(cfg, Dialling(t, FirstTry), FirstFailed(0, "", true)) == Dialling(t, SecondTry(""))
  {
  }

  lemma SecondDial(cfg: Config, t: Target)
    ensures Step(cfg, Dialling(t, SecondTry("")), SecondOk(0)) == Unannounced(cfg, t)
  {
    var st' := Step(cfg, Dialling(t, SecondTry("")), SecondOk(0));
    assert st'.dials == map[];
  }

  lemma ReachesUnannounced(cfg: Config, t: Target)
    requires cfg.enabled && Calls(cfg, t) && !cfg.same(cfg.database(t.instance), cfg.fallbackDb)
    ensures Run(cfg, INITIAL, [Get(t), FirstFailed(0, "", true), SecondOk(0)]) == Unannounced(cfg, t)
  {
    var a, b, c := Get(t), FirstFailed(0, "", true), SecondOk(0);
    FirstDial(cfg, t);
    SecondDial(cfg, t);
    RunSnoc(cfg, [], a);
    RunSnoc(cfg, [a], b);
    RunSnoc(cfg, [a, b], c);
    assert [] + [a] == [a] && [a] + [b] == [a, b] && [a, b] + [c] == [a, b, c];
  }

  /** The run that ends so: an error with a listed number and an empty message, a connect to the fallback, a query. */
  ghost function SilentFallback(t: Target, n: int, says: string -> bool): seq<Event>
    requires n in CATALOG_UNAVAILABLE_ERRORS
  {
    [Get(t), FirstFailed(0, "", IsCatalogUnavailable(Bare(n), 0, "", says)), SecondOk(0)]
  }

  lemma QueryUnannounced(cfg: Config, t: Target, later: int, evs: seq<Event>)
    requires Run(cfg, INITIAL, evs) == Unannounced(cfg, t) && later >= 0
    ensures var st := Run(cfg, INITIAL, evs + [Tick(later)] + [StartQuery(0, 0)] + [EndQuery(0)]);
            && st.now == later && Key(t) in st.cache.pools && st.cache.pools[Key(t)] in st.made
            && st.made[st.cache.pools[Key(t)]].fellBack && st.results == [QueryResult(st.cache.pools[Key(t)], false)]
  {
    RunSnoc(cfg, evs, Tick(later));
    var s1 := Unannounced(cfg, t).(now := later);
    assert Run(cfg, INITIAL, evs + [Tick(later)]) == s1;
    RunSnoc(cfg, evs + [Tick(later)], StartQuery(0, 0));
    var s2 := s1.(running := map[0 := 0]);
    assert Run(cfg, INITIAL, evs + [Tick(later)] + [StartQuery(0, 0)]) == s2;
    RunSnoc(cfg, evs + [Tick(later)] + [StartQuery(0, 0)], EndQuery(0));
  }

  /** The empty message is the one way out: its fallback pool stays cached, unannounced, for any length of time. */
  lemma EmptyMessageStays(cfg: Config, t: Target, n: int, says: string -> bool, later: int)
    requires cfg.enabled && Calls(cfg, t) && !cfg.same(cfg.database(t.instance), cfg.fallbackDb) && later >= 0
    requires n in CATALOG_UNAVAILABLE_ERRORS
    ensures var evs := SilentFallback(t, n, says) + [Tick(later)] + [StartQuery(0, 0)] + [EndQuery(0)];
            var st := Run(cfg, INITIAL, evs);
            && st.now == later && Key(t) in st.cache.pools && st.cache.pools[Key(t)] in st.made
            && st.made[st.cache.pools[Key(t)]].fellBack && st.results == [QueryResult(st.cache.pools[Key(t)], false)]
  {
    BareFallsBack(n, "", says);
    ReachesUnannounced(cfg, t);
    QueryUnannounced(cfg, t, later, SilentFallback(t, n, says));
  }

  /**
   * Every query result carries the warning iff the pool that ran it dialled the fallback catalog after a
   * failure with a message, whatever happened to that pool's cache entry in the meantime.
   */
  lemma WarningAgrees(cfg: Config, evs: seq<Event>, i: nat)
    requires cfg.ttl >= 0 && i < |Run(cfg, INITIAL, evs).results|
    ensures var st := Run(cfg, INITIAL, evs); var r := st.results[i];
            r.pool in st.made && (r.warned <==> st.made[r.pool].fellBack && st.made[r.pool].first != "")
  {
    Reachable(cfg, evs);
  }
}
