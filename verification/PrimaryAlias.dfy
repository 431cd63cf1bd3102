/** Resolving "<region>-primary" to the live primary, and the caches. */
module PrimaryAlias {
  import opened Text

  const SUFFIX := "-primary"
  const LISTENER := "-nlb"

  datatype Node = Node(name: string, region: Option<string>, isWitness: bool)

  predicate Candidate(n: Node, region: string) {
    n.region == Some(region) && !n.isWitness && !EndsWith(n.name, LISTENER) && !EndsWith(n.name, SUFFIX)
  }

  /** Real nodes of the region, in fleet order. */
  function Candidates(fleet: seq<Node>, region: string): seq<Node> {
    if fleet == [] then []
    else (if Candidate(fleet[0], region) then [fleet[0]] else []) + Candidates(fleet[1..], region)
  }

  lemma {:induction false} CandidatesAreNodes(fleet: seq<Node>, region: string)
    ensures forall n :: n in Candidates(fleet, region) <==> n in fleet && Candidate(n, region)
    ensures forall n :: n in Candidates(fleet, region) <==>
                          && n in fleet && n.region == Some(region) && !n.isWitness && !EndsWith(n.name, "-nlb")
                          && !EndsWith(n.name, "-primary")
  {
    if fleet != [] {
      CandidatesAreNodes(fleet[1..], region);
      assert fleet == [fleet[0]] + fleet[1..];
    }
  }

  // ── The recursion between getPool, resolveRegionPrimary and getServerName ──

  /** What one uninterrupted evaluation sees: which instances answer, what they say, and their server names. */
  datatype World = World(fleet: seq<Node>, dials: string -> bool, primary: string -> Option<string>,
                         serverName: string -> Option<string>, same: (string, string) -> bool)

  predicate Known(w: World, name: string) {
    exists i :: 0 <= i < |w.fleet| && w.fleet[i].name == name && !w.fleet[i].isWitness
  }

  predicate IsAlias(name: string) {
    EndsWith(name, SUFFIX)
  }

  /** The instance a pool is dialled for. A resolved alias is looked up like any other name. */
  function GetPool(w: World, name: string): Option<string>
    decreases if IsAlias(name) then 1 else 0, 2, 0
  {
    var target := if IsAlias(name) then ResolveRegionPrimary(w, name[..|name| - |SUFFIX|]) else Some(name);
    if target.Some? && Known(w, target.value) && w.dials(target.value) then target else None
  }

  /** Only asks candidates, none of which is an alias: so it never comes back here. */
  function ResolveRegionPrimary(w: World, region: string): Option<string>
    decreases 1, 1, 0
  {
    CandidatesAreNodes(w.fleet, region);
    AskFrom(w, Candidates(w.fleet, region), 0)
  }

  function AskFrom(w: World, cs: seq<Node>, k: nat): Option<string>
    requires k <= |cs| && forall c :: c in cs ==> !IsAlias(c.name)
    decreases 1, 0, |cs| - k
  {
    if k == |cs| then None
    else
      var via := GetPool(w, cs[k].name);
      var primary := if via.Some? then w.primary(via.value) else None;
      var found := if primary.Some? && primary.value != "" then MatchFrom(w, cs, primary.value, 0) else None;
      if found.Some? then found else AskFrom(w, cs, k + 1)
  }

  function MatchFrom(w: World, cs: seq<Node>, primary: string, j: nat): (r: Option<string>)
    requires j <= |cs| && forall c :: c in cs ==> !IsAlias(c.name)
    ensures r.Some? ==> exists i :: j <= i < |cs| && cs[i].name == r.value
    decreases 0, 4, |cs| - j
  {
    if j == |cs| then None
    else
      var sn := GetServerName(w, cs[j].name);
      if sn != "" && w.same(sn, primary) then Some(cs[j].name) else MatchFrom(w, cs, primary, j + 1)
  }

  /** "" when the instance cannot be asked. */
  function GetServerName(w: World, name: string): string
    requires !IsAlias(name)
    decreases 0, 3, 0
  {
    var pool := GetPool(w, name);
    if pool.None? then "" else match w.serverName(pool.value) case Some(s) => s case None => ""
  }

  lemma {:induction false} AskFromCandidates(w: World, cs: seq<Node>, k: nat)
    requires k <= |cs| && forall c :: c in cs ==> !IsAlias(c.name)
    ensures AskFrom(w, cs, k).Some? ==> exists i :: 0 <= i < |cs| && cs[i].name == AskFrom(w, cs, k).value
    decreases |cs| - k
  {
    if k < |cs| { AskFromCandidates(w, cs, k + 1); }
  }

  /** An alias only ever resolves to a real node of its region, and the pool dialled for it is that node's. */
  lemma AliasGoesToNode(w: World, region: string)
    ensures var r := GetPool(w, region + SUFFIX);
            r.Some? ==> r == ResolveRegionPrimary(w, region)
                        && exists n :: n in w.fleet && Candidate(n, region) && n.name == r.value
  {
    var name := region + SUFFIX;
    assert name[|name| - |SUFFIX|..] == SUFFIX && name[..|name| - |SUFFIX|] == region;
    CandidatesAreNodes(w.fleet, region);
    AskFromCandidates(w, Candidates(w.fleet, region), 0);
  }

  // ── The caches ──

  datatype Entry = Entry(instance: string, expiresAt: int)

  function Hit(cache: map<string, Entry>, region: string, now: int): Option<string> {
    if region in cache && cache[region].expiresAt > now then Some(cache[region].instance) else None
  }

  function Invalidated(cache: map<string, Entry>, region: Option<string>): map<string, Entry> {
    if region.Some? && region.value != "" then cache - {region.value} else map[]
  }

  /** A non-empty answer is written down, whatever was known before. */
  function Learned(names: map<string, string>, instance: string, name: string): map<string, string> {
    if name != "" then names[instance := name] else names
  }

  // ── Interleaved resolutions ──

  datatype Config = Config(fleet: seq<Node>, ttl: int, same: (string, string) -> bool)

  /**
   * A resolution between two awaits: waiting for the pool of candidate `k`, asking it for the AG primary since
   * `askedAt`, or matching the reported name against
   * candidate `j`, called `c`: `held` is what `getServerName(c)` has returned, None while it is still being awaited.
   */
  datatype Resolution =
    | Connecting(region: string, startedAt: int, k: nat)
    | Asking(region: string, startedAt: int, k: nat, askedAt: int)
    | Matching(region: string, startedAt: int, k: nat, primary: string, reportedAt: int, j: nat, c: string,
               held: Option<string>)

  /** What an AG said, and when the server read it. */
  datatype Report = Report(region: string, primary: string, at: int)

  /** Which report a cache entry rests on, and the span of the resolution that wrote it. */
  datatype Origin = Origin(report: Report, startedAt: int, writtenAt: int)

  datatype Answer = Answer(region: string, instance: string, at: int, isNew: bool, origin: Origin)

  datatype State = State(
    now: int, cache: map<string, Entry>, names: map<string, string>, flying: map<nat, Resolution>, next: nat,
    reports: set<Report>, told: set<(string, string)>, origins: map<string, Origin>, answers: seq<Answer>)

  const INITIAL := State(0, map[], map[], map[], 0, {}, {}, map[], [])

  /**
   * `Asked` is the answer of an availability group, read on the server at some time since it was asked, and `Named`
   * the answer to an awaited server name ("" for a failure); `Judge` is the resolution going on with the
   * name it holds. Between the two, and between the look into the name cache and either, anything else may run.
   */
  datatype Event =
    | Resolve(region: string)
    | Connected(run: nat)
    | AskFailed(run: nat)
    | Asked(run: nat, primary: string, at: int)
    | Named(run: nat, answer: string)
    | Judge(run: nat)
    | Invalidate(which: Option<string>)
    | Tick(to: int)

  predicate Enabled(cfg: Config, st: State, e: Event) {
    match e
    case Connected(r) => r in st.flying && st.flying[r].Connecting?
    case AskFailed(r) => r in st.flying && (st.flying[r].Connecting? || st.flying[r].Asking?)
    case Asked(r, p, at) =>
      && r in st.flying && st.flying[r].Asking? && p != "" && st.flying[r].askedAt <= at <= st.now
      && Candidates(cfg.fleet, st.flying[r].region) != []
    case Named(r, _) => r in st.flying && Awaits(st.flying[r])
    case Judge(r) => r in st.flying && st.flying[r].Matching? && st.flying[r].held.Some?
    case Tick(to) => st.now <= to
    case _ => true
  }

  predicate Awaits(f: Resolution) {
    f.Matching? && f.held.None?
  }

  /** On to the next candidate, or the resolution fails. */
  function NextCandidate(cfg: Config, st: State, r: nat): State
    requires r in st.flying
  {
    var f := st.flying[r];
    if f.k + 1 < |Candidates(cfg.fleet, f.region)|
    then st.(flying := st.flying[r := Connecting(f.region, f.startedAt, f.k + 1)])
    else st.(flying := st.flying - {r})
  }

  /** `getServerName` of the candidate called `c`: a name already known is returned, else it is asked for. */
  function LookUp(st: State, f: Resolution, j: nat, c: string): Resolution
    requires f.Matching?
  {
    f.(j := j, c := c, held := if c in st.names then Some(st.names[c]) else None)
  }

  function Found(cfg: Config, st: State, r: nat): State
    requires r in st.flying && st.flying[r].Matching?
  {
    var f := st.flying[r];
    var origin := Origin(Report(f.region, f.primary, f.reportedAt), f.startedAt, st.now);
    st.(cache := st.cache[f.region := Entry(f.c, st.now + cfg.ttl)], origins := st.origins[f.region := origin],
    flying := st.flying - {r}, answers := st.answers + [Answer(f.region, f.c, st.now, true, origin)])
  }

  function NextName(cfg: Config, st: State, r: nat): State
    requires r in st.flying && st.flying[r].Matching?
    requires st.flying[r].j + 1 < |Candidates(cfg.fleet, st.flying[r].region)|
  {
    var f := st.flying[r];
    st.(flying := st.flying[r := LookUp(st, f, f.j + 1, Candidates(cfg.fleet, f.region)[f.j + 1].name)])
  }

  /** The name the resolution holds decides: found, on to the next name, or on to the next candidate. */
  function Judged(cfg: Config, st: State, r: nat): State
    requires r in st.flying && st.flying[r].Matching? && st.flying[r].held.Some?
  {
    var f := st.flying[r];
    var cs := Candidates(cfg.fleet, f.region);
    if Matches(cfg, f) then Found(cfg, st, r)
    else if f.j + 1 < |cs| then NextName(cfg, st, r)
    else NextCandidate(cfg, st, r)
  }

  predicate Matches(cfg: Config, f: Resolution) {
    f.Matching? && f.held.Some? && f.held.value != "" && cfg.same(f.held.value, f.primary)
  }

  function NamedStep(st: State, r: nat, answer: string): State
    requires r in st.flying && Awaits(st.flying[r])
  {
    var f := st.flying[r];
    st.(names := Learned(st.names, f.c, answer), told := if answer != "" then st.told + {(f.c, answer)} else st.told,
    flying := st.flying[r := f.(held := Some(answer))])
  }

  /** The candidate's pool is there: its availability group is asked now. */
  function ConnectedStep(st: State, r: nat): State
    requires r in st.flying
  {
    st.(flying := st.flying[r := Asking(st.flying[r].region, st.flying[r].startedAt, st.flying[r].k, st.now)])
  }

  function AskedStep(cfg: Config, st: State, r: nat, primary: string, at: int): State
    requires r in st.flying && Candidates(cfg.fleet, st.flying[r].region) != []
  {
    var f := st.flying[r];
    var c := Candidates(cfg.fleet, f.region)[0].name;
    var matching := Matching(f.region, f.startedAt, f.k, primary, at, 0, c, None);
    st.(reports := st.reports + {Report(f.region, primary, at)}, flying := st.flying[r := LookUp(st, matching, 0, c)])
  }

  function ResolveStep(cfg: Config, st: State, region: string): State {
    if Hit(st.cache, region, st.now).Some? && region in st.origins then
      st.(answers := st.answers + [Answer(region, st.cache[region].instance, st.now, false, st.origins[region])])
    else if Candidates(cfg.fleet, region) == [] then st
    else st.(flying := st.flying[st.next := Connecting(region, st.now, 0)], next := st.next + 1)
  }

  function Step(cfg: Config, st: State, e: Event): State {
    if !Enabled(cfg, st, e) then st
    else match e
      case Resolve(region) => ResolveStep(cfg, st, region)
      case Connected(r) => ConnectedStep(st, r)
      case AskFailed(r) => NextCandidate(cfg, st, r)
      case Asked(r, primary, at) => AskedStep(cfg, st, r, primary, at)
      case Named(r, answer) => NamedStep(st, r, answer)
      case Judge(r) => Judged(cfg, st, r)
      case Invalidate(which) => st.(cache := Invalidated(st.cache, which))
      case Tick(to) => st.(now := to)
  }

  function Run(cfg: Config, st: State, evs: seq<Event>): State {
    if evs == [] then st else Step(cfg, Run(cfg, st, evs[..|evs| - 1]), evs[|evs| - 1])
  }

  // ── The resolver as the program runs it, from one await to the next ──

  class Resolver {
    const cfg: Config
    var primaryCache: map<string, Entry>
    var serverNameCache: map<string, string>

    // The world: the clock, the suspended resolutions, and the history the theorems are about.
    var now: int
    var flying: map<nat, Resolution>
    var next: nat
    ghost var reports: set<Report>
    ghost var told: set<(string, string)>
    ghost var origins: map<string, Origin>
    ghost var answers: seq<Answer>

    ghost function View(): State
      reads this
    {
      State(now, primaryCache, serverNameCache, flying, next, reports, told, origins, answers)
    }

    constructor (cfg: Config)
      ensures View() == INITIAL && this.cfg == cfg
    {
      this.cfg := cfg;
      primaryCache, serverNameCache, now, flying, next := map[], map[], 0, map[], 0;
      reports, told, origins, answers := {}, {}, map[], [];
    }

    /** From the call to its first await: the cached answer, a refusal, or a new resolution. */
    method Resolve(region: string) returns (cached: Option<string>)
      requires region in primaryCache ==> region in origins
      modifies this
      ensures View() == Step(cfg, old(View()), Event.Resolve(region))
      ensures cached == Hit(old(primaryCache), region, old(now))
    {
      if region in primaryCache {
        var entry := primaryCache[region];
        if entry.expiresAt > now {
          answers := answers + [Answer(region, entry.instance, now, false, origins[region])];
          return Some(entry.instance);
        }
      }
      cached := None;
      if Candidates(cfg.fleet, region) != [] {
        flying, next := flying[next := Connecting(region, now, 0)], next + 1;
      }
    }

    method OnConnected(r: nat)
      requires Enabled(cfg, View(), Connected(r))
      modifies this
      ensures View() == Step(cfg, old(View()), Connected(r))
    {
      var f := flying[r];
      flying := flying[r := Asking(f.region, f.startedAt, f.k, now)];
    }

    method OnAskFailed(r: nat)
      requires Enabled(cfg, View(), AskFailed(r))
      modifies this
      ensures View() == Step(cfg, old(View()), AskFailed(r))
    {
      TryNext(r);
    }

    method TryNext(r: nat)
      requires r in flying
      modifies this`flying
      ensures View() == NextCandidate(cfg, old(View()), r)
    {
      var f := flying[r];
      if f.k + 1 < |Candidates(cfg.fleet, f.region)| {
        flying := flying[r := Connecting(f.region, f.startedAt, f.k + 1)];
      } else {
        flying := flying - {r};
      }
    }

    /** The availability group's answer: the matching loop is entered, up to the first server name it needs. */
    method OnAsked(r: nat, primary: string, at: int)
      requires Enabled(cfg, View(), Asked(r, primary, at))
      modifies this
      ensures View() == Step(cfg, old(View()), Asked(r, primary, at))
    {
      var f := flying[r];
      var c := Candidates(cfg.fleet, f.region)[0].name;
      reports := reports + {Report(f.region, primary, at)};
      var held := if c in serverNameCache then Some(serverNameCache[c]) else None;
      flying := flying[r := Matching(f.region, f.startedAt, f.k, primary, at, 0, c, held)];
    }

    /** The rest of `getServerName` once its query has returned. */
    method OnNamed(r: nat, answer: string)
      requires r in flying && Awaits(flying[r])
      modifies this
      ensures View() == Step(cfg, old(View()), Named(r, answer))
    {
      var f := flying[r];
      if answer != "" {
        serverNameCache := serverNameCache[f.c := answer];
        told := told + {(f.c, answer)};
      }
      flying := flying[r := f.(held := Some(answer))];
    }

    /** The matching loop going on with the name it was given. */
    method OnJudge(r: nat)
      requires r in flying && flying[r].Matching? && flying[r].held.Some?
      modifies this
      ensures View() == Step(cfg, old(View()), Judge(r))
    {
      var f := flying[r];
      var cs := Candidates(cfg.fleet, f.region);
      var sn := f.held.value;
      if sn != "" && cfg.same(sn, f.primary) {
        ghost var origin := Origin(Report(f.region, f.primary, f.reportedAt), f.startedAt, now);
        primaryCache := primaryCache[f.region := Entry(f.c, now + cfg.ttl)];
        origins := origins[f.region := origin];
        answers := answers + [Answer(f.region, f.c, now, true, origin)];
        flying := flying - {r};
      } else if f.j + 1 < |cs| {
        var c := cs[f.j + 1].name;
        var held := if c in serverNameCache then Some(serverNameCache[c]) else None;
        flying := flying[r := f.(j := f.j + 1, c := c, held := held)];
      } else {
        TryNext(r);
      }
    }

    method Invalidate(region: Option<string>)
      modifies this
      ensures View() == Step(cfg, old(View()), Event.Invalidate(region))
    {
      if region.Some? && region.value != "" {
        primaryCache := primaryCache - {region.value};
      } else {
        primaryCache := map[];
      }
    }
  }

  // ── Invariants ──

  predicate FlyingTrue(cfg: Config, st: State, f: Resolution) {
    && f.startedAt <= st.now
    && Candidates(cfg.fleet, f.region) != []
    && (f.Asking? ==> f.startedAt <= f.askedAt <= st.now)
    && (f.Matching? ==>
          && f.primary != "" && f.startedAt <= f.reportedAt <= st.now
            && Report(f.region, f.primary, f.reportedAt) in st.reports
          && f.j < |Candidates(cfg.fleet, f.region)| && f.c == Candidates(cfg.fleet, f.region)[f.j].name
          && (f.held.Some? && f.held.value != "" ==> (f.c, f.held.value) in st.told))
  }

  predicate OriginTrue(st: State, region: string, o: Origin) {
    o.report in st.reports && o.report.region == region && o.startedAt <= o.report.at <= o.writtenAt <= st.now
  }

  /** The instance is a candidate of its region and has itself given the server name the AG reported. */
  ghost predicate NodeTrue(cfg: Config, st: State, region: string, instance: string, primary: string) {
    && (exists n :: n in cfg.fleet && Candidate(n, region) && n.name == instance)
    && (exists sn :: (instance, sn) in st.told && cfg.same(sn, primary))
  }

  ghost predicate EntryTrue(cfg: Config, st: State, region: string) {
    && region in st.origins && OriginTrue(st, region, st.origins[region])
    && region in st.cache && st.cache[region].expiresAt == st.origins[region].writtenAt + cfg.ttl
    && NodeTrue(cfg, st, region, st.cache[region].instance, st.origins[region].report.primary)
  }

  ghost predicate AnswerTrue(cfg: Config, st: State, a: Answer) {
    && OriginTrue(st, a.region, a.origin) && NodeTrue(cfg, st, a.region, a.instance, a.origin.report.primary)
    && (if a.isNew then a.at == a.origin.writtenAt else a.origin.writtenAt <= a.at < a.origin.writtenAt + cfg.ttl)
  }

  ghost predicate Inv(cfg: Config, st: State) {
    && (forall r :: r in st.flying ==> r < st.next && FlyingTrue(cfg, st, st.flying[r]))
    && (forall region :: region in st.cache ==> EntryTrue(cfg, st, region))
    && (forall i :: 0 <= i < |st.answers| ==> AnswerTrue(cfg, st, st.answers[i]))
    && (forall c :: c in st.names ==> st.names[c] != "" && (c, st.names[c]) in st.told)
  }

  /** Time passes and knowledge grows; what was true of the past stays true. */
  predicate Grows(st: State, st': State) {
    st.now <= st'.now && st.reports <= st'.reports && st.told <= st'.told
  }

  lemma AnswersStay(cfg: Config, st: State, st': State)
    requires Inv(cfg, st) && Grows(st, st')
    ensures forall a :: AnswerTrue(cfg, st, a) ==> AnswerTrue(cfg, st', a)
  {
    forall a | AnswerTrue(cfg, st, a) ensures AnswerTrue(cfg, st', a) {
      NodeStays(cfg, st, st', a.region, a.instance, a.origin.report.primary);
    }
  }

  lemma FlightStays(cfg: Config, st: State, st': State, f: Resolution)
    requires FlyingTrue(cfg, st, f) && Grows(st, st')
    ensures FlyingTrue(cfg, st', f)
  {
  }

  lemma NodeStays(cfg: Config, st: State, st': State, region: string, instance: string, primary: string)
    requires st.told <= st'.told && NodeTrue(cfg, st, region, instance, primary)
    ensures NodeTrue(cfg, st', region, instance, primary)
  {
  }

  lemma EntriesStay(cfg: Config, st: State, st': State)
    requires Inv(cfg, st) && Grows(st, st') && st'.origins == st.origins
    requires forall region :: region in st'.cache ==> region in st.cache && st'.cache[region] == st.cache[region]
    ensures forall region :: region in st'.cache ==> EntryTrue(cfg, st', region)
  {
    forall region | region in st'.cache ensures EntryTrue(cfg, st', region) {
      assert EntryTrue(cfg, st, region);
      NodeStays(cfg, st, st', region, st.cache[region].instance, st.origins[region].report.primary);
    }
  }

  // ── Every step keeps the invariant ──

  /** Nothing but the clock, the reports, the names and the resolutions in flight moves. */
  lemma FlightKeeps(cfg: Config, st: State, st': State)
    requires Inv(cfg, st) && Grows(st, st') && st.next <= st'.next
    requires st'.cache == st.cache && st'.origins == st.origins && st'.answers == st.answers
    requires forall c :: c in st'.names ==> st'.names[c] != "" && (c, st'.names[c]) in st'.told
    requires forall r :: r in st'.flying ==>
                           r < st'.next && (FlyingTrue(cfg, st, st'.flying[r]) || FlyingTrue(cfg, st', st'.flying[r]))
    ensures Inv(cfg, st')
  {
    AnswersStay(cfg, st, st');
    EntriesStay(cfg, st, st');
    forall r | r in st'.flying ensures FlyingTrue(cfg, st', st'.flying[r]) {
      if FlyingTrue(cfg, st, st'.flying[r]) { FlightStays(cfg, st, st', st'.flying[r]); }
    }
  }

  lemma NextKeeps(cfg: Config, st: State, r: nat)
    requires Inv(cfg, st) && r in st.flying
    ensures Inv(cfg, NextCandidate(cfg, st, r))
  {
    FlightKeeps(cfg, st, NextCandidate(cfg, st, r));
  }

  lemma HitKeeps(cfg: Config, st: State, region: string)
    requires Inv(cfg, st) && Hit(st.cache, region, st.now).Some?
    ensures Inv(cfg, ResolveStep(cfg, st, region))
  {
    var st' := ResolveStep(cfg, st, region);
    assert EntryTrue(cfg, st, region);
    AnswersStay(cfg, st, st');
    EntriesStay(cfg, st, st');
    forall r | r in st'.flying ensures FlyingTrue(cfg, st', st'.flying[r]) { FlightStays(cfg, st, st', st.flying[r]); }
  }

  lemma ResolveKeeps(cfg: Config, st: State, region: string)
    requires Inv(cfg, st) && Hit(st.cache, region, st.now).None?
    ensures Inv(cfg, ResolveStep(cfg, st, region))
  {
    FlightKeeps(cfg, st, ResolveStep(cfg, st, region));
  }

  lemma ConnectedKeeps(cfg: Config, st: State, r: nat)
    requires Inv(cfg, st) && r in st.flying
    ensures Inv(cfg, ConnectedStep(st, r))
  {
    FlightKeeps(cfg, st, ConnectedStep(st, r));
  }

  lemma AskedKeeps(cfg: Config, st: State, r: nat, primary: string, at: int)
    requires Inv(cfg, st) && Enabled(cfg, st, Asked(r, primary, at))
    ensures Inv(cfg, AskedStep(cfg, st, r, primary, at))
  {
    FlightKeeps(cfg, st, AskedStep(cfg, st, r, primary, at));
  }

  lemma NamedKeeps(cfg: Config, st: State, r: nat, answer: string)
    requires Inv(cfg, st) && Enabled(cfg, st, Named(r, answer))
    ensures Inv(cfg, NamedStep(st, r, answer))
  {
    var st' := NamedStep(st, r, answer);
    assert FlyingTrue(cfg, st, st.flying[r]);
    assert FlyingTrue(cfg, st', st'.flying[r]);
    FlightKeeps(cfg, st, st');
  }

  lemma NodeMatches(cfg: Config, st: State, f: Resolution)
    requires FlyingTrue(cfg, st, f) && Matches(cfg, f)
    ensures NodeTrue(cfg, st, f.region, f.c, f.primary)
  {
    var n := Candidates(cfg.fleet, f.region)[f.j];
    CandidatesAreNodes(cfg.fleet, f.region);
    assert n in Candidates(cfg.fleet, f.region) && n.name == f.c;
  }

  lemma FoundKeeps(cfg: Config, st: State, r: nat)
    requires Inv(cfg, st) && r in st.flying && Matches(cfg, st.flying[r])
    ensures Inv(cfg, Found(cfg, st, r))
  {
    var f := st.flying[r];
    var st' := Found(cfg, st, r);
    assert FlyingTrue(cfg, st, f);
    NodeMatches(cfg, st, f);
    AnswersStay(cfg, st, st');
    NodeStays(cfg, st, st', f.region, f.c, f.primary);
    forall region | region in st'.cache ensures EntryTrue(cfg, st', region) {
      if region != f.region {
        assert EntryTrue(cfg, st, region);
        NodeStays(cfg, st, st', region, st.cache[region].instance, st.origins[region].report.primary);
      }
    }
    forall q | q in st'.flying ensures FlyingTrue(cfg, st', st'.flying[q]) { FlightStays(cfg, st, st', st.flying[q]); }
  }

  lemma NextNameKeeps(cfg: Config, st: State, r: nat)
    requires Inv(cfg, st) && r in st.flying && st.flying[r].Matching?
             && st.flying[r].j + 1 < |Candidates(cfg.fleet, st.flying[r].region)|
    ensures Inv(cfg, NextName(cfg, st, r))
  {
    assert FlyingTrue(cfg, st, st.flying[r]);
    assert FlyingTrue(cfg, st, NextName(cfg, st, r).flying[r]);
    FlightKeeps(cfg, st, NextName(cfg, st, r));
  }

  lemma JudgeKeeps(cfg: Config, st: State, r: nat)
    requires Inv(cfg, st) && Enabled(cfg, st, Judge(r))
    ensures Inv(cfg, Judged(cfg, st, r))
  {
    if Matches(cfg, st.flying[r]) {
      FoundKeeps(cfg, st, r);
    } else if st.flying[r].j + 1 < |Candidates(cfg.fleet, st.flying[r].region)| {
      NextNameKeeps(cfg, st, r);
    } else {
      NextKeeps(cfg, st, r);
    }
  }

  lemma InvalidateKeeps(cfg: Config, st: State, which: Option<string>)
    requires Inv(cfg, st)
    ensures Inv(cfg, Step(cfg, st, Invalidate(which)))
  {
    var st' := st.(cache := Invalidated(st.cache, which));
    AnswersStay(cfg, st, st');
    EntriesStay(cfg, st, st');
    forall r | r in st'.flying ensures FlyingTrue(cfg, st', st'.flying[r]) { FlightStays(cfg, st, st', st.flying[r]); }
  }

  lemma TickKeeps(cfg: Config, st: State, to: int)
    requires Inv(cfg, st) && st.now <= to
    ensures Inv(cfg, st.(now := to))
  {
    FlightKeeps(cfg, st, st.(now := to));
  }

  lemma StepKeeps(cfg: Config, st: State, e: Event)
    requires Inv(cfg, st)
    ensures Inv(cfg, Step(cfg, st, e))
  {
    if Enabled(cfg, st, e) {
      match e
      case Resolve(region) =>
        if Hit(st.cache, region, st.now).Some? {
          HitKeeps(cfg, st, region);
        } else {
          ResolveKeeps(cfg, st, region);
        }
      case Connected(r) => ConnectedKeeps(cfg, st, r);
      case AskFailed(r) => NextKeeps(cfg, st, r);
      case Asked(r, primary, at) => AskedKeeps(cfg, st, r, primary, at);
      case Named(r, answer) => NamedKeeps(cfg, st, r, answer);
      case Judge(r) => JudgeKeeps(cfg, st, r);
      case Invalidate(which) => InvalidateKeeps(cfg, st, which);
      case Tick(to) => TickKeeps(cfg, st, to);
    }
  }

  lemma {:induction false} Reachable(cfg: Config, evs: seq<Event>)
    ensures Inv(cfg, Run(cfg, INITIAL, evs))
  {
    if evs != [] {
      Reachable(cfg, evs[..|evs| - 1]);
      StepKeeps(cfg, Run(cfg, INITIAL, evs[..|evs| - 1]), evs[|evs| - 1]);
    }
  }

  // ── What the answers are worth ──

  /** The report is at most the time to live plus the span of the resolution that wrote the entry old. */
  predicate Recent(cfg: Config, st: State, a: Answer) {
    && a.origin.report in st.reports && a.origin.report.region == a.region
    && a.origin.startedAt <= a.origin.report.at <= a.at
    && var span, age := a.origin.writtenAt - a.origin.startedAt, a.at - a.origin.report.at;
       if a.isNew then age <= span else age < cfg.ttl + span
  }

  /**
   * On every run, with invalidations anywhere in it: an answer names a real node of its region, a server name that
   * node gave matches what an availability group reported, and the report is recent.
   */
  lemma AnswersAreRecent(cfg: Config, evs: seq<Event>)
    ensures var st := Run(cfg, INITIAL, evs);
            forall i :: 0 <= i < |st.answers| ==>
              var a := st.answers[i];
              NodeTrue(cfg, st, a.region, a.instance, a.origin.report.primary) && Recent(cfg, st, a)
  {
    Reachable(cfg, evs);
    var st := Run(cfg, INITIAL, evs);
    forall i | 0 <= i < |st.answers|
      ensures NodeTrue(cfg, st, st.answers[i].region, st.answers[i].instance, st.answers[i].origin.report.primary)
      ensures Recent(cfg, st, st.answers[i])
    {
      AnswerIsRecent(cfg, st, i);
    }
  }

  lemma AnswerIsRecent(cfg: Config, st: State, i: nat)
    requires Inv(cfg, st) && i < |st.answers|
    ensures var a := st.answers[i];
            NodeTrue(cfg, st, a.region, a.instance, a.origin.report.primary) && Recent(cfg, st, a)
  {
    assert AnswerTrue(cfg, st, st.answers[i]);
    var a := st.answers[i];
    assert a.origin.startedAt <= a.origin.report.at <= a.origin.writtenAt;
  }

  // ── What an invalidation is worth ──

  /** Some resolution is waiting for the server name of `c`, and will write down whatever it is told. */
  predicate Awaited(st: State, c: string) {
    exists r :: r in st.flying && Awaits(st.flying[r]) && st.flying[r].c == c
  }

  /** A candidate that could still turn out to be `primary`: its name is unknown, or matches, or may be overwritten. */
  predicate Possible(cfg: Config, st: State, c: string, primary: string) {
    c in st.names ==> (st.names[c] != "" && cfg.same(st.names[c], primary)) || Awaited(st, c)
  }

  /** Some candidate from position `j` on is still possible. */
  predicate OpenFrom(cfg: Config, st: State, f: Resolution, j: nat)
    requires f.Matching?
  {
    var cs := Candidates(cfg.fleet, f.region);
    exists k :: j <= k < |cs| && Possible(cfg, st, cs[k].name, f.primary)
  }

  /**
   * A resolution that can still cache what it is told or has been told: its report is still to arrive, or it can
   * match the report it has, by the name it awaits or holds or by a later one.
   */
  predicate Open(cfg: Config, st: State, f: Resolution) {
    f.Asking? || (f.Matching? && (f.held.None? || Matches(cfg, f) || OpenFrom(cfg, st, f, f.j + 1)))
  }

  /** When the report it will rest on was read, at the earliest. */
  function ReadAt(f: Resolution): int
    requires !f.Connecting?
  {
    if f.Asking? then f.askedAt else f.reportedAt
  }

  /** What is cached, and what a resolution in flight can still cache, rests on a report made at `since` or later. */
  predicate Clean(cfg: Config, st: State, region: string, since: int) {
    && (region in st.cache && region in st.origins ==> since <= st.origins[region].report.at)
    && forall r :: r in st.flying && st.flying[r].region == region && Open(cfg, st, st.flying[r]) ==>
         since <= ReadAt(st.flying[r])
  }

  predicate Later(st: State, from: nat, region: string, since: int) {
    forall i :: from <= i < |st.answers| && st.answers[i].region == region ==> since <= st.answers[i].origin.report.at
  }

  predicate Forgotten(cfg: Config, st: State, from: nat, region: string, since: int) {
    since <= st.now && Clean(cfg, st, region, since) && Later(st, from, region, since)
  }

  /** A name that is known and that nobody awaits stays as it is. */
  predicate Narrows(st: State, st': State) {
    forall c :: c in st.names && !Awaited(st, c) ==> c in st'.names && st'.names[c] == st.names[c] && !Awaited(st', c)
  }

  /** So a step can only close a resolution that goes on. */
  lemma OpenFromShrinks(cfg: Config, st: State, st': State, f: Resolution, f': Resolution, j: nat, j': nat)
    requires Narrows(st, st') && f.Matching? && f'.Matching? && j <= j' && f.region == f'.region
             && f.primary == f'.primary
    requires OpenFrom(cfg, st', f', j')
    ensures OpenFrom(cfg, st, f, j)
  {
    var cs := Candidates(cfg.fleet, f.region);
    var k :| j' <= k < |cs| && Possible(cfg, st', cs[k].name, f.primary);
    assert Possible(cfg, st, cs[k].name, f.primary);
  }

  lemma OpenShrinks(cfg: Config, st: State, st': State, f: Resolution)
    requires Narrows(st, st') && Open(cfg, st', f)
    ensures Open(cfg, st, f)
  {
    if f.Matching? && OpenFrom(cfg, st', f, f.j + 1) { OpenFromShrinks(cfg, st, st', f, f, f.j + 1, f.j + 1); }
  }

  /** A resolution that looks up its next name is open only if it was open before. */
  lemma LookUpShrinks(cfg: Config, st: State, st': State, f: Resolution)
    requires f.Matching? && f.j + 1 < |Candidates(cfg.fleet, f.region)| && Narrows(st, st')
    requires Open(cfg, st', LookUp(st, f, f.j + 1, Candidates(cfg.fleet, f.region)[f.j + 1].name))
    ensures OpenFrom(cfg, st, f, f.j + 1)
  {
    var c := Candidates(cfg.fleet, f.region)[f.j + 1].name;
    var f' := LookUp(st, f, f.j + 1, c);
    if OpenFrom(cfg, st', f', f'.j + 1) {
      OpenFromShrinks(cfg, st, st', f, f', f.j + 1, f'.j + 1);
    } else {
      assert Possible(cfg, st, c, f.primary);
    }
  }

  /** The resolutions of the region that stay in flight are as they were, or rest on a report made since. */
  lemma FlightForgets(cfg: Config, st: State, st': State, from: nat, region: string, since: int)
    requires Forgotten(cfg, st, from, region, since) && st.now <= st'.now && Narrows(st, st')
    requires Later(st', from, region, since)
    requires region in st'.cache && region in st'.origins ==> since <= st'.origins[region].report.at
    requires forall r :: r in st'.flying && st'.flying[r].region == region && Open(cfg, st', st'.flying[r]) ==>
                           since <= ReadAt(st'.flying[r]) || (r in st.flying && st.flying[r] == st'.flying[r])
    ensures Forgotten(cfg, st', from, region, since)
  {
    forall r | r in st'.flying && st'.flying[r].region == region && Open(cfg, st', st'.flying[r])
      ensures since <= ReadAt(st'.flying[r])
    {
      if r in st.flying && st.flying[r] == st'.flying[r] { OpenShrinks(cfg, st, st', st.flying[r]); }
    }
  }

  lemma FewerNarrow(st: State, st': State)
    requires st'.names == st.names
    requires forall r :: r in st'.flying && Awaits(st'.flying[r]) ==>
                           (r in st.flying && st.flying[r] == st'.flying[r]) || st'.flying[r].c !in st.names
    ensures Narrows(st, st')
  {
    assert forall c :: c in st.names && Awaited(st', c) ==> Awaited(st, c);
  }

  lemma NamedNarrows(st: State, r: nat, answer: string)
    requires r in st.flying && Awaits(st.flying[r])
    ensures Narrows(st, NamedStep(st, r, answer))
  {
    var st' := NamedStep(st, r, answer);
    assert Awaited(st, st.flying[r].c);
    assert forall c :: Awaited(st', c) ==> Awaited(st, c);
  }

  lemma NamedForgets(cfg: Config, st: State, r: nat, answer: string, from: nat, region: string, since: int)
    requires Forgotten(cfg, st, from, region, since) && r in st.flying && Awaits(st.flying[r])
    ensures Forgotten(cfg, NamedStep(st, r, answer), from, region, since)
  {
    NamedNarrows(st, r, answer);
    assert Open(cfg, st, st.flying[r]);
    FlightForgets(cfg, st, NamedStep(st, r, answer), from, region, since);
  }

  lemma NextForgets(cfg: Config, st: State, r: nat, from: nat, region: string, since: int)
    requires Forgotten(cfg, st, from, region, since) && r in st.flying
    ensures Forgotten(cfg, NextCandidate(cfg, st, r), from, region, since)
  {
    FewerNarrow(st, NextCandidate(cfg, st, r));
    FlightForgets(cfg, st, NextCandidate(cfg, st, r), from, region, since);
  }

  lemma FoundForgets(cfg: Config, st: State, r: nat, from: nat, region: string, since: int)
    requires Forgotten(cfg, st, from, region, since) && r in st.flying && Matches(cfg, st.flying[r])
    ensures Forgotten(cfg, Found(cfg, st, r), from, region, since)
  {
    assert Open(cfg, st, st.flying[r]);
    FewerNarrow(st, Found(cfg, st, r));
    FlightForgets(cfg, st, Found(cfg, st, r), from, region, since);
  }

  lemma NextNameForgets(cfg: Config, st: State, r: nat, from: nat, region: string, since: int)
    requires Forgotten(cfg, st, from, region, since) && r in st.flying && st.flying[r].Matching?
    requires st.flying[r].j + 1 < |Candidates(cfg.fleet, st.flying[r].region)|
    ensures Forgotten(cfg, NextName(cfg, st, r), from, region, since)
  {
    var f, st' := st.flying[r], NextName(cfg, st, r);
    FewerNarrow(st, st');
    if f.region == region && Open(cfg, st', st'.flying[r]) {
      LookUpShrinks(cfg, st, st', f);
      assert Open(cfg, st, f);
    }
    hide Open, OpenFrom, LookUp, Narrows, Later;
    FlightForgets(cfg, st, st', from, region, since);
  }

  lemma JudgeForgets(cfg: Config, st: State, r: nat, from: nat, region: string, since: int)
    requires Forgotten(cfg, st, from, region, since) && Enabled(cfg, st, Judge(r))
    ensures Forgotten(cfg, Judged(cfg, st, r), from, region, since)
  {
    if Matches(cfg, st.flying[r]) {
      FoundForgets(cfg, st, r, from, region, since);
    } else if st.flying[r].j + 1 < |Candidates(cfg.fleet, st.flying[r].region)| {
      NextNameForgets(cfg, st, r, from, region, since);
    } else {
      NextForgets(cfg, st, r, from, region, since);
    }
  }

  lemma ConnectedForgets(cfg: Config, st: State, r: nat, from: nat, region: string, since: int)
    requires Forgotten(cfg, st, from, region, since) && r in st.flying
    ensures Forgotten(cfg, ConnectedStep(st, r), from, region, since)
  {
    FewerNarrow(st, ConnectedStep(st, r));
    FlightForgets(cfg, st, ConnectedStep(st, r), from, region, since);
  }

  lemma AskedForgets(cfg: Config, st: State, r: nat, primary: string, at: int, from: nat, region: string, since: int)
    requires Forgotten(cfg, st, from, region, since) && Enabled(cfg, st, Asked(r, primary, at))
    ensures Forgotten(cfg, AskedStep(cfg, st, r, primary, at), from, region, since)
  {
    FewerNarrow(st, AskedStep(cfg, st, r, primary, at));
    FlightForgets(cfg, st, AskedStep(cfg, st, r, primary, at), from, region, since);
  }

  lemma ResolveForgets(cfg: Config, st: State, asked: string, from: nat, region: string, since: int)
    requires Forgotten(cfg, st, from, region, since)
    ensures Forgotten(cfg, ResolveStep(cfg, st, asked), from, region, since)
  {
    FewerNarrow(st, ResolveStep(cfg, st, asked));
    FlightForgets(cfg, st, ResolveStep(cfg, st, asked), from, region, since);
  }

  lemma StepForgets(cfg: Config, st: State, e: Event, from: nat, region: string, since: int)
    requires Forgotten(cfg, st, from, region, since)
    ensures Forgotten(cfg, Step(cfg, st, e), from, region, since)
  {
    if Enabled(cfg, st, e) {
      match e
      case Resolve(asked) => ResolveForgets(cfg, st, asked, from, region, since);
      case Connected(r) => ConnectedForgets(cfg, st, r, from, region, since);
      case AskFailed(r) => NextForgets(cfg, st, r, from, region, since);
      case Asked(r, primary, at) => AskedForgets(cfg, st, r, primary, at, from, region, since);
      case Named(r, answer) => NamedForgets(cfg, st, r, answer, from, region, since);
      case Judge(r) => JudgeForgets(cfg, st, r, from, region, since);
      case Invalidate(which) =>
        SameFlightsForget(cfg, st, st.(cache := Invalidated(st.cache, which)), from, region, since);
      case Tick(to) => SameFlightsForget(cfg, st, st.(now := to), from, region, since);
    }
  }

  lemma SameFlightsForget(cfg: Config, st: State, st': State, from: nat, region: string, since: int)
    requires Forgotten(cfg, st, from, region, since) && st' == st.(now := st'.now, cache := st'.cache)
             && st.now <= st'.now
    requires region in st'.cache ==> region in st.cache
    ensures Forgotten(cfg, st', from, region, since)
  {
    FewerNarrow(st, st');
    FlightForgets(cfg, st, st', from, region, since);
  }

  lemma {:induction false} RunForgets(cfg: Config, st: State, evs: seq<Event>, from: nat, region: string, since: int)
    requires Forgotten(cfg, st, from, region, since)
    ensures Forgotten(cfg, Run(cfg, st, evs), from, region, since)
  {
    if evs != [] {
      RunForgets(cfg, st, evs[..|evs| - 1], from, region, since);
      StepForgets(cfg, Run(cfg, st, evs[..|evs| - 1]), evs[|evs| - 1], from, region, since);
    }
  }

  lemma {:induction false} RunCons(cfg: Config, st: State, e: Event, evs: seq<Event>)
    ensures Run(cfg, st, [e] + evs) == Run(cfg, Step(cfg, st, e), evs)
  {
    if evs == [] {
      assert ([e] + evs)[..0] == [];
    } else {
      RunCons(cfg, st, e, evs[..|evs| - 1]);
      assert ([e] + evs)[..|evs|] == [e] + evs[..|evs| - 1];
    }
  }

  // ── Whoever is open can be answered ──

  /** What an answer of a resolution in flight would look like: one more answer, resting on a report read that early. */
  predicate EndsInAnswer(cfg: Config, st: State, f: Resolution, evs: seq<Event>)
    requires !f.Connecting?
  {
    var answers := Run(cfg, st, evs).answers;
    && |answers| == |st.answers| + 1
    && answers[|st.answers|].region == f.region && answers[|st.answers|].origin.report.at == ReadAt(f)
  }

  lemma MatchAnswers(cfg: Config, st: State, r: nat) returns (evs: seq<Event>)
    requires r in st.flying && Matches(cfg, st.flying[r])
    ensures EndsInAnswer(cfg, st, st.flying[r], evs)
  {
    evs := [Judge(r)];
    assert evs[..0] == [];
    assert Run(cfg, st, evs) == Found(cfg, st, r);
  }

  lemma AwaitAnswers(cfg: Config, st: State, r: nat) returns (evs: seq<Event>)
    requires forall s: string :: cfg.same(s, s)
    requires r in st.flying && Awaits(st.flying[r]) && st.flying[r].primary != ""
    ensures EndsInAnswer(cfg, st, st.flying[r], evs)
  {
    var named := Named(r, st.flying[r].primary);
    var st' := NamedStep(st, r, st.flying[r].primary);
    assert Step(cfg, st, named) == st';
    var rest := MatchAnswers(cfg, st', r);
    evs := [named] + rest;
    RunCons(cfg, st, named, rest);
  }

  /** The next name made to match, if it is one that somebody else awaits. */
  lemma Prepare(cfg: Config, st: State, r: nat, c: string) returns (evs: seq<Event>, st': State)
    requires forall s: string :: cfg.same(s, s)
    requires r in st.flying && st.flying[r].Matching? && st.flying[r].held.Some? && st.flying[r].primary != ""
    requires Possible(cfg, st, c, st.flying[r].primary)
    ensures st' == Run(cfg, st, evs) && st'.answers == st.answers
    ensures r in st'.flying && st'.flying[r] == st.flying[r]
    ensures c in st'.names ==> st'.names[c] != "" && cfg.same(st'.names[c], st.flying[r].primary)
  {
    var primary := st.flying[r].primary;
    if c in st.names && !(st.names[c] != "" && cfg.same(st.names[c], primary)) {
      var q :| q in st.flying && Awaits(st.flying[q]) && st.flying[q].c == c;
      evs, st' := [Named(q, primary)], NamedStep(st, q, primary);
      assert evs[..0] == [];
      assert Run(cfg, st, evs) == Step(cfg, st, Named(q, primary));
    } else {
      evs, st' := [], st;
    }
  }

  lemma {:induction false} RunAppend(cfg: Config, st: State, evs: seq<Event>, more: seq<Event>)
    ensures Run(cfg, st, evs + more) == Run(cfg, Run(cfg, st, evs), more)
  {
    if more == [] {
      assert evs + more == evs;
    } else {
      RunAppend(cfg, st, evs, more[..|more| - 1]);
      assert (evs + more)[..|evs + more| - 1] == evs + more[..|more| - 1];
    }
  }

  /** One that has its report, on a report it can still match. */
  lemma {:induction false} MatchingCanAnswer(cfg: Config, st: State, r: nat) returns (evs: seq<Event>)
    requires forall s: string :: cfg.same(s, s)
    requires r in st.flying && Open(cfg, st, st.flying[r]) && st.flying[r].Matching? && st.flying[r].primary != ""
    ensures EndsInAnswer(cfg, st, st.flying[r], evs)
    decreases |Candidates(cfg.fleet, st.flying[r].region)| - st.flying[r].j
  {
    var f := st.flying[r];
    if f.held.None? {
      evs := AwaitAnswers(cfg, st, r);
    } else if Matches(cfg, f) {
      evs := MatchAnswers(cfg, st, r);
    } else {
      var cs := Candidates(cfg.fleet, f.region);
      var k :| f.j + 1 <= k < |cs| && Possible(cfg, st, cs[k].name, f.primary);
      if k == f.j + 1 {
        evs := NextIsPossible(cfg, st, r);
      } else {
        var st' := Judged(cfg, st, r);
        MovesOn(cfg, st, r, k);
        var rest := MatchingCanAnswer(cfg, st', r);
        evs := [Judge(r)] + rest;
        RunCons(cfg, st, Judge(r), rest);
      }
    }
  }

  /** A later possible name stays possible while the resolution moves on. */
  lemma MovesOn(cfg: Config, st: State, r: nat, k: nat)
    requires r in st.flying && st.flying[r].Matching? && st.flying[r].held.Some? && !Matches(cfg, st.flying[r])
    requires st.flying[r].j + 1 < k < |Candidates(cfg.fleet, st.flying[r].region)|
    requires Possible(cfg, st, Candidates(cfg.fleet, st.flying[r].region)[k].name, st.flying[r].primary)
    ensures var st', f := Judged(cfg, st, r), st.flying[r];
            && st' == Step(cfg, st, Judge(r)) && st'.answers == st.answers
            && r in st'.flying && st'.flying[r] == LookUp(st, f, f.j + 1, Candidates(cfg.fleet, f.region)[f.j + 1].name)
            && Open(cfg, st', st'.flying[r])
  {
    var f := st.flying[r];
    var st' := Judged(cfg, st, r);
    var cs := Candidates(cfg.fleet, f.region);
    var c := cs[k].name;
    assert Possible(cfg, st', c, f.primary) by {
      if Awaited(st, c) {
        var q :| q in st.flying && Awaits(st.flying[q]) && st.flying[q].c == c;
        assert q != r && q in st'.flying && Awaits(st'.flying[q]) && st'.flying[q].c == c;
        assert Awaited(st', c);
      }
    }
    assert OpenFrom(cfg, st', st'.flying[r], st'.flying[r].j + 1);
  }

  lemma NextIsPossible(cfg: Config, st: State, r: nat) returns (evs: seq<Event>)
    requires forall s: string :: cfg.same(s, s)
    requires r in st.flying && st.flying[r].Matching? && st.flying[r].held.Some? && !Matches(cfg, st.flying[r])
             && st.flying[r].primary != ""
    requires st.flying[r].j + 1 < |Candidates(cfg.fleet, st.flying[r].region)|
    requires Possible(cfg, st, Candidates(cfg.fleet, st.flying[r].region)[st.flying[r].j + 1].name,
                      st.flying[r].primary)
    ensures EndsInAnswer(cfg, st, st.flying[r], evs)
  {
    var f := st.flying[r];
    var c := Candidates(cfg.fleet, f.region)[f.j + 1].name;
    var before, st1 := Prepare(cfg, st, r, c);
    var st2 := Judged(cfg, st1, r);
    assert st2 == Step(cfg, st1, Judge(r)) && st2.flying[r] == LookUp(st1, f, f.j + 1, c);
    var rest: seq<Event>;
    if c in st1.names { rest := MatchAnswers(cfg, st2, r); } else { rest := AwaitAnswers(cfg, st2, r); }
    evs := before + ([Judge(r)] + rest);
    RunCons(cfg, st1, Judge(r), rest);
    RunAppend(cfg, st, before, [Judge(r)] + rest);
  }

  /** One that is still asking, by being told, as of when it asked, what its first candidate is known to be called. */
  lemma AskingCanAnswer(cfg: Config, st: State, r: nat) returns (evs: seq<Event>)
    requires Inv(cfg, st) && r in st.flying && st.flying[r].Asking? && forall s: string :: cfg.same(s, s)
    ensures EndsInAnswer(cfg, st, st.flying[r], evs)
  {
    var f := st.flying[r];
    assert FlyingTrue(cfg, st, f);
    var c := Candidates(cfg.fleet, f.region)[0].name;
    var primary := if c in st.names then st.names[c] else "p";
    var asked := Asked(r, primary, f.askedAt);
    var st' := AskedStep(cfg, st, r, primary, f.askedAt);
    assert Step(cfg, st, asked) == st';
    var rest: seq<Event>;
    if c in st.names { rest := MatchAnswers(cfg, st', r); } else { rest := AwaitAnswers(cfg, st', r); }
    evs := [asked] + rest;
    RunCons(cfg, st, asked, rest);
  }

  /** An open resolution can be answered so that it ends in an entry resting on a report as old as it can be. */
  lemma OpenCanAnswer(cfg: Config, st: State, r: nat) returns (evs: seq<Event>)
    requires Inv(cfg, st) && forall s: string :: cfg.same(s, s)
    requires r in st.flying && Open(cfg, st, st.flying[r])
    ensures EndsInAnswer(cfg, st, st.flying[r], evs)
  {
    assert FlyingTrue(cfg, st, st.flying[r]);
    if st.flying[r].Asking? { evs := AskingCanAnswer(cfg, st, r); } else { evs := MatchingCanAnswer(cfg, st, r); }
  }

  /** No resolution of the region has asked for, or holds, a report read before now that it can still cache. */
  predicate NoneOpen(cfg: Config, st: State, region: string) {
    forall r :: r in st.flying && st.flying[r].region == region && Open(cfg, st, st.flying[r]) ==>
      st.now <= ReadAt(st.flying[r])
  }

  /**
   * An invalidation keeps every earlier report out of the later answers exactly when no resolution of the region has
   * asked before it and is still being answered, or holds an earlier report that it can still match: such a
   * resolution writes its entry after the invalidation.
   */
  lemma InvalidationForgetsExactly(cfg: Config, st: State, region: string)
    requires Inv(cfg, st) && region != "" && forall s: string :: cfg.same(s, s)
    ensures (forall evs :: Later(Run(cfg, Step(cfg, st, Invalidate(Some(region))), evs), |st.answers|, region, st.now))
            <==> NoneOpen(cfg, st, region)
  {
    var st' := Step(cfg, st, Invalidate(Some(region)));
    FewerNarrow(st, st');
    FewerNarrow(st', st);
    forall r | r in st.flying ensures Open(cfg, st', st.flying[r]) == Open(cfg, st, st.flying[r]) {
      if Open(cfg, st', st.flying[r]) { OpenShrinks(cfg, st, st', st.flying[r]); }
      if Open(cfg, st, st.flying[r]) { OpenShrinks(cfg, st', st, st.flying[r]); }
    }
    if NoneOpen(cfg, st, region) {
      forall evs ensures Later(Run(cfg, st', evs), |st.answers|, region, st.now) {
        RunForgets(cfg, st', evs, |st.answers|, region, st.now);
      }
    } else {
      var r :| r in st.flying && st.flying[r].region == region && Open(cfg, st, st.flying[r])
        && ReadAt(st.flying[r]) < st.now;
      InvalidateKeeps(cfg, st, Some(region));
      var evs := OpenCanAnswer(cfg, st', r);
      assert !Later(Run(cfg, st', evs), |st.answers|, region, st.now);
    }
  }

  // ── A refresh after a failover ──

  lemma RunSnoc(cfg: Config, evs: seq<Event>, e: Event)
    ensures Run(cfg, INITIAL, evs + [e]) == Step(cfg, Run(cfg, INITIAL, evs), e)
  {
    assert (evs + [e])[..|evs|] == evs;
  }

  /** The resolution has asked; the server reads `primary` at time 0; the refresh comes at `t`, the answer after it. */
  function Refreshed(region: string, primary: string, t: int): seq<Event> {
    [] + [Resolve(region)] + [Connected(0)] + [Tick(t)] + [Invalidate(Some(region))]
    + [Asked(0, primary, 0)] + [Named(0, primary)] + [Judge(0)]
  }

  function AskedBefore(region: string, t: int): State {
    INITIAL.(now := t, flying := map[0 := Asking(region, 0, 0, 0)], next := 1)
  }

  lemma AsksBeforeRefresh(cfg: Config, region: string, t: int)
    requires Candidates(cfg.fleet, region) != [] && t >= 0 && region != ""
    ensures Run(cfg, INITIAL, [] + [Resolve(region)] + [Connected(0)] + [Tick(t)] + [Invalidate(Some(region))])
            == AskedBefore(region, t)
  {
    var evs: seq<Event> := [];
    RunSnoc(cfg, evs, Resolve(region));
    RunSnoc(cfg, evs + [Resolve(region)], Connected(0));
    assert Run(cfg, INITIAL, evs + [Resolve(region)] + [Connected(0)]) == AskedBefore(region, 0);
    RunSnoc(cfg, evs + [Resolve(region)] + [Connected(0)], Tick(t));
    RunSnoc(cfg, evs + [Resolve(region)] + [Connected(0)] + [Tick(t)], Invalidate(Some(region)));
    assert Invalidated(AskedBefore(region, t).cache, Some(region)) == map[];
  }

  /** So a refresh after a failover can be followed by an entry that was read before it, for a whole time to live. */
  lemma RefreshCachesOldReport(cfg: Config, region: string, primary: string, t: int)
    requires Candidates(cfg.fleet, region) != [] && t >= 0 && region != "" && primary != ""
             && cfg.same(primary, primary)
    ensures var st := Run(cfg, INITIAL, Refreshed(region, primary, t));
            && region in st.cache && st.cache[region].expiresAt == t + cfg.ttl
            && region in st.origins && st.origins[region].report == Report(region, primary, 0)
  {
    var evs := [] + [Resolve(region)] + [Connected(0)] + [Tick(t)] + [Invalidate(Some(region))];
    AsksBeforeRefresh(cfg, region, t);
    RunSnoc(cfg, evs, Asked(0, primary, 0));
    RunSnoc(cfg, evs + [Asked(0, primary, 0)], Named(0, primary));
    RunSnoc(cfg, evs + [Asked(0, primary, 0)] + [Named(0, primary)], Judge(0));
  }
}
