/** Finding a region's primary, or giving up. */
module PrimarySearch {
  import opened Text
  import opened PrimaryAlias

  // ── In a world that holds still ──

  function IfCandidate(n: Node, region: string): seq<Node> {
    if Candidate(n, region) then [n] else []
  }

  lemma CandidatesStep(fleet: seq<Node>, region: string)
    requires fleet != []
    ensures Candidates(fleet, region) == IfCandidate(fleet[0], region) + Candidates(fleet[1..], region)
  {
    hide Candidate;
  }

  lemma Associates(x: seq<Node>, y: seq<Node>, z: seq<Node>)
    ensures (x + y) + z == x + (y + z)
  {
  }

  lemma TailOfSum(a: seq<Node>, b: seq<Node>)
    requires a != []
    ensures (a + b)[0] == a[0] && (a + b)[1..] == a[1..] + b
  {
  }

  lemma {:induction false} CandidatesInOrder(a: seq<Node>, b: seq<Node>, region: string)
    ensures Candidates(a + b, region) == Candidates(a, region) + Candidates(b, region)
  {
    if a == [] {
      assert a + b == b;
      assert [] + Candidates(b, region) == Candidates(b, region);
    } else {
      hide Candidates, IfCandidate;
      CandidatesStep(a, region);
      CandidatesStep(a + b, region);
      TailOfSum(a, b);
      CandidatesInOrder(a[1..], b, region);
      Associates(IfCandidate(a[0], region), Candidates(a[1..], region), Candidates(b, region));
    }
  }

  /** The node answers and reports a primary, and the other one answers to that very name. */
  predicate PointsTo(w: World, n: Node, m: Node) {
    && w.dials(n.name) && w.primary(n.name).Some? && w.primary(n.name).value != ""
    && w.dials(m.name) && w.serverName(m.name).Some? && w.serverName(m.name).value != ""
    && w.same(w.serverName(m.name).value, w.primary(n.name).value)
  }

  lemma CandidateDials(w: World, region: string, k: nat)
    requires k < |Candidates(w.fleet, region)|
    ensures var c := Candidates(w.fleet, region)[k];
            && !IsAlias(c.name) && GetPool(w, c.name) == (if w.dials(c.name) then Some(c.name) else None)
  {
    CandidatesAreNodes(w.fleet, region);
    var c := Candidates(w.fleet, region)[k];
    assert c in Candidates(w.fleet, region);
    var i :| 0 <= i < |w.fleet| && w.fleet[i] == c;
    assert Known(w, c.name);
  }

  predicate AnswersTo(w: World, m: Node, primary: string) {
    w.dials(m.name) && w.serverName(m.name).Some? && w.serverName(m.name).value != ""
      && w.same(w.serverName(m.name).value, primary)
  }

  lemma NoAliases(w: World, region: string)
    ensures forall c :: c in Candidates(w.fleet, region) ==> !IsAlias(c.name)
  {
    CandidatesAreNodes(w.fleet, region);
  }

  lemma MatchStep(w: World, region: string, primary: string, j: nat)
    requires j < |Candidates(w.fleet, region)|
    requires forall c :: c in Candidates(w.fleet, region) ==> !IsAlias(c.name)
    ensures var cs := Candidates(w.fleet, region);
            MatchFrom(w, cs, primary, j)
              == if AnswersTo(w, cs[j], primary) then Some(cs[j].name) else MatchFrom(w, cs, primary, j + 1)
  {
    CandidateDials(w, region, j);
    hide GetPool, Candidates, IsAlias;
  }

  /** The first candidate from `j` on that answers to the name. */
  predicate Answerer(w: World, cs: seq<Node>, primary: string, j: nat, i: nat) {
    j <= i < |cs| && AnswersTo(w, cs[i], primary) && forall h :: j <= h < i ==> !AnswersTo(w, cs[h], primary)
  }

  /** Among the candidates from `j` on, the first whose own server name is the one reported. */
  lemma {:induction false} MatchesFirst(w: World, region: string, primary: string, j: nat)
    requires j <= |Candidates(w.fleet, region)|
    requires forall c :: c in Candidates(w.fleet, region) ==> !IsAlias(c.name)
    ensures var cs, r := Candidates(w.fleet, region), MatchFrom(w, Candidates(w.fleet, region), primary, j);
            && (r.None? ==> forall i :: j <= i < |cs| ==> !AnswersTo(w, cs[i], primary))
            && (r.Some? ==> exists i :: j <= i < |cs| && Answerer(w, cs, primary, j, i) && r.value == cs[i].name)
    decreases |Candidates(w.fleet, region)| - j
  {
    var cs := Candidates(w.fleet, region);
    hide Candidates, AnswersTo, IsAlias;
    if j < |cs| {
      MatchStep(w, region, primary, j);
      MatchesFirst(w, region, primary, j + 1);
      hide MatchFrom;
      if AnswersTo(w, cs[j], primary) {
        assert Answerer(w, cs, primary, j, j);
      } else if MatchFrom(w, cs, primary, j + 1).Some? {
        var i :| j + 1 <= i < |cs| && Answerer(w, cs, primary, j + 1, i)
          && MatchFrom(w, cs, primary, j + 1).value == cs[i].name;
        assert Answerer(w, cs, primary, j, i);
      }
    }
  }

  /** Candidate `k` points to candidate `j`, no candidate before it to any, nor it to one before `j`. */
  predicate FirstPointer(w: World, cs: seq<Node>, from: nat, k: nat, j: nat) {
    && from <= k < |cs| && j < |cs| && PointsTo(w, cs[k], cs[j])
    && (forall h, i :: from <= h < k && 0 <= i < |cs| ==> !PointsTo(w, cs[h], cs[i]))
    && (forall i :: 0 <= i < j ==> !PointsTo(w, cs[k], cs[i]))
  }

  /** The first candidate that leads to a primary, from `from` on, leads to this one. */
  predicate Finds(w: World, cs: seq<Node>, from: nat, r: string) {
    exists k, j :: 0 <= k < |cs| && 0 <= j < |cs| && FirstPointer(w, cs, from, k, j) && r == cs[j].name
  }

  predicate NonePoints(w: World, cs: seq<Node>, from: nat) {
    forall k, j :: from <= k < |cs| && 0 <= j < |cs| ==> !PointsTo(w, cs[k], cs[j])
  }

  predicate Searched(w: World, cs: seq<Node>, from: nat, r: Option<string>) {
    if r.Some? then Finds(w, cs, from, r.value) else NonePoints(w, cs, from)
  }

  lemma {:induction false} AsksFirst(w: World, region: string, k: nat)
    requires k <= |Candidates(w.fleet, region)|
    requires forall c :: c in Candidates(w.fleet, region) ==> !IsAlias(c.name)
    ensures Searched(w, Candidates(w.fleet, region), k, AskFrom(w, Candidates(w.fleet, region), k))
    decreases |Candidates(w.fleet, region)| - k
  {
    var cs := Candidates(w.fleet, region);
    if k < |cs| {
      AsksFirst(w, region, k + 1);
      AskStep(w, region, k);
      hide AskFrom, Candidates, Searched, IsAlias;
      var primary := if w.dials(cs[k].name) then w.primary(cs[k].name) else None;
      var found := if primary.Some? && primary.value != "" then MatchFrom(w, cs, primary.value, 0) else None;
      if primary.Some? && primary.value != "" { MatchesFirst(w, region, primary.value, 0); }
      hide MatchFrom;
      if found.Some? {
        var j :| 0 <= j < |cs| && Answerer(w, cs, primary.value, 0, j) && found.value == cs[j].name;
        FoundHere(w, cs, k, j);
      } else {
        FromNext(w, cs, k, AskFrom(w, cs, k + 1));
      }
    }
  }

  lemma AskStep(w: World, region: string, k: nat)
    requires k < |Candidates(w.fleet, region)|
    requires forall c :: c in Candidates(w.fleet, region) ==> !IsAlias(c.name)
    ensures var cs := Candidates(w.fleet, region);
            var primary := if w.dials(cs[k].name) then w.primary(cs[k].name) else None;
            var found := if primary.Some? && primary.value != "" then MatchFrom(w, cs, primary.value, 0) else None;
            AskFrom(w, cs, k) == if found.Some? then found else AskFrom(w, cs, k + 1)
  {
    CandidateDials(w, region, k);
    hide GetPool, Candidates, IsAlias, MatchFrom;
  }

  lemma FoundHere(w: World, cs: seq<Node>, k: nat, j: nat)
    requires k < |cs| && j < |cs| && w.dials(cs[k].name) && w.primary(cs[k].name).Some?
    requires w.primary(cs[k].name).value != "" && Answerer(w, cs, w.primary(cs[k].name).value, 0, j)
    ensures Searched(w, cs, k, Some(cs[j].name))
  {
    forall i | 0 <= i < j ensures !PointsTo(w, cs[k], cs[i]) {
      assert !AnswersTo(w, cs[i], w.primary(cs[k].name).value);
    }
    assert FirstPointer(w, cs, k, k, j);
  }

  lemma FromNext(w: World, cs: seq<Node>, k: nat, r: Option<string>)
    requires k < |cs| && (forall i :: 0 <= i < |cs| ==> !PointsTo(w, cs[k], cs[i])) && Searched(w, cs, k + 1, r)
    ensures Searched(w, cs, k, r)
  {
    if r.Some? {
      var h, j :| 0 <= h < |cs| && 0 <= j < |cs| && FirstPointer(w, cs, k + 1, h, j) && r.value == cs[j].name;
      assert FirstPointer(w, cs, k, h, j);
    }
  }

  /**
   * A region has a primary iff some candidate that answers reports one that some candidate answers to; then it is
   * the first in fleet order for the first in fleet order, and it is what the alias is dialled as.
   */
  lemma ResolvesExactly(w: World, region: string)
    ensures var cs, r := Candidates(w.fleet, region), ResolveRegionPrimary(w, region);
            && (r.Some? <==> exists k, j :: 0 <= k < |cs| && 0 <= j < |cs| && PointsTo(w, cs[k], cs[j]))
            && (r.Some? ==> Finds(w, cs, 0, r.value))
            && GetPool(w, region + "-primary") == r
  {
    NoAliases(w, region);
    AsksFirst(w, region, 0);
    DialsPrimary(w, region);
    hide GetPool, AskFrom, Candidates, PointsTo, IsAlias;
    var cs, r := Candidates(w.fleet, region), ResolveRegionPrimary(w, region);
    assert r == AskFrom(w, cs, 0);
  }

  lemma DialsPrimary(w: World, region: string)
    ensures GetPool(w, region + "-primary") == ResolveRegionPrimary(w, region)
  {
    var cs, name := Candidates(w.fleet, region), region + "-primary";
    assert name[|name| - |SUFFIX|..] == SUFFIX && name[..|name| - |SUFFIX|] == region;
    NoAliases(w, region);
    AsksFirst(w, region, 0);
    var r := ResolveRegionPrimary(w, region);
    hide AskFrom, MatchFrom;
    assert r == AskFrom(w, cs, 0);
    if r.Some? {
      var k, j :| 0 <= k < |cs| && 0 <= j < |cs| && FirstPointer(w, cs, 0, k, j) && r.value == cs[j].name;
      CandidateKnown(w, region, j);
    }
  }

  /** Any other name is dialled as it is, if an instance has it that is no witness. */
  lemma OthersDialThemselves(w: World, name: string)
    requires !EndsWith(name, "-primary")
    ensures var known := exists n :: n in w.fleet && n.name == name && !n.isWitness;
            GetPool(w, name) == if known && w.dials(name) then Some(name) else None
  {
    if exists n :: n in w.fleet && n.name == name && !n.isWitness {
      var n :| n in w.fleet && n.name == name && !n.isWitness;
      var i :| 0 <= i < |w.fleet| && w.fleet[i] == n;
      assert Known(w, name);
    }
    if Known(w, name) {
      var i :| 0 <= i < |w.fleet| && w.fleet[i].name == name && !w.fleet[i].isWitness;
      assert w.fleet[i] in w.fleet;
    }
  }

  lemma CandidateKnown(w: World, region: string, k: nat)
    requires k < |Candidates(w.fleet, region)|
    ensures Known(w, Candidates(w.fleet, region)[k].name)
  {
    CandidatesAreNodes(w.fleet, region);
    var c := Candidates(w.fleet, region)[k];
    assert c in Candidates(w.fleet, region);
    var i :| 0 <= i < |w.fleet| && w.fleet[i] == c;
  }

  // ── Over a run: nothing is given up before everything was tried ──

  /** What asking one candidate came to: a failure, or a report and the server names judged against it so far. */
  datatype Attempt = Failed | Reported(primary: string, judged: seq<(string, string)>)

  datatype Search = Search(region: string, attempts: seq<Attempt>)

  /** What every resolution of a run has gone through. */
  function Noted(cfg: Config, st: State, log: map<nat, Search>, e: Event): map<nat, Search> {
    if !Enabled(cfg, st, e) then log
    else match e
      case Resolve(region) => log[st.next := Search(region, [])]
      case AskFailed(r) => if r in log then log[r := log[r].(attempts := log[r].attempts + [Failed])] else log
      case Asked(r, primary, _) =>
        if r in log then log[r := log[r].(attempts := log[r].attempts + [Reported(primary, [])])] else log
      case Judge(r) => if r in log then log[r := Judging(log[r], st.flying[r].c, st.flying[r].held.value)] else log
      case _ => log
  }

  function Judging(s: Search, c: string, name: string): Search {
    var n := |s.attempts|;
    if n == 0 || s.attempts[n - 1].Failed? then s
    else s.(attempts := s.attempts[..n - 1] + [s.attempts[n - 1].(judged := s.attempts[n - 1].judged + [(c, name)])])
  }

  function LogOf(cfg: Config, evs: seq<Event>): map<nat, Search> {
    if evs == [] then map[]
    else
      var before := evs[..|evs| - 1];
      Noted(cfg, Run(cfg, INITIAL, before), LogOf(cfg, before), evs[|evs| - 1])
  }

  /** The candidates' own names, in order, and none of them the one reported. */
  predicate Misses(cfg: Config, cs: seq<Node>, a: Attempt, n: nat)
    requires a.Reported?
  {
    && |a.judged| == n <= |cs|
    && forall j :: 0 <= j < n ==>
         a.judged[j].0 == cs[j].name && (a.judged[j].1 == "" || !cfg.same(a.judged[j].1, a.primary))
  }

  predicate Missed(cfg: Config, cs: seq<Node>, a: Attempt) {
    a.Reported? ==> Misses(cfg, cs, a, |cs|)
  }

  predicate AllMissed(cfg: Config, cs: seq<Node>, attempts: seq<Attempt>) {
    forall k :: 0 <= k < |attempts| ==> Missed(cfg, cs, attempts[k])
  }

  /** Every candidate was asked, in order, and none led to a primary. */
  predicate Exhausted(cfg: Config, s: Search) {
    var cs := Candidates(cfg.fleet, s.region);
    |s.attempts| == |cs| && AllMissed(cfg, cs, s.attempts)
  }

  /** A resolution in flight has tried every candidate before the one it is at. */
  predicate Searching(cfg: Config, f: Resolution, s: Search) {
    var cs, n := Candidates(cfg.fleet, f.region), |s.attempts|;
    && s.region == f.region && f.k < |cs|
    && (!f.Matching? ==> n == f.k && AllMissed(cfg, cs, s.attempts))
    && (f.Matching? ==>
          && n == f.k + 1 && AllMissed(cfg, cs, s.attempts[..f.k]) && f.j < |cs| && f.c == cs[f.j].name
          && s.attempts[f.k].Reported? && s.attempts[f.k].primary == f.primary
          && Misses(cfg, cs, s.attempts[f.k], f.j))
  }

  predicate Tracked(cfg: Config, st: State, log: map<nat, Search>) {
    forall r :: r in st.flying ==> r < st.next && r in log && Searching(cfg, st.flying[r], log[r])
  }

  /** A step of one resolution leaves the others where they are. */
  lemma OneMoves(cfg: Config, st: State, log: map<nat, Search>, st': State, log': map<nat, Search>, r: nat)
    requires Tracked(cfg, st, log) && st'.next >= st.next
    requires forall q :: q in st'.flying && q != r ==> q in st.flying && st'.flying[q] == st.flying[q]
    requires forall q :: q in log && q != r ==> q in log' && log'[q] == log[q]
    requires r in st'.flying ==> r < st'.next && r in log' && Searching(cfg, st'.flying[r], log'[r])
    ensures Tracked(cfg, st', log')
  {
    hide Searching;
  }

  lemma OneMore(cfg: Config, cs: seq<Node>, attempts: seq<Attempt>, a: Attempt)
    requires AllMissed(cfg, cs, attempts) && Missed(cfg, cs, a)
    ensures AllMissed(cfg, cs, attempts + [a])
  {
    hide Missed;
  }

  /** A failed attempt: on to the next candidate, or every one of them was tried. */
  lemma TriesNext(cfg: Config, st: State, r: nat, s: Search)
    requires r in st.flying && st.flying[r].region == s.region && |s.attempts| == st.flying[r].k + 1
    requires st.flying[r].k < |Candidates(cfg.fleet, s.region)|
    requires AllMissed(cfg, Candidates(cfg.fleet, s.region), s.attempts)
    ensures var st' := NextCandidate(cfg, st, r);
            && (r in st'.flying ==> Searching(cfg, st'.flying[r], s))
            && (r !in st'.flying ==> Exhausted(cfg, s))
  {
    hide Candidates, Missed;
  }

  lemma FailedTracks(cfg: Config, st: State, log: map<nat, Search>, r: nat)
    requires Tracked(cfg, st, log) && Enabled(cfg, st, AskFailed(r))
    ensures var st', log' := Step(cfg, st, AskFailed(r)), Noted(cfg, st, log, AskFailed(r));
            Tracked(cfg, st', log') && r in log' && (r !in st'.flying ==> Exhausted(cfg, log'[r]))
  {
    var s := log[r];
    assert Searching(cfg, st.flying[r], s);
    hide Candidates, Searching, AllMissed, Exhausted;
    OneMore(cfg, Candidates(cfg.fleet, s.region), s.attempts, Failed);
    TriesNext(cfg, st, r, s.(attempts := s.attempts + [Failed]));
    OneMoves(cfg, st, log, Step(cfg, st, AskFailed(r)), Noted(cfg, st, log, AskFailed(r)), r);
  }

  lemma AskedTracks(cfg: Config, st: State, log: map<nat, Search>, e: Event)
    requires Tracked(cfg, st, log) && e.Asked? && Enabled(cfg, st, e)
    ensures Tracked(cfg, Step(cfg, st, e), Noted(cfg, st, log, e))
  {
    var r := e.run;
    var st', log' := Step(cfg, st, e), Noted(cfg, st, log, e);
    var s := log[r];
    assert Searching(cfg, st.flying[r], s);
    hide Candidates, Missed;
    assert log'[r].attempts[..st.flying[r].k] == s.attempts;
    assert Searching(cfg, st'.flying[r], log'[r]);
    OneMoves(cfg, st, log, st', log', r);
  }

  /** A name that does not match: it is added to what was judged. */
  lemma JudgedMisses(cfg: Config, f: Resolution, s: Search)
    requires Searching(cfg, f, s) && f.Matching? && f.held.Some? && !Matches(cfg, f)
    ensures var s' := Judging(s, f.c, f.held.value); var cs := Candidates(cfg.fleet, f.region);
            && s'.region == s.region && |s'.attempts| == f.k + 1 && s'.attempts[..f.k] == s.attempts[..f.k]
            && s'.attempts[f.k].Reported? && s'.attempts[f.k].primary == f.primary
            && Misses(cfg, cs, s'.attempts[f.k], f.j + 1)
  {
    hide Candidates, AllMissed;
  }

  lemma JudgeTracks(cfg: Config, st: State, log: map<nat, Search>, r: nat)
    requires Tracked(cfg, st, log) && Enabled(cfg, st, Judge(r))
    ensures var st', log' := Step(cfg, st, Judge(r)), Noted(cfg, st, log, Judge(r));
            && Tracked(cfg, st', log') && r in log'
            && (r !in st'.flying ==> Matches(cfg, st.flying[r]) || Exhausted(cfg, log'[r]))
  {
    var f, s := st.flying[r], log[r];
    var cs := Candidates(cfg.fleet, f.region);
    var st', log' := Step(cfg, st, Judge(r)), Noted(cfg, st, log, Judge(r));
    assert Searching(cfg, f, s);
    if Matches(cfg, f) {
      hide Candidates, Searching;
      OneMoves(cfg, st, log, st', log', r);
    } else {
      JudgedMisses(cfg, f, s);
      MovesOn(cfg, st, log, r, log'[r]);
      hide Candidates, Searching, Exhausted, Misses, Missed, AllMissed, Judging;
      OneMoves(cfg, st, log, st', log', r);
    }
  }

  lemma MovesOn(cfg: Config, st: State, log: map<nat, Search>, r: nat, s: Search)
    requires r in st.flying && r in log && Searching(cfg, st.flying[r], log[r])
    requires st.flying[r].Matching? && st.flying[r].held.Some? && !Matches(cfg, st.flying[r])
    requires var f, cs := st.flying[r], Candidates(cfg.fleet, st.flying[r].region);
             && s.region == f.region && |s.attempts| == f.k + 1 && s.attempts[..f.k] == log[r].attempts[..f.k]
             && s.attempts[f.k].Reported? && s.attempts[f.k].primary == f.primary
             && Misses(cfg, cs, s.attempts[f.k], f.j + 1)
    ensures var st' := Judged(cfg, st, r);
            && (r in st'.flying ==> Searching(cfg, st'.flying[r], s))
            && (r !in st'.flying ==> Exhausted(cfg, s))
  {
    var f, cs := st.flying[r], Candidates(cfg.fleet, st.flying[r].region);
    hide Candidates, Matches;
    if f.j + 1 == |cs| {
      assert s.attempts == s.attempts[..f.k] + [s.attempts[f.k]];
      OneMore(cfg, cs, s.attempts[..f.k], s.attempts[f.k]);
      TriesNext(cfg, st, r, s);
    }
  }

  lemma StaysAtTracks(cfg: Config, st: State, log: map<nat, Search>, e: Event)
    requires Tracked(cfg, st, log) && Enabled(cfg, st, e) && (e.Connected? || e.Named?)
    ensures Tracked(cfg, Step(cfg, st, e), Noted(cfg, st, log, e))
    ensures forall r :: r in st.flying ==> r in Step(cfg, st, e).flying
  {
    var st', log' := Step(cfg, st, e), Noted(cfg, st, log, e);
    assert Searching(cfg, st.flying[e.run], log[e.run]);
    hide Candidates, Misses, AllMissed;
    assert Searching(cfg, st'.flying[e.run], log'[e.run]);
    hide Searching;
    OneMoves(cfg, st, log, st', log', e.run);
  }

  lemma ResolveTracks(cfg: Config, st: State, log: map<nat, Search>, e: Event)
    requires Tracked(cfg, st, log) && e.Resolve?
    ensures Tracked(cfg, Step(cfg, st, e), Noted(cfg, st, log, e))
    ensures forall r :: r in st.flying ==> r in Step(cfg, st, e).flying
  {
    var st', log' := Step(cfg, st, e), Noted(cfg, st, log, e);
    assert st.next !in st.flying;
    hide Candidates, Misses;
    OneMoves(cfg, st, log, st', log', st.next);
  }

  lemma QuietTracks(cfg: Config, st: State, log: map<nat, Search>, e: Event)
    requires Tracked(cfg, st, log) && Enabled(cfg, st, e)
    requires e.Resolve? || e.Connected? || e.Named? || e.Invalidate? || e.Tick?
    ensures Tracked(cfg, Step(cfg, st, e), Noted(cfg, st, log, e))
    ensures forall r :: r in st.flying ==> r in Step(cfg, st, e).flying
  {
    hide Tracked;
    if e.Connected? || e.Named? {
      StaysAtTracks(cfg, st, log, e);
    } else if e.Resolve? {
      ResolveTracks(cfg, st, log, e);
    } else {
      OthersTrack(cfg, st, log, e);
    }
  }

  lemma OthersTrack(cfg: Config, st: State, log: map<nat, Search>, e: Event)
    requires Tracked(cfg, st, log) && Enabled(cfg, st, e) && (e.Invalidate? || e.Tick?)
    ensures Tracked(cfg, Step(cfg, st, e), Noted(cfg, st, log, e)) && Step(cfg, st, e).flying == st.flying
  {
    hide Searching;
  }

  lemma StepTracks(cfg: Config, st: State, log: map<nat, Search>, e: Event)
    requires Tracked(cfg, st, log)
    ensures Tracked(cfg, Step(cfg, st, e), Noted(cfg, st, log, e))
  {
    hide Tracked, Step, Noted;
    if Enabled(cfg, st, e) {
      match e
      case AskFailed(r) => FailedTracks(cfg, st, log, r);
      case Asked(_, _, _) => AskedTracks(cfg, st, log, e);
      case Judge(r) => JudgeTracks(cfg, st, log, r);
      case _ => QuietTracks(cfg, st, log, e);
    } else {
      NothingMoves(cfg, st, log, e);
    }
  }

  lemma NothingMoves(cfg: Config, st: State, log: map<nat, Search>, e: Event)
    requires !Enabled(cfg, st, e)
    ensures Step(cfg, st, e) == st && Noted(cfg, st, log, e) == log
  {
  }

  lemma {:induction false} RunTracks(cfg: Config, evs: seq<Event>)
    ensures Tracked(cfg, Run(cfg, INITIAL, evs), LogOf(cfg, evs))
  {
    if evs != [] {
      var before := evs[..|evs| - 1];
      RunTracks(cfg, before);
      StepTracks(cfg, Run(cfg, INITIAL, before), LogOf(cfg, before), evs[|evs| - 1]);
    }
  }

  lemma LogSnoc(cfg: Config, evs: seq<Event>, e: Event)
    ensures LogOf(cfg, evs + [e]) == Noted(cfg, Run(cfg, INITIAL, evs), LogOf(cfg, evs), e)
  {
    assert (evs + [e])[..|evs|] == evs;
  }

  predicate AnsweredBy(st: State, st': State, f: Resolution) {
    && f.Matching? && |st'.answers| == |st.answers| + 1 && st'.answers[..|st.answers|] == st.answers
    && st'.answers[|st.answers|].region == f.region && st'.answers[|st.answers|].instance == f.c
  }

  lemma Leaves(cfg: Config, st: State, log: map<nat, Search>, e: Event, r: nat)
    requires Tracked(cfg, st, log) && r in st.flying && r !in Step(cfg, st, e).flying
    ensures var f, st', log' := st.flying[r], Step(cfg, st, e), Noted(cfg, st, log, e);
            || AnsweredBy(st, st', f)
            || (st'.answers == st.answers && r in log' && log'[r].region == f.region && Exhausted(cfg, log'[r]))
  {
    assert Searching(cfg, st.flying[r], log[r]);
    if Enabled(cfg, st, e) {
      hide Exhausted, Searching, Candidates, Tracked;
      OnlyThese(cfg, st, e, r);
      if e.AskFailed? {
        FailedTracks(cfg, st, log, r);
      } else {
        JudgeTracks(cfg, st, log, r);
      }
    }
  }

  lemma OnlyThese(cfg: Config, st: State, e: Event, r: nat)
    requires Enabled(cfg, st, e) && r in st.flying && r !in Step(cfg, st, e).flying
    ensures e == AskFailed(r) || e == Judge(r)
  {
    hide Candidates, Matches;
  }

  /**
   * A resolution is over with an answer, the candidate that has just matched; or without one, and then every candidate
   * of its region was asked, and each failed or reported a name no candidate's own name matched.
   */
  lemma GivesUpOnlyExhausted(cfg: Config, evs: seq<Event>, e: Event, r: nat)
    requires r in Run(cfg, INITIAL, evs).flying && r !in Run(cfg, INITIAL, evs + [e]).flying
    ensures var st, st' := Run(cfg, INITIAL, evs), Run(cfg, INITIAL, evs + [e]);
            var f, log := st.flying[r], LogOf(cfg, evs + [e]);
            || (&& f.Matching? && |st'.answers| == |st.answers| + 1 && st'.answers[..|st.answers|] == st.answers
                && st'.answers[|st.answers|].region == f.region && st'.answers[|st.answers|].instance == f.c)
            || (st'.answers == st.answers && r in log && log[r].region == f.region && Exhausted(cfg, log[r]))
  {
    RunSnoc(cfg, evs, e);
    LogSnoc(cfg, evs, e);
    RunTracks(cfg, evs);
    hide Tracked, Exhausted, Step, Noted;
    Leaves(cfg, Run(cfg, INITIAL, evs), LogOf(cfg, evs), e, r);
  }

  // ── The caches, by what they hold ──

  /** A fresh entry is the answer and nobody is asked; otherwise a resolution begins with the first candidate. */
  lemma ServedIffFresh(cfg: Config, evs: seq<Event>, region: string)
    ensures var st, st' := Run(cfg, INITIAL, evs), Run(cfg, INITIAL, evs + [Resolve(region)]);
            var asked := st'.flying != st.flying;
            && (asked <==> !(region in st.cache && st.now < st.cache[region].expiresAt)
                           && exists n :: n in cfg.fleet && Candidate(n, region))
            && (asked ==>
                  && st'.flying == st.flying[st.next := Connecting(region, st.now, 0)]
                  && st'.answers == st.answers)
            && (region in st.cache && st.now < st.cache[region].expiresAt ==>
                  && |st'.answers| == |st.answers| + 1 && st'.answers[..|st.answers|] == st.answers
                  && st'.answers[|st.answers|].region == region
                  && st'.answers[|st.answers|].instance == st.cache[region].instance)
  {
    var st := Run(cfg, INITIAL, evs);
    RunSnoc(cfg, evs, Resolve(region));
    Reachable(cfg, evs);
    CandidatesAreNodes(cfg.fleet, region);
    if region in st.cache { assert EntryTrue(cfg, st, region); }
    assert st.next !in st.flying;
    var cs := Candidates(cfg.fleet, region);
    if cs != [] { assert cs[0] in cs; }
  }

  /** Naming a region forgets that region; naming none, or the empty one, forgets all. Server names stay. */
  lemma ForgetsWhatIsNamed(cfg: Config, st: State, which: Option<string>, region: string)
    ensures var st' := Step(cfg, st, Invalidate(which));
            && (region in st'.cache <==>
                  region in st.cache && which.Some? && which.value != "" && which.value != region)
            && (region in st'.cache ==> st'.cache[region] == st.cache[region])
            && st'.names == st.names && st'.flying == st.flying && st'.answers == st.answers
  {
  }

  /** A name once learned is not asked for again: what a resolution comes to wait for is unknown at that time. */
  lemma AsksOnlyTheUnknown(cfg: Config, st: State, e: Event, r: nat)
    requires var st' := Step(cfg, st, e); r in st'.flying && Awaits(st'.flying[r])
    requires r in st.flying && st.flying[r] != Step(cfg, st, e).flying[r]
    ensures var f := Step(cfg, st, e).flying[r]; f.c !in Step(cfg, st, e).names
  {
  }
}
