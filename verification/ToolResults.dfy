/** From queries, writes and pools to what the banner of a call says. */
module ToolResults {
  import opened Text
  import opened Notices
  import opened RowCap

  import Batches
  import PoolCache

  /** A query that has returned: what came back, under which options, and the pool it ran on. */
  datatype Query = Query(instance: string, recordsets: Option<seq<seq<string>>>, maxRows: nat,
                         noteTruncation: Option<bool>, userSql: bool, pool: PoolCache.Pool)

  function FirstRows(q: Query): seq<string> {
    if q.recordsets.Some? && q.recordsets.value != [] then q.recordsets.value[0] else []
  }

  /**
   * Tool calls and other asynchronous work being started, steps of the pool cache, queries returning, and writes
   * getting their pool, in any order.
   */
  datatype Happening =
    | Starts(parent: Task)
    | Forks(parent: Task)
    | Pools(event: PoolCache.Event)
    | Returns(task: Task, query: Query)
    | Writes(task: Task, instance: string, pool: PoolCache.Pool)

  predicate Works(h: Happening) {
    h.Returns? || h.Writes?
  }

  /** The instance as the caller named it, and the pool it was given for that. */
  function InstanceOf(h: Happening): string
    requires Works(h)
  {
    if h.Returns? then h.query.instance else h.instance
  }

  function PoolOf(h: Happening): PoolCache.Pool
    requires Works(h)
  {
    if h.Returns? then h.query.pool else h.pool
  }

  function PoolEvents(hs: seq<Happening>): seq<PoolCache.Event> {
    if hs == [] then [] else
      PoolEvents(hs[..|hs| - 1]) + if hs[|hs| - 1].Pools? then [hs[|hs| - 1].event] else []
  }

  /** The pool cache after what has happened. */
  function PoolsAfter(cfg: PoolCache.Config, hs: seq<Happening>): PoolCache.State {
    PoolCache.Run(cfg, PoolCache.INITIAL, PoolEvents(hs))
  }

  function ReasonFor(pools: PoolCache.State, p: PoolCache.Pool): Option<PoolCache.Reason> {
    if p in pools.cache.info then pools.cache.info[p].reason else None
  }

  function FallbackNote(pools: PoolCache.State, instance: string, p: PoolCache.Pool): seq<Notice> {
    if PoolCache.Truthy(ReasonFor(pools, p)) then [CatalogFallback(instance)] else []
  }

  /** What is noted, in this order: `finishQuery` first, then the catalog fallback. */
  function Noted(pools: PoolCache.State, h: Happening): seq<Notice> {
    match h
    case Returns(_, q) =>
      FinishQuery(q.instance, q.recordsets, q.maxRows, q.noteTruncation, q.userSql).1
        + FallbackNote(pools, q.instance, q.pool)
    case Writes(_, instance, p) => FallbackNote(pools, instance, p)
    case _ => []
  }

  /** The texts of notices are left to the program. */
  type Wording = (Notice, Happening) -> string

  function NotesOf(task: Task, ns: seq<Notice>, h: Happening, says: Wording): seq<Event> {
    if ns == [] then [] else
      NotesOf(task, ns[..|ns| - 1], h, says) + [Note(task, KeyOf(ns[|ns| - 1]), says(ns[|ns| - 1], h))]
  }

  function EventsOf(pools: PoolCache.State, h: Happening, says: Wording): seq<Event> {
    match h
    case Starts(parent) => [Call(parent)]
    case Forks(parent) => [Fork(parent)]
    case Pools(_) => []
    case _ => NotesOf(h.task, Noted(pools, h), h, says)
  }

  function AllEvents(cfg: PoolCache.Config, hs: seq<Happening>, says: Wording): seq<Event> {
    if hs == [] then [] else
      AllEvents(cfg, hs[..|hs| - 1], says) + EventsOf(PoolsAfter(cfg, hs[..|hs| - 1]), hs[|hs| - 1], says)
  }

  /** A key that some notice recorded for call `c` has. */
  predicate Recorded(evs: seq<Event>, c: Task, key: string) {
    Latest(Own(evs, c), key).Some?
  }

  predicate HasKey(ns: seq<Notice>, key: string) {
    exists m :: 0 <= m < |ns| && KeyOf(ns[m]) == key
  }

  /** The query or write `h`, coming after `before`, belongs to call `c`. */
  predicate BelongsTo(cfg: PoolCache.Config, before: seq<Happening>, h: Happening, says: Wording, c: Task) {
    Works(h) && CallOf(Born(AllEvents(cfg, before, says)), h.task) == Some(c)
  }

  /** It also noted something under this key. */
  predicate Contributes(cfg: PoolCache.Config, before: seq<Happening>, h: Happening, says: Wording, c: Task,
                        key: string) {
    BelongsTo(cfg, before, h, says, c) && HasKey(Noted(PoolsAfter(cfg, before), h), key)
  }

  predicate SomeContribute(cfg: PoolCache.Config, hs: seq<Happening>, says: Wording, c: Task, key: string) {
    exists i :: 0 <= i < |hs| && Contributes(cfg, hs[..i], hs[i], says, c, key)
  }

  lemma BornSnoc(evs: seq<Event>, e: Event)
    requires e.Note?
    ensures Born(evs + [e]) == Born(evs)
  {
    assert (evs + [e])[..|evs|] == evs;
  }

  lemma RecordedSnoc(evs: seq<Event>, e: Event, c: Task, key: string)
    ensures Recorded(evs + [e], c, key)
       <==> Recorded(evs, c, key) || (e.Note? && CallOf(Born(evs), e.task) == Some(c) && e.key == key)
  {
    assert (evs + [e])[..|evs|] == evs;
    if e.Note? && CallOf(Born(evs), e.task) == Some(c) {
      var own := Own(evs, c) + [Entry(e.key, e.text)];
      assert own[..|own| - 1] == Own(evs, c);
    } else {
      assert Own(evs, c) + [] == Own(evs, c);
    }
  }

  lemma NoteRecords(evs: seq<Event>, task: Task, n: Notice, text: string, c: Task, key: string)
    ensures Born(evs + [Note(task, KeyOf(n), text)]) == Born(evs)
    ensures Recorded(evs + [Note(task, KeyOf(n), text)], c, key)
       <==> Recorded(evs, c, key) || (CallOf(Born(evs), task) == Some(c) && HasKey([n], key))
  {
    hide Recorded, Born, CallOf, KeyOf;
    BornSnoc(evs, Note(task, KeyOf(n), text));
    RecordedSnoc(evs, Note(task, KeyOf(n), text), c, key);
    HasKeySnoc([], n, key);
    assert [] + [n] == [n];
  }

  /** The notices of one query: all for the call its task belongs to, each under its own key. */
  lemma {:induction false} NotesRecord(evs: seq<Event>, task: Task, ns: seq<Notice>, h: Happening, says: Wording,
                                       c: Task, key: string)
    ensures Born(evs + NotesOf(task, ns, h, says)) == Born(evs)
    ensures Recorded(evs + NotesOf(task, ns, h, says), c, key)
       <==> Recorded(evs, c, key) || (CallOf(Born(evs), task) == Some(c) && HasKey(ns, key))
  {
    if ns == [] {
      assert evs + [] == evs;
    } else {
      hide Born, CallOf, Recorded, HasKey, KeyOf;
      var init, n := ns[..|ns| - 1], ns[|ns| - 1];
      var before := evs + NotesOf(task, init, h, says);
      NotesRecord(evs, task, init, h, says, c, key);
      NoteRecords(before, task, n, says(n, h), c, key);
      assert evs + NotesOf(task, ns, h, says) == before + [Note(task, KeyOf(n), says(n, h))];
      HasKeySplits(ns, key);
    }
  }

  lemma HasKeySplits(ns: seq<Notice>, key: string)
    requires ns != []
    ensures HasKey(ns, key) <==> HasKey(ns[..|ns| - 1], key) || HasKey([ns[|ns| - 1]], key)
  {
    var init, n := ns[..|ns| - 1], ns[|ns| - 1];
    assert init + [n] == ns;
    HasKeySnoc(init, n, key);
    HasKeySnoc([], n, key);
    assert [] + [n] == [n];
    hide KeyOf;
  }

  lemma HasKeySnoc(ns: seq<Notice>, n: Notice, key: string)
    ensures HasKey(ns + [n], key) <==> HasKey(ns, key) || KeyOf(n) == key
  {
    if HasKey(ns, key) {
      var m :| 0 <= m < |ns| && KeyOf(ns[m]) == key;
      assert (ns + [n])[m] == ns[m];
    }
    assert (ns + [n])[|ns|] == n;
  }

  lemma SomeContributeSnoc(cfg: PoolCache.Config, hs: seq<Happening>, h: Happening, says: Wording, c: Task, key: string)
    ensures SomeContribute(cfg, hs + [h], says, c, key)
       <==> SomeContribute(cfg, hs, says, c, key) || Contributes(cfg, hs, h, says, c, key)
  {
    hide Contributes;
    var all := hs + [h];
    forall i | 0 <= i < |hs| ensures all[..i] == hs[..i] && all[i] == hs[i] {
    }
    assert all[..|hs|] == hs && all[|hs|] == h;
    if SomeContribute(cfg, hs, says, c, key) {
      var i :| 0 <= i < |hs| && Contributes(cfg, hs[..i], hs[i], says, c, key);
      assert Contributes(cfg, all[..i], all[i], says, c, key);
    }
    if Contributes(cfg, hs, h, says, c, key) { assert Contributes(cfg, all[..|hs|], all[|hs|], says, c, key); }
  }

  lemma HappeningRecords(evs: seq<Event>, pools: PoolCache.State, h: Happening, says: Wording, c: Task, key: string)
    ensures Recorded(evs + EventsOf(pools, h, says), c, key)
       <==> Recorded(evs, c, key) || (Works(h) && CallOf(Born(evs), h.task) == Some(c) && HasKey(Noted(pools, h), key))
  {
    hide Recorded, Noted, HasKey, Born, CallOf;
    match h
    case Starts(parent) => RecordedSnoc(evs, Call(parent), c, key);
    case Forks(parent) => RecordedSnoc(evs, Fork(parent), c, key);
    case Pools(_) => assert evs + [] == evs;
    case Returns(task, _) => NotesRecord(evs, task, Noted(pools, h), h, says, c, key);
    case Writes(task, _, _) => NotesRecord(evs, task, Noted(pools, h), h, says, c, key);
  }

  lemma NothingYet(cfg: PoolCache.Config, says: Wording, c: Task, key: string)
    ensures !Recorded(AllEvents(cfg, [], says), c, key) && !SomeContribute(cfg, [], says, c, key)
  {
  }

  lemma OneMoreHappening(cfg: PoolCache.Config, hs: seq<Happening>, h: Happening, says: Wording, c: Task, key: string)
    requires Recorded(AllEvents(cfg, hs, says), c, key) <==> SomeContribute(cfg, hs, says, c, key)
    ensures Recorded(AllEvents(cfg, hs + [h], says), c, key) <==> SomeContribute(cfg, hs + [h], says, c, key)
  {
    assert AllEvents(cfg, hs + [h], says) == AllEvents(cfg, hs, says) + EventsOf(PoolsAfter(cfg, hs), h, says) by {
      assert (hs + [h])[..|hs|] == hs;
    }
    hide Recorded, SomeContribute, Noted, HasKey, Born, CallOf, EventsOf, AllEvents, PoolsAfter;
    SomeContributeSnoc(cfg, hs, h, says, c, key);
    HappeningRecords(AllEvents(cfg, hs, says), PoolsAfter(cfg, hs), h, says, c, key);
  }

  /** Something is recorded for a call under a key exactly when one of its own queries or writes noted that key. */
  lemma {:induction false} RecordedByOwnWork(cfg: PoolCache.Config, hs: seq<Happening>, says: Wording, c: Task,
                                             key: string)
    ensures Recorded(AllEvents(cfg, hs, says), c, key) <==> SomeContribute(cfg, hs, says, c, key)
  {
    hide *;
    if hs == [] {
      NothingYet(cfg, says, c, key);
    } else {
      RecordedByOwnWork(cfg, hs[..|hs| - 1], says, c, key);
      OneMoreHappening(cfg, hs[..|hs| - 1], hs[|hs| - 1], says, c, key);
      assert hs[..|hs| - 1] + [hs[|hs| - 1]] == hs;
    }
  }

  // ── What the banner says ──

  predicate HasStore(cfg: PoolCache.Config, hs: seq<Happening>, says: Wording, c: Task) {
    c in Run(AllEvents(cfg, hs, says)).stores
  }

  /** The banner of call `c` has an entry under the key of `n`. */
  predicate Says(cfg: PoolCache.Config, hs: seq<Happening>, says: Wording, c: Task, n: Notice)
    requires HasStore(cfg, hs, says, c)
  {
    KeyOf(n) in Keys(Run(AllEvents(cfg, hs, says)).stores[c])
  }

  /** All instances are called by names of this set. */
  predicate UsesNames(hs: seq<Happening>, names: set<string>) {
    forall i :: 0 <= i < |hs| && Works(hs[i]) ==> InstanceOf(hs[i]) in names
  }

  predicate NotesSubject(pools: PoolCache.State, h: Happening, n: Notice) {
    exists m :: 0 <= m < |Noted(pools, h)| && SameSubject(Noted(pools, h)[m], n)
  }

  /** The query or write at step `i` belongs to call `c` and gave rise to the warning `n`. */
  predicate GaveRise(cfg: PoolCache.Config, hs: seq<Happening>, says: Wording, i: nat, c: Task, n: Notice) {
    i < |hs| && BelongsTo(cfg, hs[..i], hs[i], says, c) && NotesSubject(PoolsAfter(cfg, hs[..i]), hs[i], n)
  }

  lemma NotesItsInstance(pools: PoolCache.State, h: Happening, m: nat)
    requires m < |Noted(pools, h)|
    ensures Works(h) && Noted(pools, h)[m].instance == InstanceOf(h)
  {
  }

  lemma SameSubjectSameKey(a: Notice, b: Notice)
    requires SameSubject(a, b)
    ensures KeyOf(a) == KeyOf(b)
  {
  }

  lemma SubjectIsKey(pools: PoolCache.State, h: Happening, n: Notice, names: set<string>)
    requires NamesApart(names) && n.instance in names && Works(h) && InstanceOf(h) in names
    ensures HasKey(Noted(pools, h), KeyOf(n)) <==> NotesSubject(pools, h, n)
  {
    KeysTellApartExactly(names);
    forall m | 0 <= m < |Noted(pools, h)|
      ensures KeyOf(Noted(pools, h)[m]) == KeyOf(n) <==> SameSubject(Noted(pools, h)[m], n)
    {
      NotesItsInstance(pools, h, m);
      hide Noted;
      if SameSubject(Noted(pools, h)[m], n) { SameSubjectSameKey(Noted(pools, h)[m], n); }
    }
    hide Noted;
  }

  /** A warning is in a call's banner exactly when one of the call's own queries or writes gave rise to it. */
  lemma BannerSaysExactly(cfg: PoolCache.Config, hs: seq<Happening>, says: Wording, c: Task, n: Notice,
                          names: set<string>)
    requires NamesApart(names) && UsesNames(hs, names) && n.instance in names && HasStore(cfg, hs, says, c)
    ensures Says(cfg, hs, says, c, n) <==> exists i :: 0 <= i < |hs| && GaveRise(cfg, hs, says, i, c, n)
  {
    var evs := AllEvents(cfg, hs, says);
    BannerIsOwn(evs, c, Shapeless(""));
    ReplayExactly(Own(evs, c));
    RecordedByOwnWork(cfg, hs, says, c, KeyOf(n));
    forall i | 0 <= i < |hs|
      ensures Contributes(cfg, hs[..i], hs[i], says, c, KeyOf(n)) <==> GaveRise(cfg, hs, says, i, c, n)
    {
      if Works(hs[i]) { SubjectIsKey(PoolsAfter(cfg, hs[..i]), hs[i], n, names); }
    }
  }

  predicate WasCut(q: Query) {
    |FirstRows(q)| > q.maxRows && q.noteTruncation != Some(false)
  }

  predicate ManySets(q: Query) {
    q.userSql && q.recordsets.Some? && |q.recordsets.value| > 1
  }

  /** What gives rise to each warning. */
  lemma WhatIsNoted(pools: PoolCache.State, h: Happening, n: Notice)
    ensures NotesSubject(pools, h, n) <==>
              && Works(h) && n.instance == InstanceOf(h)
              && match n
                 case CatalogFallback(_) => PoolCache.Truthy(ReasonFor(pools, PoolOf(h)))
                 case RowCapNotice(_, m) => h.Returns? && m == h.query.maxRows && WasCut(h.query)
                 case ResultSetsNotice(_, _) => h.Returns? && ManySets(h.query)
  {
    match h
    case Returns(_, q) => QueryNotes(pools, h, n);
    case Writes(_, instance, p) =>
      if PoolCache.Truthy(ReasonFor(pools, p)) { assert Noted(pools, h)[0] == CatalogFallback(instance); }
    case _ =>
  }

  lemma QueryNotes(pools: PoolCache.State, h: Happening, n: Notice)
    requires h.Returns?
    ensures NotesSubject(pools, h, n) <==>
              && n.instance == h.query.instance
              && match n
                 case CatalogFallback(_) => PoolCache.Truthy(ReasonFor(pools, h.query.pool))
                 case RowCapNotice(_, m) => m == h.query.maxRows && WasCut(h.query)
                 case ResultSetsNotice(_, _) => ManySets(h.query)
  {
    var q := h.query;
    var cut := if WasCut(q) then [RowCapNotice(q.instance, q.maxRows)] else [];
    var more := if ManySets(q) then [ResultSetsNotice(q.instance, |q.recordsets.value|)] else [];
    var fallback := FallbackNote(pools, q.instance, q.pool);
    NotedIs(pools, h, cut, more);
    hide Noted, WasCut, ManySets, PoolCache.Truthy, ReasonFor;
    if WasCut(q) { assert Noted(pools, h)[0] == RowCapNotice(q.instance, q.maxRows); }
    if ManySets(q) { assert Noted(pools, h)[|cut|] == ResultSetsNotice(q.instance, |q.recordsets.value|); }
    if fallback != [] { assert Noted(pools, h)[|cut + more|] == CatalogFallback(q.instance); }
  }

  lemma NotedIs(pools: PoolCache.State, h: Happening, cut: seq<Notice>, more: seq<Notice>)
    requires h.Returns? && cut == if WasCut(h.query) then [RowCapNotice(h.query.instance, h.query.maxRows)] else []
    requires more == if ManySets(h.query) then [ResultSetsNotice(h.query.instance, |h.query.recordsets.value|)] else []
    ensures Noted(pools, h) == cut + more + FallbackNote(pools, h.query.instance, h.query.pool)
  {
  }

  // ── Fallbacks, told from how the pools were dialled ──

  /** Queries and writes run on pools that have been handed out. */
  predicate OnHandedOut(cfg: PoolCache.Config, hs: seq<Happening>) {
    forall i :: 0 <= i < |hs| && Works(hs[i]) ==> PoolOf(hs[i]) in PoolsAfter(cfg, hs[..i]).cache.info
  }

  /** The pool of the query or write at step `i` dialled the fallback catalog, after a failure with a message. */
  predicate OnFallback(cfg: PoolCache.Config, hs: seq<Happening>, i: nat)
    requires i < |hs| && Works(hs[i])
  {
    var made, p := PoolsAfter(cfg, hs[..i]).made, PoolOf(hs[i]);
    p in made && made[p].fellBack && made[p].first != ""
  }

  lemma ReasonIsTrue(cfg: PoolCache.Config, evs: seq<PoolCache.Event>, p: PoolCache.Pool)
    requires cfg.ttl >= 0 && p in PoolCache.Run(cfg, PoolCache.INITIAL, evs).cache.info
    ensures var pools := PoolCache.Run(cfg, PoolCache.INITIAL, evs);
            p in pools.made && (PoolCache.Truthy(ReasonFor(pools, p)) <==> PoolCache.Noticeable(pools.made[p]))
  {
    PoolCache.Reachable(cfg, evs);
  }

  /**
   * A call's banner warns of a fallback on an instance iff one of its own queries or writes there was given a pool
   * that had dialled the fallback catalog after a failure with a message.
   */
  lemma FallbackIsTold(cfg: PoolCache.Config, hs: seq<Happening>, says: Wording, c: Task, instance: string,
                       names: set<string>)
    requires cfg.ttl >= 0 && OnHandedOut(cfg, hs)
    requires NamesApart(names) && UsesNames(hs, names) && instance in names && HasStore(cfg, hs, says, c)
    ensures Says(cfg, hs, says, c, CatalogFallback(instance))
       <==> exists i :: 0 <= i < |hs| && BelongsTo(cfg, hs[..i], hs[i], says, c)
                        && InstanceOf(hs[i]) == instance && OnFallback(cfg, hs, i)
  {
    var n := CatalogFallback(instance);
    BannerSaysExactly(cfg, hs, says, c, n, names);
    forall i | 0 <= i < |hs|
      ensures GaveRise(cfg, hs, says, i, c, n)
         <==> BelongsTo(cfg, hs[..i], hs[i], says, c) && InstanceOf(hs[i]) == instance && OnFallback(cfg, hs, i)
    {
      WhatIsNoted(PoolsAfter(cfg, hs[..i]), hs[i], n);
      if Works(hs[i]) { ReasonIsTrue(cfg, PoolEvents(hs[..i]), PoolOf(hs[i])); }
      hide NotesSubject, ReasonFor, PoolCache.Run, AllEvents;
    }
  }

  // ── Cuts, told from what the batch produces ──

  /** And of a cut at a cap iff one of its own queries there was cut at that cap and does not report that itself. */
  lemma CutIsTold(cfg: PoolCache.Config, hs: seq<Happening>, says: Wording, c: Task, instance: string, maxRows: nat,
                  names: set<string>)
    requires NamesApart(names) && UsesNames(hs, names) && instance in names && HasStore(cfg, hs, says, c)
    ensures Says(cfg, hs, says, c, RowCapNotice(instance, maxRows))
       <==> exists i :: 0 <= i < |hs| && BelongsTo(cfg, hs[..i], hs[i], says, c) && hs[i].Returns?
                        && hs[i].query.instance == instance && hs[i].query.maxRows == maxRows && WasCut(hs[i].query)
  {
    var n := RowCapNotice(instance, maxRows);
    BannerSaysExactly(cfg, hs, says, c, n, names);
    forall i | 0 <= i < |hs|
      ensures GaveRise(cfg, hs, says, i, c, n)
         <==> BelongsTo(cfg, hs[..i], hs[i], says, c) && hs[i].Returns?
              && hs[i].query.instance == instance && hs[i].query.maxRows == maxRows && WasCut(hs[i].query)
    {
      WhatIsNoted(PoolsAfter(cfg, hs[..i]), hs[i], n);
    }
  }

  /** The query's rows are what came back for a batch that the row cap tells the truth about. */
  predicate Ran(q: Query, sqlText: string, batch: seq<Batches.Placed>, d: Batches.Data) {
    && !EndsOpen(sqlText) && Batches.WellPlaced(batch, sqlText)
    && q.recordsets == Some(Batches.Received(batch, sqlText, q.maxRows, q.userSql, d))
    && (Exempt(sqlText, q.userSql) || (NoRowCount(sqlText) && Batches.ResultFirst(Batches.Kinds(Batches.Stmts(batch)))))
  }

  /** Then it counts as cut iff the batch by itself produces more rows than the cap. */
  lemma CutMeansMoreRows(q: Query, sqlText: string, batch: seq<Batches.Placed>, d: Batches.Data)
    requires Ran(q, sqlText, batch, d)
    ensures WasCut(q)
       <==> |Batches.FirstSet(Batches.ByItself(batch, sqlText, d))| > q.maxRows && q.noteTruncation != Some(false)
  {
    Batches.ExactIfResultFirst(sqlText, q.maxRows, q.userSql, batch, d, q.instance, q.noteTruncation);
    hide Batches.Received, Batches.ByItself;
    assert FinishQuery(q.instance, q.recordsets, q.maxRows, q.noteTruncation, q.userSql).0.truncated
      <==> |FirstRows(q)| > q.maxRows;
  }
}
