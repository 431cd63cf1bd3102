/** Notices collected per tool call, each in its own asynchronous scope. */
module Notices {
  import opened Text

  datatype Notice =
    | CatalogFallback(instance: string)
    | RowCapNotice(instance: string, maxRows: nat)
    | ResultSetsNotice(instance: string, count: nat)

  function KeyOf(n: Notice): string {
    match n
    case CatalogFallback(i) => i
    case RowCapNotice(i, m) => "rowcap|" + i + "|" + Decimal(m)
    case ResultSetsNotice(i, _) => "resultsets|" + i
  }

  datatype Entry = Entry(key: string, text: string)

  /** A Map, ordered by first insertion. */
  type Store = seq<Entry>

  /** `Map.set`: an existing key keeps its place. */
  function Set(s: Store, key: string, text: string): Store {
    if s == [] then [Entry(key, text)]
    else if s[0].key == key then [Entry(key, text)] + s[1..]
    else [s[0]] + Set(s[1..], key, text)
  }

  /** The entry that changes is the first with the key, or a new last one. */
  lemma {:induction false} SetAt(s: Store, i: nat, key: string, text: string)
    requires i <= |s| && (forall j :: 0 <= j < i ==> s[j].key != key) && (i < |s| ==> s[i].key == key)
    ensures Set(s, key, text) == if i < |s| then s[i := Entry(key, text)] else s + [Entry(key, text)]
  {
    if i > 0 { SetAt(s[1..], i - 1, key, text); }
  }

  function Banner(s: Store): string {
    if s == [] then ""
    else "*** " + s[0].text + " ***" + (if |s| == 1 then "" else "\n\n" + Banner(s[1..]))
  }

  /** A tool result: content blocks, or something of another shape. */
  datatype Result = Content(blocks: seq<string>) | Shapeless(value: string)

  function Attached(s: Store, r: Result): Result {
    if s == [] || r.Shapeless? then r else Content([Banner(s)] + r.blocks)
  }

  // ── Asynchronous contexts ──

  /**
   * A chain of asynchronous work, numbered in the order of creation; task 0 is the server itself. Calls interleave
   * freely.
   */
  type Task = nat

  /**
   * `Call` runs a tool handler in a fresh scope, named after its task; `Fork` is any other asynchronous work started
   * by a task, which inherits the scope its parent runs in; `Note` records from wherever the code happens to run.
   */
  datatype Event = Call(parent: Task) | Fork(parent: Task) | Note(task: Task, key: string, text: string)

  datatype State = State(scopeOf: seq<Option<Task>>, stores: map<Task, Store>)

  const INITIAL := State([None], map[])

  function Step(st: State, e: Event): State {
    match e
    case Call(parent) =>
      if parent < |st.scopeOf| then State(st.scopeOf + [Some(|st.scopeOf|)], st.stores[|st.scopeOf| := []]) else st
    case Fork(parent) =>
      if parent < |st.scopeOf| then st.(scopeOf := st.scopeOf + [st.scopeOf[parent]]) else st
    case Note(task, key, text) =>
      if task < |st.scopeOf| && st.scopeOf[task].Some? && st.scopeOf[task].value in st.stores then
        var c := st.scopeOf[task].value;
        st.(stores := st.stores[c := Set(st.stores[c], key, text)])
      else st
  }

  function Run(evs: seq<Event>): State {
    if evs == [] then INITIAL else Step(Run(evs[..|evs| - 1]), evs[|evs| - 1])
  }

  class Scopes {
    var scopeOf: seq<Option<Task>>
    var stores: map<Task, Store>

    function View(): State
      reads this
    {
      State(scopeOf, stores)
    }

    constructor ()
      ensures View() == INITIAL
    {
      scopeOf, stores := [None], map[];
    }

    /** Runs a handler in a fresh scope. */
    method RunInScope(parent: Task) returns (task: Task)
      requires parent < |scopeOf|
      modifies this
      ensures View() == Step(old(View()), Call(parent))
      ensures task == |old(scopeOf)| < |scopeOf| && scopeOf[task] == Some(task)
    {
      task := |scopeOf|;
      scopeOf := scopeOf + [Some(task)];
      stores := stores[task := []];
    }

    method Start(parent: Task) returns (task: Task)
      requires parent < |scopeOf|
      modifies this
      ensures View() == Step(old(View()), Fork(parent))
      ensures task == |old(scopeOf)| < |scopeOf|
    {
      task := |scopeOf|;
      scopeOf := scopeOf + [scopeOf[parent]];
    }

    /** Records into the store of the scope the code runs in; a no-op outside every scope. */
    method Record(task: Task, key: string, text: string)
      requires task < |scopeOf|
      modifies this
      ensures View() == Step(old(View()), Note(task, key, text))
    {
      if scopeOf[task].Some? && scopeOf[task].value in stores {
        var c := scopeOf[task].value;
        var store := stores[c];
        var i := 0;
        while i < |store| && store[i].key != key
          invariant i <= |store| && forall j :: 0 <= j < i ==> store[j].key != key
        {
          i := i + 1;
        }
        SetAt(store, i, key, text);
        if i < |store| {
          store := store[i := Entry(key, text)];
        } else {
          store := store + [Entry(key, text)];
        }
        stores := stores[c := store];
      }
    }

    /** The result of a handler, as seen by whoever ran it. */
    method Attach(task: Task, r: Result) returns (out: Result)
      requires task < |scopeOf|
      ensures out == Attached(StoreOf(View(), task), r)
    {
      if scopeOf[task].None? || scopeOf[task].value !in stores {
        return r;
      }
      var store := stores[scopeOf[task].value];
      if |store| == 0 || r.Shapeless? {
        return r;
      }
      out := Content([Banner(store)] + r.blocks);
    }
  }

  /** The store of the scope a task runs in. */
  function StoreOf(st: State, task: Task): Store
    requires task < |st.scopeOf|
  {
    var c := st.scopeOf[task];
    if c.Some? && c.value in st.stores then st.stores[c.value] else []
  }

  // ── Whose notice it is, told from who started whom ──

  /** The events that created tasks 1, 2, ... */
  function Born(evs: seq<Event>): seq<Event> {
    if evs == [] then [] else
      var born, e := Born(evs[..|evs| - 1]), evs[|evs| - 1];
      if !e.Note? && e.parent <= |born| then born + [e] else born
  }

  /** The tool call a task belongs to: the nearest one among itself, its parent, its parent's parent, ... */
  function CallOf(born: seq<Event>, t: Task): Option<Task> {
    if t == 0 || t > |born| then None
    else match born[t - 1]
      case Call(_) => Some(t)
      case Fork(parent) => if parent < t then CallOf(born, parent) else None
      case Note(_, _, _) => None
  }

  /** The notices recorded on behalf of call `c` during a run, in order. */
  function Own(evs: seq<Event>, c: Task): seq<Entry> {
    if evs == [] then [] else
      var e, init := evs[|evs| - 1], evs[..|evs| - 1];
      Own(init, c) + if e.Note? && CallOf(Born(init), e.task) == Some(c) then [Entry(e.key, e.text)] else []
  }

  /** A store filled by one call running alone. */
  function Replay(notes: seq<Entry>): Store {
    if notes == [] then [] else Set(Replay(notes[..|notes| - 1]), notes[|notes| - 1].key, notes[|notes| - 1].text)
  }

  lemma {:induction false} CallOfStays(born: seq<Event>, e: Event, t: Task)
    requires t <= |born|
    ensures CallOf(born + [e], t) == CallOf(born, t)
  {
    if t > 0 && born[t - 1].Fork? && born[t - 1].parent < t { CallOfStays(born, e, born[t - 1].parent); }
  }

  /** The scope a task runs in is the call it belongs to, and every call that has begun has a store. */
  lemma {:induction false} ContextIsCall(evs: seq<Event>)
    ensures var st, born := Run(evs), Born(evs);
            && |st.scopeOf| == 1 + |born|
            && (forall t :: 0 <= t < |st.scopeOf| ==> st.scopeOf[t] == CallOf(born, t))
            && (forall t :: 0 <= t < |st.scopeOf| && st.scopeOf[t].Some? ==> st.scopeOf[t].value in st.stores)
            && (forall c :: c in st.stores ==> c < |st.scopeOf|)
  {
    if evs != [] {
      var init, e := evs[..|evs| - 1], evs[|evs| - 1];
      ContextIsCall(init);
      var st, born := Run(init), Born(init);
      if !e.Note? && e.parent <= |born| {
        forall t | 0 <= t <= |born| ensures CallOf(born + [e], t) == st.scopeOf[t] { CallOfStays(born, e, t); }
        assert (born + [e])[|born|] == e;
        if e.Fork? { CallOfStays(born, e, e.parent); }
      }
    }
  }

  lemma StoreStep(st: State, e: Event, c: Task)
    requires c in st.stores && c < |st.scopeOf|
    ensures c in Step(st, e).stores
    ensures Step(st, e).stores[c]
         == if e.Note? && e.task < |st.scopeOf| && st.scopeOf[e.task] == Some(c) then Set(st.stores[c], e.key, e.text)
            else st.stores[c]
  {
    hide Set;
  }

  lemma OwnStep(evs: seq<Event>, c: Task)
    requires evs != []
    ensures var init, e := evs[..|evs| - 1], evs[|evs| - 1];
            if e.Note? && CallOf(Born(init), e.task) == Some(c)
            then Replay(Own(evs, c)) == Set(Replay(Own(init, c)), e.key, e.text)
            else Own(evs, c) == Own(init, c)
  {
    var init, e := evs[..|evs| - 1], evs[|evs| - 1];
    hide CallOf, Born, Set;
    if e.Note? && CallOf(Born(init), e.task) == Some(c) {
      var own := Own(init, c) + [Entry(e.key, e.text)];
      assert own[..|own| - 1] == Own(init, c);
    } else {
      assert Own(init, c) + [] == Own(init, c);
    }
  }

  /** No call's store holds anything but its own notices, whatever the other calls do in between. */
  lemma {:induction false} Isolated(evs: seq<Event>, c: Task)
    requires c in Run(evs).stores
    ensures Run(evs).stores[c] == Replay(Own(evs, c))
  {
    var init, e := evs[..|evs| - 1], evs[|evs| - 1];
    ContextIsCall(init);
    if c in Run(init).stores {
      Isolated(init, c);
      StoreStep(Run(init), e, c);
      OwnStep(evs, c);
      hide Step, Set, Own, Replay, Born, CallOf;
    } else {
      NothingBefore(init, c);
      NewStoreIsEmpty(evs, c);
    }
  }

  lemma NewStoreIsEmpty(evs: seq<Event>, c: Task)
    requires evs != [] && c !in Run(evs[..|evs| - 1]).stores && c in Run(evs).stores
    requires Own(evs[..|evs| - 1], c) == []
    ensures Run(evs).stores[c] == [] && Own(evs, c) == []
  {
    hide CallOf, Born, Set;
  }

  lemma {:induction false} NothingBefore(evs: seq<Event>, c: Task)
    requires c !in Run(evs).stores
    ensures Own(evs, c) == []
  {
    if evs != [] {
      var init := evs[..|evs| - 1];
      NothingBefore(init, c);
      ContextIsCall(init);
    }
  }

  // ── What a banner holds ──

  /** The text last recorded under a key. */
  function Latest(notes: seq<Entry>, key: string): Option<string> {
    if notes == [] then None
    else if notes[|notes| - 1].key == key then Some(notes[|notes| - 1].text)
    else Latest(notes[..|notes| - 1], key)
  }

  /** The keys recorded, in order of first recording. */
  function FirstKeys(notes: seq<Entry>): seq<string> {
    if notes == [] then [] else
      var keys := FirstKeys(notes[..|notes| - 1]);
      if notes[|notes| - 1].key in keys then keys else keys + [notes[|notes| - 1].key]
  }

  function Keys(s: Store): seq<string> {
    seq(|s|, i requires 0 <= i < |s| => s[i].key)
  }

  predicate OneEach(s: Store) {
    forall i, j :: 0 <= i < j < |s| ==> s[i].key != s[j].key
  }

  lemma {:induction false} SetKeys(s: Store, key: string, text: string)
    ensures Keys(Set(s, key, text)) == if key in Keys(s) then Keys(s) else Keys(s) + [key]
  {
    if s != [] {
      assert Keys(s) == [s[0].key] + Keys(s[1..]);
      if s[0].key != key {
        SetKeys(s[1..], key, text);
        assert Keys(Set(s, key, text)) == [s[0].key] + Keys(Set(s[1..], key, text));
      } else {
        assert Keys(Set(s, key, text)) == [key] + Keys(s[1..]);
      }
    }
  }

  lemma {:induction false} SetTexts(s: Store, key: string, text: string)
    requires OneEach(s)
    ensures var s' := Set(s, key, text);
            OneEach(s') && forall i :: 0 <= i < |s'| ==>
              if s'[i].key == key then s'[i].text == text else i < |s| && s'[i] == s[i]
  {
    if s != [] && s[0].key != key {
      SetTexts(s[1..], key, text);
      SetKeys(s[1..], key, text);
      var s', t' := Set(s, key, text), Set(s[1..], key, text);
      assert s' == [s[0]] + t';
      forall i | 0 < i < |s'|
        ensures s'[i].key != s[0].key
        ensures if s'[i].key == key then s'[i].text == text else i < |s| && s'[i] == s[i]
      {
        assert s'[i] == t'[i - 1];
        if t'[i - 1].key != key { assert t'[i - 1] == s[1..][i - 1] == s[i]; }
      }
    }
  }

  /** Each key recorded appears exactly once, in order of first recording, with the text last recorded under it. */
  lemma {:induction false} ReplayExactly(notes: seq<Entry>)
    ensures OneEach(Replay(notes)) && Keys(Replay(notes)) == FirstKeys(notes)
    ensures forall i :: 0 <= i < |Replay(notes)| ==> Latest(notes, Replay(notes)[i].key) == Some(Replay(notes)[i].text)
    ensures forall k :: k in FirstKeys(notes) <==> Latest(notes, k).Some?
  {
    if notes != [] {
      var init, e := notes[..|notes| - 1], notes[|notes| - 1];
      ReplayExactly(init);
      SetKeys(Replay(init), e.key, e.text);
      SetTexts(Replay(init), e.key, e.text);
      var s := Replay(notes);
      forall i | 0 <= i < |s| ensures Latest(notes, s[i].key) == Some(s[i].text) {
        if s[i].key != e.key { assert s[i] == Replay(init)[i]; }
      }
    }
  }

  /** In `b`, from `off[i]` on, stands entry `i` between its asterisks, with an empty line between it and the next. */
  predicate LaidOut(b: string, s: Store, off: seq<nat>) {
    && |off| == |s| && (s != [] ==> off[0] == 0)
    && (forall i :: 0 <= i < |s| ==> TextAt(b, off[i], "*** " + s[i].text + " ***"))
    && (forall i :: 0 <= i < |s| - 1 ==> Follows(b, s, off, i))
    && |b| == if s == [] then 0 else off[|s| - 1] + |s[|s| - 1].text| + 8
  }

  predicate Follows(b: string, s: Store, off: seq<nat>, i: nat)
    requires i + 1 < |s| == |off|
  {
    off[i + 1] == off[i] + |s[i].text| + 10 && TextAt(b, off[i] + |s[i].text| + 8, "\n\n")
  }

  predicate TextAt(b: string, x: nat, t: string) {
    x + |t| <= |b| && b[x..x + |t|] == t
  }

  ghost predicate Shows(b: string, s: Store) {
    exists off: seq<nat> :: LaidOut(b, s, off)
  }

  lemma TextBehind(a: string, b: string, x: nat, t: string)
    requires TextAt(b, x, t)
    ensures TextAt(a + b, |a| + x, t)
  {
    assert (a + b)[|a| + x..|a| + x + |t|] == b[x..x + |t|];
  }

  lemma OneInFront(s: Store, head: string, tail: string, rest: seq<nat>, off: seq<nat>)
    requires |s| > 1 && LaidOut(tail, s[1..], rest) && |head| == |s[0].text| + 10
    requires TextAt(head + tail, 0, "*** " + s[0].text + " ***") && TextAt(head + tail, |s[0].text| + 8, "\n\n")
    requires |off| == |s| && off[0] == 0 && forall i :: 1 <= i < |s| ==> off[i] == |head| + rest[i - 1]
    ensures LaidOut(head + tail, s, off)
  {
    hide TextAt;
    forall i | 0 <= i < |s| ensures TextAt(head + tail, off[i], "*** " + s[i].text + " ***") {
      if i > 0 { TextBehind(head, tail, rest[i - 1], "*** " + s[1..][i - 1].text + " ***"); }
    }
    forall i | 0 <= i < |s| - 1 ensures Follows(head + tail, s, off, i) {
      assert off[i + 1] == |head| + rest[i];
      if i > 0 {
        assert Follows(tail, s[1..], rest, i - 1);
        TextBehind(head, tail, rest[i - 1] + |s[i].text| + 8, "\n\n");
      }
    }
    assert s[1..][|s| - 2] == s[|s| - 1] && off[|s| - 1] == |head| + rest[|s| - 2];
  }

  lemma BannerParts(s: Store)
    requires |s| > 1
    ensures var first := "*** " + s[0].text + " ***"; var b := first + "\n\n" + Banner(s[1..]);
            Banner(s) == b && TextAt(b, 0, first) && TextAt(b, |first|, "\n\n")
  {
    var first, tail := "*** " + s[0].text + " ***", Banner(s[1..]);
    assert first + ("\n\n" + tail) == first + "\n\n" + tail;
    var b := first + "\n\n" + tail;
    assert b[0..|first|] == first && b[|first|..|first| + 2] == "\n\n";
  }

  /** Nothing but the recorded texts, all of them, in the order of the store. */
  lemma {:induction false} BannerShows(s: Store) returns (off: seq<nat>)
    ensures LaidOut(Banner(s), s, off)
  {
    if s == [] {
      off := [];
    } else if |s| == 1 {
      off := [0];
      assert Banner(s) == "*** " + s[0].text + " ***";
    } else {
      var rest := BannerShows(s[1..]);
      hide Banner, TextAt;
      BannerParts(s);
      var head := "*** " + s[0].text + " ***" + "\n\n";
      assert |rest| == |s| - 1;
      off := [0] + seq(|rest|, i requires 0 <= i < |rest| => |head| + rest[i]);
      hide LaidOut;
      OneInFront(s, head, Banner(s[1..]), rest, off);
    }
  }

  /**
   * The banner of a call's result is made of exactly the notices recorded in its own scope: one per key,
   * the latest text, under any interleaving with other calls; with none, the result is left alone.
   */
  lemma BannerIsOwn(evs: seq<Event>, c: Task, r: Result)
    requires c in Run(evs).stores
    ensures var s := Run(evs).stores[c];
            && OneEach(s) && Keys(s) == FirstKeys(Own(evs, c))
            && (forall i :: 0 <= i < |s| ==> Latest(Own(evs, c), s[i].key) == Some(s[i].text))
            && (Attached(s, r) == r <==> Own(evs, c) == [] || r.Shapeless?)
            && (Own(evs, c) != [] && r.Content? ==>
                  var a := Attached(s, r);
                  a.Content? && |a.blocks| == |r.blocks| + 1 && a.blocks[1..] == r.blocks && Shows(a.blocks[0], s))
  {
    Isolated(evs, c);
    var own := Own(evs, c);
    ReplayExactly(own);
    var s := Run(evs).stores[c];
    if own != [] {
      assert Latest(own, own[|own| - 1].key).Some?;
      assert own[|own| - 1].key in FirstKeys(own);
      assert |Keys(s)| == |s|;
    }
    if s != [] && r.Content? {
      assert |Attached(s, r).blocks| == |r.blocks| + 1;
      var off := BannerShows(s);
    }
  }

  // ── Keys ──

  /** Notices overwrite each other only when they are the same warning about the same instance and cap. */
  predicate SameSubject(a: Notice, b: Notice) {
    match (a, b)
    case (CatalogFallback(i), CatalogFallback(j)) => i == j
    case (RowCapNotice(i, m), RowCapNotice(j, n)) => i == j && m == n
    case (ResultSetsNotice(i, _), ResultSetsNotice(j, _)) => i == j
    case _ => false
  }

  /** The last bar of a text that ends in digits tells where the number begins. */
  lemma LastBar(i: string, d: string, j: string, e: string)
    requires i + ("|" + d) == j + ("|" + e) && '|' !in e
    ensures |e| <= |d|
  {
    var t := i + ("|" + d);
    assert t[|i|] == '|';
    assert forall k :: |j| < k < |t| ==> t[k] == e[k - |j| - 1];
  }

  lemma RowCapKeys(i: string, m: nat, j: string, n: nat)
    ensures KeyOf(RowCapNotice(i, m)) == KeyOf(RowCapNotice(j, n)) <==> i == j && m == n
  {
    var d, e := Decimal(m), Decimal(n);
    var t, u := i + ("|" + d), j + ("|" + e);
    assert KeyOf(RowCapNotice(i, m)) == "rowcap|" + t && KeyOf(RowCapNotice(j, n)) == "rowcap|" + u;
    assert ("rowcap|" + t)[7..] == t && ("rowcap|" + u)[7..] == u;
    if t == u {
      LastBar(i, d, j, e);
      LastBar(j, e, i, d);
      assert t[..|i|] == i && u[..|j|] == j && t[|i| + 1..] == d && u[|j| + 1..] == e;
      DecimalReadsBack(m);
      DecimalReadsBack(n);
    }
  }

  lemma ResultSetsKeys(i: string, m: nat, j: string, n: nat)
    ensures KeyOf(ResultSetsNotice(i, m)) == KeyOf(ResultSetsNotice(j, n)) <==> i == j
  {
    assert KeyOf(ResultSetsNotice(i, m))[11..] == i && KeyOf(ResultSetsNotice(j, n))[11..] == j;
  }

  /** A fallback on an instance that is called what another kind of notice is keyed by. */
  predicate Poses(a: Notice, b: Notice) {
    a.CatalogFallback? && !b.CatalogFallback? && a.instance == KeyOf(b)
  }

  lemma KeysTellApart(a: Notice, b: Notice)
    ensures KeyOf(a) == KeyOf(b) <==> SameSubject(a, b) || Poses(a, b) || Poses(b, a)
  {
    match (a, b)
    case (RowCapNotice(i, m), RowCapNotice(j, n)) => RowCapKeys(i, m, j, n);
    case (ResultSetsNotice(i, m), ResultSetsNotice(j, n)) => ResultSetsKeys(i, m, j, n);
    case (RowCapNotice(_, _), ResultSetsNotice(_, _)) => assert KeyOf(a)[1] == 'o' && KeyOf(b)[1] == 'e';
    case (ResultSetsNotice(_, _), RowCapNotice(_, _)) => assert KeyOf(a)[1] == 'e' && KeyOf(b)[1] == 'o';
    case _ =>
  }

  /** No instance is called what a cut or dropped result sets on another one are keyed by. */
  ghost predicate NamesApart(names: set<string>) {
    && (forall i, j, m :: i in names && j in names ==> j != KeyOf(RowCapNotice(i, m)))
    && (forall i, j, n :: i in names && j in names ==> j != KeyOf(ResultSetsNotice(i, n)))
  }

  ghost predicate SubjectsApart(names: set<string>) {
    forall a: Notice, b: Notice :: a.instance in names && b.instance in names && KeyOf(a) == KeyOf(b)
      ==> SameSubject(a, b)
  }

  /** Exactly when no two different warnings about instances of these names can overwrite each other. */
  lemma KeysTellApartExactly(names: set<string>)
    ensures SubjectsApart(names) <==> NamesApart(names)
  {
    if NamesApart(names) {
      forall a: Notice, b: Notice | a.instance in names && b.instance in names && KeyOf(a) == KeyOf(b)
        ensures SameSubject(a, b)
      {
        KeysTellApart(a, b);
      }
    }
    if SubjectsApart(names) {
      forall i, j, m | i in names && j in names ensures j != KeyOf(RowCapNotice(i, m)) {
        assert KeyOf(CatalogFallback(j)) == j && !SameSubject(CatalogFallback(j), RowCapNotice(i, m));
      }
      forall i, j, n | i in names && j in names ensures j != KeyOf(ResultSetsNotice(i, n)) {
        assert KeyOf(CatalogFallback(j)) == j && !SameSubject(CatalogFallback(j), ResultSetsNotice(i, n));
      }
    }
  }
}
