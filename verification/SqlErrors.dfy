/** SQL error numbers of a driver error. */
module SqlErrors {
  import opened Text

  type Ref = nat

  /** An error object; a field that is missing or not an object is None. */
  datatype Node = Node(number: Option<int>, info: Option<Ref>, original: Option<Ref>, errors: seq<Option<Ref>>)

  type Graph = map<Ref, Node>

  const MAX_LINKS := 6

  function Kids(n: Node): seq<Option<Ref>> {
    [n.info, n.original] + n.errors
  }

  /** A heap has no dangling references. */
  predicate Closed(g: Graph) {
    forall x :: x in g ==> forall k :: 0 <= k < |Kids(g[x])| ==> Kids(g[x])[k].Some? ==> Kids(g[x])[k].value in g
  }

  predicate In(g: Graph, x: Option<Ref>) {
    x.Some? ==> x.value in g
  }

  predicate AllIn(g: Graph, xs: seq<Option<Ref>>) {
    forall k :: 0 <= k < |xs| ==> In(g, xs[k])
  }

  // ── The walk, as the order in which nodes are first seen ──

  function Visit(g: Graph, x: Option<Ref>, depth: nat, order: seq<Ref>): seq<Ref>
    requires Closed(g) && In(g, x) && depth <= MAX_LINKS + 1
    decreases MAX_LINKS + 1 - depth, 0
  {
    if x.None? || depth > MAX_LINKS || x.value in order then order
    else VisitAll(g, Kids(g[x.value]), depth + 1, order + [x.value])
  }

  function VisitAll(g: Graph, xs: seq<Option<Ref>>, depth: nat, order: seq<Ref>): seq<Ref>
    requires Closed(g) && AllIn(g, xs) && depth <= MAX_LINKS + 1
    decreases MAX_LINKS + 1 - depth, 1 + |xs|
  {
    if xs == [] then order
    else VisitAll(g, xs[1..], depth, Visit(g, xs[0], depth, order))
  }

  function Numbers(g: Graph, order: seq<Ref>): seq<int> {
    if order == [] then []
    else
      var x := order[|order| - 1];
      Numbers(g, order[..|order| - 1]) + if x in g && g[x].number.Some? then [g[x].number.value] else []
  }

  class Walker {
    const g: Graph
    var seen: set<Ref>
    var out: seq<int>
    ghost var order: seq<Ref>

    constructor (g: Graph)
      ensures this.g == g && order == [] && Consistent()
    {
      this.g := g;
      seen, out, order := {}, [], [];
    }

    ghost predicate Consistent()
      reads this
    {
      seen == (set x | x in order) && out == Numbers(g, order)
    }

    method Walk(x: Option<Ref>, depth: nat)
      requires Closed(g) && In(g, x) && depth <= MAX_LINKS + 1 && Consistent()
      modifies this
      ensures Consistent() && order == Visit(g, x, depth, old(order))
      decreases MAX_LINKS + 1 - depth, 1
    {
      if x.None? || depth > MAX_LINKS || x.value in seen {
        return;
      }
      var o := g[x.value];
      See(x.value, o);
      WalkAll(Kids(o), depth + 1);
    }

    method See(x: Ref, o: Node)
      requires x in g && g[x] == o && Consistent()
      modifies this
      ensures Consistent() && order == old(order) + [x]
    {
      seen := seen + {x};
      if o.number.Some? {
        out := out + [o.number.value];
      }
      assert (order + [x])[..|order|] == order;
      order := order + [x];
    }

    /** `info`, then `originalError`, then each of `errors`, in that order. */
    method WalkAll(xs: seq<Option<Ref>>, depth: nat)
      requires Closed(g) && AllIn(g, xs) && depth <= MAX_LINKS + 1 && Consistent()
      modifies this
      ensures Consistent() && order == VisitAll(g, xs, depth, old(order))
      decreases MAX_LINKS + 1 - depth, 2 + |xs|
    {
      if xs != [] {
        Walk(xs[0], depth);
        WalkAll(xs[1..], depth);
      }
    }
  }

  method SqlErrorNumbers(g: Graph, e: Option<Ref>) returns (numbers: seq<int>)
    requires Closed(g) && In(g, e)
    ensures numbers == Numbers(g, Visit(g, e, 0, []))
  {
    var w := new Walker(g);
    w.Walk(e, 0);
    numbers := w.out;
  }

  // ── Soundness on every graph ──

  /** `y` is at most `n` links below `x`. */
  predicate Within(g: Graph, x: Ref, y: Ref, n: nat)
    decreases n
  {
    x == y ||
    (n > 0 && x in g &&
     exists k :: 0 <= k < |Kids(g[x])| && Kids(g[x])[k].Some? && Within(g, Kids(g[x])[k].value, y, n - 1))
  }

  predicate Distinct(s: seq<Ref>) {
    forall i, j :: 0 <= i < j < |s| ==> s[i] != s[j]
  }

  lemma {:induction false} VisitSound(g: Graph, x: Option<Ref>, depth: nat, order: seq<Ref>)
    requires Closed(g) && In(g, x) && depth <= MAX_LINKS + 1 && Distinct(order)
    ensures Distinct(Visit(g, x, depth, order)) && order <= Visit(g, x, depth, order)
    ensures forall y :: y in Visit(g, x, depth, order) ==>
                          y in order || (x.Some? && depth <= MAX_LINKS && Within(g, x.value, y, MAX_LINKS - depth))
    decreases MAX_LINKS + 1 - depth, 0
  {
    if !(x.None? || depth > MAX_LINKS || x.value in order) {
      VisitAllSound(g, x.value, 0, depth + 1, order + [x.value]);
      assert Kids(g[x.value])[0..] == Kids(g[x.value]);
    }
  }

  lemma {:induction false} VisitAllSound(g: Graph, x: Ref, i: nat, depth: nat, order: seq<Ref>)
    requires Closed(g) && x in g && i <= |Kids(g[x])| && 1 <= depth <= MAX_LINKS + 1 && Distinct(order)
    requires AllIn(g, Kids(g[x])[i..])
    ensures var all := VisitAll(g, Kids(g[x])[i..], depth, order);
            Distinct(all) && order <= all
            && forall y :: y in all ==> y in order || Within(g, x, y, MAX_LINKS + 1 - depth)
    decreases MAX_LINKS + 1 - depth, 1 + |Kids(g[x])| - i
  {
    var xs := Kids(g[x])[i..];
    if xs != [] {
      assert xs[0] == Kids(g[x])[i] && xs[1..] == Kids(g[x])[i + 1..];
      var next := Visit(g, xs[0], depth, order);
      VisitSound(g, xs[0], depth, order);
      VisitAllSound(g, x, i + 1, depth, next);
    }
  }

  /** Each node counts at most once, and only nodes within six links of the error count. */
  lemma OnlyReachableOnce(g: Graph, e: Ref)
    requires Closed(g) && e in g
    ensures var order := Visit(g, Some(e), 0, []);
            Distinct(order) && (forall y :: y in order ==> Within(g, e, y, MAX_LINKS))
  {
    VisitSound(g, Some(e), 0, []);
  }

  // ── Completeness on trees ──

  /** Every node has a single address, the path of child positions leading to it: no sharing, no cycle. */
  predicate TreeShaped(g: Graph, addr: map<Ref, seq<nat>>) {
    forall x :: x in g ==> x in addr && forall k :: 0 <= k < |Kids(g[x])| && Kids(g[x])[k].Some? ==>
      Kids(g[x])[k].value in addr && addr[Kids(g[x])[k].value] == addr[x] + [k]
  }

  /** Nothing seen so far lies at or below address `a`. */
  predicate Unseen(g: Graph, addr: map<Ref, seq<nat>>, order: seq<Ref>, a: seq<nat>) {
    forall y :: y in order ==> y in addr && !(a <= addr[y])
  }

  lemma Below(a: seq<nat>, i: nat, b: seq<nat>)
    requires !(a <= b)
    ensures !(a + [i] <= b)
  {
    if |a| < |b| { assert b[..|a|] == b[..|a| + 1][..|a|] && (a + [i])[..|a|] == a; }
  }

  lemma {:induction false} VisitComplete(g: Graph, addr: map<Ref, seq<nat>>, x: Ref, depth: nat, order: seq<Ref>)
    requires Closed(g) && x in g && depth <= MAX_LINKS && TreeShaped(g, addr) && Unseen(g, addr, order, addr[x])
    ensures var all := Visit(g, Some(x), depth, order);
            && (forall y :: y in order ==> y in all)
            && (forall y :: y in all ==> y in addr && (y in order || addr[x] <= addr[y]))
            && (forall y :: Within(g, x, y, MAX_LINKS - depth) ==> y in all)
    decreases MAX_LINKS + 1 - depth, 0
  {
    var start := order + [x];
    assert x !in order;
    forall i: nat, y | y in start ensures y in addr && !(addr[x] + [i] <= addr[y]) {
      if y != x { Below(addr[x], i, addr[y]); }
    }
    assert Kids(g[x])[0..] == Kids(g[x]);
    VisitAllComplete(g, addr, x, 0, depth + 1, start);
  }

  /** Visiting child `i` and what is below it leaves every other child unseen. */
  lemma StillUnseen(g: Graph, addr: map<Ref, seq<nat>>, order: seq<Ref>, next: seq<Ref>, a: seq<nat>, i: nat, j: nat)
    requires i != j && Unseen(g, addr, order, a + [j])
    requires forall y :: y in next ==> y in addr && (y in order || a + [i] <= addr[y])
    ensures Unseen(g, addr, next, a + [j])
  {
    forall y | y in next ensures y in addr && !(a + [j] <= addr[y]) {
      if y !in order { SiblingsApart(a, i, j, addr[y]); }
    }
  }

  lemma {:induction false} VisitAllComplete(g: Graph, addr: map<Ref, seq<nat>>, x: Ref, i: nat, depth: nat,
                                            order: seq<Ref>)
    requires Closed(g) && x in g && i <= |Kids(g[x])| && 1 <= depth <= MAX_LINKS + 1 && TreeShaped(g, addr)
    requires AllIn(g, Kids(g[x])[i..])
    requires forall j: nat :: i <= j ==> Unseen(g, addr, order, addr[x] + [j])
    ensures var all := VisitAll(g, Kids(g[x])[i..], depth, order);
            && (forall y :: y in order ==> y in all)
            && (forall y :: y in all ==> y in addr && (y in order || addr[x] <= addr[y]))
            && (forall y, k :: (i <= k < |Kids(g[x])| && Kids(g[x])[k].Some? && depth <= MAX_LINKS
                                && Within(g, Kids(g[x])[k].value, y, MAX_LINKS - depth)) ==> y in all)
    decreases MAX_LINKS + 1 - depth, 1 + |Kids(g[x])| - i
  {
    var xs := Kids(g[x])[i..];
    if xs != [] {
      assert xs[0] == Kids(g[x])[i] && xs[1..] == Kids(g[x])[i + 1..];
      var next := Visit(g, xs[0], depth, order);
      if xs[0].Some? && depth <= MAX_LINKS {
        VisitComplete(g, addr, xs[0].value, depth, order);
        forall j: nat | i + 1 <= j ensures Unseen(g, addr, next, addr[x] + [j]) {
          StillUnseen(g, addr, order, next, addr[x], i, j);
        }
      }
      VisitAllComplete(g, addr, x, i + 1, depth, next);
      forall y | y in next && y !in order ensures addr[x] <= addr[y] {
        assert addr[x] <= addr[x] + [i] <= addr[y];
      }
    }
  }

  lemma SiblingsApart(a: seq<nat>, i: nat, j: nat, b: seq<nat>)
    requires i != j && a + [i] <= b
    ensures !(a + [j] <= b)
  {
    assert b[|a|] == (a + [i])[|a|] == i;
    assert (a + [j])[|a|] == j;
  }

  /** On a tree-shaped error the nodes that count are exactly those within six links, each once. */
  lemma TreeExactlySixLinks(g: Graph, addr: map<Ref, seq<nat>>, e: Ref, y: Ref)
    requires Closed(g) && e in g && TreeShaped(g, addr)
    ensures y in Visit(g, Some(e), 0, []) <==> Within(g, e, y, MAX_LINKS)
  {
    VisitComplete(g, addr, e, 0, []);
    VisitSound(g, Some(e), 0, []);
  }

  predicate HasNumber(g: Graph, y: Ref, n: int) {
    y in g && g[y].number == Some(n)
  }

  lemma {:induction false} NumbersFrom(g: Graph, order: seq<Ref>, n: int)
    ensures n in Numbers(g, order) <==> exists y :: y in order && HasNumber(g, y, n)
    ensures |Numbers(g, order)| <= |order|
  {
    if order != [] {
      var init, x := order[..|order| - 1], order[|order| - 1];
      NumbersFrom(g, init, n);
      assert order == init + [x];
      if HasNumber(g, x, n) { assert x in order; }
    }
  }

  /** The numbers come in the order in which their objects are first seen. */
  lemma {:induction false} NumbersInOrder(g: Graph, a: seq<Ref>, b: seq<Ref>)
    ensures Numbers(g, a + b) == Numbers(g, a) + Numbers(g, b)
  {
    if b == [] {
      assert a + b == a;
    } else {
      var init := b[..|b| - 1];
      NumbersInOrder(g, a, init);
      assert (a + b)[..|a + b| - 1] == a + init && (a + b)[|a + b| - 1] == b[|b| - 1];
      NumbersSnoc(g, a, init, if b[|b| - 1] in g && g[b[|b| - 1]].number.Some? then [g[b[|b| - 1]].number.value]
        else []);
    }
  }

  lemma NumbersSnoc(g: Graph, a: seq<Ref>, b: seq<Ref>, last: seq<int>)
    ensures (Numbers(g, a) + Numbers(g, b)) + last == Numbers(g, a) + (Numbers(g, b) + last)
  {
  }

  /** So the numbers returned for a tree-shaped error are exactly those of the nodes within six links. */
  lemma {:induction false} TreeNumbers(g: Graph, addr: map<Ref, seq<nat>>, e: Ref, n: int)
    requires Closed(g) && e in g && TreeShaped(g, addr)
    ensures n in Numbers(g, Visit(g, Some(e), 0, [])) <==> exists y :: Within(g, e, y, MAX_LINKS) && HasNumber(g, y, n)
  {
    NumbersFrom(g, Visit(g, Some(e), 0, []), n);
    forall y ensures y in Visit(g, Some(e), 0, []) <==> Within(g, e, y, MAX_LINKS) {
      TreeExactlySixLinks(g, addr, e, y);
    }
  }

  // ── Completeness wherever no way down is too long ──

  /** `y` is one link below `x`. */
  predicate Link(g: Graph, x: Ref, y: Ref) {
    x in g && Some(y) in Kids(g[x])
  }

  /** A way down that meets no object twice. */
  predicate SimplePath(g: Graph, p: seq<Ref>) {
    Distinct(p) && forall i :: 0 <= i < |p| - 1 ==> Link(g, p[i], p[i + 1])
  }

  /** No such way from `e` has more than six links; sharing and cycles are allowed. */
  ghost predicate Shallow(g: Graph, e: Ref) {
    forall p :: p != [] && p[0] == e && SimplePath(g, p) ==> |p| <= MAX_LINKS + 1
  }

  /** The objects being visited, from `e` down to the parent of `x`, all of them seen. */
  predicate OnStack(g: Graph, e: Ref, stack: seq<Ref>, x: Ref, order: seq<Ref>) {
    && SimplePath(g, stack) && (forall y :: y in stack ==> y in order)
    && (if stack == [] then x == e else stack[0] == e && Link(g, stack[|stack| - 1], x))
  }

  /** Every object newly in `all` has every object below it in `all`. */
  ghost predicate ClosedOff(g: Graph, order: seq<Ref>, all: seq<Ref>) {
    && (forall y :: y in order ==> y in all)
    && (forall y, z :: y in all && y !in order && Link(g, y, z) ==> z in all)
  }

  /** The link limit never strikes: the stack is a simple path, so an unseen child is within reach. */
  lemma {:induction false} VisitFull(g: Graph, e: Ref, stack: seq<Ref>, x: Ref, order: seq<Ref>)
    requires Closed(g) && x in g && Shallow(g, e) && |stack| <= MAX_LINKS + 1 && OnStack(g, e, stack, x, order)
    ensures var all := Visit(g, Some(x), |stack|, order); x in all && ClosedOff(g, order, all)
    decreases MAX_LINKS + 1 - |stack|, 0
  {
    if x !in order {
      StackGrows(g, e, stack, x, order);
      assert Kids(g[x])[0..] == Kids(g[x]);
      VisitAllFull(g, e, stack + [x], 0, order + [x]);
      ClosedOffFrom(g, x, order, VisitAll(g, Kids(g[x]), |stack| + 1, order + [x]));
    }
  }

  lemma StackGrows(g: Graph, e: Ref, stack: seq<Ref>, x: Ref, order: seq<Ref>)
    requires Shallow(g, e) && OnStack(g, e, stack, x, order) && x !in order
    ensures SimplePath(g, stack + [x]) && (stack + [x])[0] == e && |stack| <= MAX_LINKS
    ensures forall y :: y in stack + [x] ==> y in order + [x]
  {
    var p := stack + [x];
    forall i | 0 <= i < |p| - 1 ensures Link(g, p[i], p[i + 1]) {
      if i < |stack| - 1 { assert Link(g, stack[i], stack[i + 1]); }
    }
    assert SimplePath(g, p);
  }

  lemma ClosedOffFrom(g: Graph, x: Ref, order: seq<Ref>, all: seq<Ref>)
    requires ClosedOff(g, order + [x], all) && forall z :: Link(g, x, z) ==> z in all
    ensures ClosedOff(g, order, all) && x in all
  {
    assert x in order + [x];
    forall y | y in order ensures y in all { assert y in order + [x]; }
  }

  /** The children of the last object of the stack, from the `i`-th on. */
  lemma {:induction false} VisitAllFull(g: Graph, e: Ref, stack: seq<Ref>, i: nat, order: seq<Ref>)
    requires Closed(g) && Shallow(g, e) && 0 < |stack| <= MAX_LINKS + 1 && stack[0] == e && stack[|stack| - 1] in g
    requires SimplePath(g, stack) && forall y :: y in stack ==> y in order
    requires i <= |Kids(g[stack[|stack| - 1]])| && AllIn(g, Kids(g[stack[|stack| - 1]])[i..])
    ensures var x := stack[|stack| - 1]; var all := VisitAll(g, Kids(g[x])[i..], |stack|, order);
            && ClosedOff(g, order, all)
            && (forall k :: i <= k < |Kids(g[x])| && Kids(g[x])[k].Some? ==> Kids(g[x])[k].value in all)
    decreases MAX_LINKS + 1 - |stack|, 1 + |Kids(g[stack[|stack| - 1]])| - i
  {
    var kids := Kids(g[stack[|stack| - 1]]);
    var xs := kids[i..];
    if xs != [] {
      assert xs[0] == kids[i] && xs[1..] == kids[i + 1..];
      var next := Visit(g, xs[0], |stack|, order);
      if xs[0].Some? {
        assert xs[0] in kids;
        VisitFull(g, e, stack, xs[0].value, order);
      }
      assert ClosedOff(g, order, next);
      VisitAllFull(g, e, stack, i + 1, next);
    }
  }

  lemma {:induction false} BelowIsIn(g: Graph, all: seq<Ref>, x: Ref, y: Ref, n: nat)
    requires ClosedOff(g, [], all) && x in all && Within(g, x, y, n)
    ensures y in all
    decreases n
  {
    if x != y {
      var k :| 0 <= k < |Kids(g[x])| && Kids(g[x])[k].Some? && Within(g, Kids(g[x])[k].value, y, n - 1);
      assert Link(g, x, Kids(g[x])[k].value);
      BelowIsIn(g, all, Kids(g[x])[k].value, y, n - 1);
    }
  }

  /**
   * On every closed graph, cyclic or shared, in which no simple path from the error has more than six links: every
   * object below the error, however many links away, is seen.
   */
  lemma ShallowIsComplete(g: Graph, e: Ref, y: Ref, n: nat)
    requires Closed(g) && e in g && Shallow(g, e) && Within(g, e, y, n)
    ensures y in Visit(g, Some(e), 0, [])
  {
    var none: seq<Ref> := [];
    VisitFull(g, e, none, e, none);
    BelowIsIn(g, Visit(g, Some(e), 0, none), e, y, n);
  }

  ghost predicate IsBelow(g: Graph, e: Ref, y: Ref) {
    exists n: nat :: Within(g, e, y, n)
  }

  lemma SeenIffBelow(g: Graph, e: Ref, y: Ref)
    requires Closed(g) && e in g && Shallow(g, e)
    ensures y in Visit(g, Some(e), 0, []) <==> IsBelow(g, e, y)
  {
    if y in Visit(g, Some(e), 0, []) { OnlyReachableOnce(g, e); }
    if IsBelow(g, e, y) {
      var n: nat :| Within(g, e, y, n);
      ShallowIsComplete(g, e, y, n);
    }
  }

  /** So every number of an object below the error is returned, and no other. */
  lemma ShallowNumbers(g: Graph, e: Ref, n: int)
    requires Closed(g) && e in g && Shallow(g, e)
    ensures n in Numbers(g, Visit(g, Some(e), 0, [])) <==> exists y :: IsBelow(g, e, y) && HasNumber(g, y, n)
  {
    NumbersFrom(g, Visit(g, Some(e), 0, []), n);
    forall y ensures y in Visit(g, Some(e), 0, []) <==> IsBelow(g, e, y) {
      SeenIffBelow(g, e, y);
    }
  }

  lemma {:induction false} DistinctFits(p: seq<Ref>, s: set<Ref>)
    requires Distinct(p) && forall y :: y in p ==> y in s
    ensures |p| <= |s|
  {
    if p != [] {
      var last := p[|p| - 1];
      DistinctFits(p[..|p| - 1], s - {last});
    }
  }

  /** In particular, nothing is missed in an error of at most seven objects, whatever their links. */
  lemma SevenObjectsAreShallow(g: Graph, e: Ref)
    requires Closed(g) && |g| <= MAX_LINKS + 1 && e in g
    ensures Shallow(g, e)
  {
    forall p | p != [] && p[0] == e && SimplePath(g, p) ensures |p| <= MAX_LINKS + 1 {
      forall y | y in p ensures y in g.Keys {
        var i :| 0 <= i < |p| && p[i] == y;
        if i > 0 { assert Link(g, p[i - 1], p[i - 1 + 1]); }
      }
      DistinctFits(p, g.Keys);
    }
  }

  // ── Order ──

  /** An error with nothing below its links. */
  predicate Leaves(g: Graph, xs: seq<Option<Ref>>) {
    forall k :: 0 <= k < |xs| ==> xs[k].Some? && xs[k].value in g && Kids(g[xs[k].value]) == [None, None]
  }

  function Values(xs: seq<Option<Ref>>): seq<Ref>
    requires forall k :: 0 <= k < |xs| ==> xs[k].Some?
  {
    seq(|xs|, k requires 0 <= k < |xs| => xs[k].value)
  }

  predicate AllNew(xs: seq<Option<Ref>>, order: seq<Ref>) {
    && (forall k :: 0 <= k < |xs| ==> xs[k].Some? && xs[k].value !in order)
    && (forall j, k :: 0 <= j < k < |xs| ==> xs[j] != xs[k])
  }

  lemma LeafVisit(g: Graph, x: Ref, depth: nat, order: seq<Ref>)
    requires Closed(g) && x in g && Kids(g[x]) == [None, None] && depth <= MAX_LINKS && x !in order
    ensures Visit(g, Some(x), depth, order) == order + [x]
  {
    TwoKids(g, Kids(g[x]), None, None, depth + 1, order + [x]);
  }

  lemma {:induction false} LeavesInOrder(g: Graph, xs: seq<Option<Ref>>, depth: nat, order: seq<Ref>)
    requires Closed(g) && depth <= MAX_LINKS && Leaves(g, xs) && AllNew(xs, order)
    ensures AllIn(g, xs) && VisitAll(g, xs, depth, order) == order + Values(xs)
  {
    if xs == [] {
      assert order + Values(xs) == order;
    } else {
      LeafVisit(g, xs[0].value, depth, order);
      assert order + [xs[0].value] + Values(xs[1..]) == order + Values(xs);
      LeavesInOrder(g, xs[1..], depth, order + [xs[0].value]);
    }
  }

  /** An error whose links lead to errors of their own comes first, then `info`, `originalError`, `errors` in order. */
  lemma LinksInOrder(g: Graph, e: Ref)
    requires Closed(g) && e in g && g[e].info.Some? && g[e].original.Some?
    requires forall k :: 0 <= k < |g[e].errors| ==> g[e].errors[k].Some?
    requires Leaves(g, [g[e].info, g[e].original] + g[e].errors)
             && AllNew([g[e].info, g[e].original] + g[e].errors, [e])
    ensures Visit(g, Some(e), 0, []) == [e, g[e].info.value, g[e].original.value] + Values(g[e].errors)
  {
    var xs := [g[e].info, g[e].original] + g[e].errors;
    var none: seq<Ref> := [];
    assert none + [e] == [e];
    LeavesInOrder(g, xs, 1, [e]);
    assert [e] + Values(xs) == [e, g[e].info.value, g[e].original.value] + Values(g[e].errors);
  }

  // ── Sharing ──

  /** A chain 0 → 1 → ... → 7 with a second link from 0 straight to 6: node 7 is two links away. */
  function Shortcut(): Graph {
    map[0 := Node(Some(0), Some(1), Some(6), []), 1 := Node(Some(1), Some(2), None, []),
      2 := Node(Some(2), Some(3), None, []), 3 := Node(Some(3), Some(4), None, []),
      4 := Node(Some(4), Some(5), None, []), 5 := Node(Some(5), Some(6), None, []),
      6 := Node(Some(6), Some(7), None, []), 7 := Node(Some(7), None, None, [])]
  }

  lemma ShortcutLinks(k: nat)
    requires k <= 6
    ensures Closed(Shortcut()) && Kids(Shortcut()[k]) == if k == 0 then [Some(1), Some(6)] else [Some(k + 1), None]
  {
  }

  lemma TwoKids(g: Graph, xs: seq<Option<Ref>>, a: Option<Ref>, b: Option<Ref>, depth: nat, order: seq<Ref>)
    requires Closed(g) && AllIn(g, xs) && xs == [a, b] && depth <= MAX_LINKS + 1
    ensures In(g, a) && In(g, b) && VisitAll(g, xs, depth, order) == Visit(g, b, depth, Visit(g, a, depth, order))
  {
    assert xs[0] == a && xs[1] == b;
    var rest := xs[1..];
    assert rest == [b] && rest[1..] == [];
    hide Visit;
    var once := Visit(g, a, depth, order);
    var twice := Visit(g, b, depth, once);
    assert VisitAll(g, rest[1..], depth, twice) == twice;
    assert VisitAll(g, rest, depth, once) == twice;
  }

  /** From node `k` the walk goes on to node `k + 1`, as far as it may. */
  lemma ChainStep(k: nat, order: seq<Ref>)
    requires 1 <= k <= 6 && forall y :: y in order ==> y < k
    ensures Closed(Shortcut()) && In(Shortcut(), Some(k + 1))
    ensures Visit(Shortcut(), Some(k), k, order)
         == if k < 6 then Visit(Shortcut(), Some(k + 1), k + 1, order + [k]) else order + [k]
  {
    ShortcutLinks(k);
    hide Closed, Kids, Shortcut;
    TwoKids(Shortcut(), Kids(Shortcut()[k]), Some(k + 1), None, k + 1, order + [k]);
  }

  lemma {:induction false} ChainVisit(k: nat, order: seq<Ref>)
    requires Closed(Shortcut()) && 1 <= k <= 6 && forall y :: y in order ==> y < k
    ensures Visit(Shortcut(), Some(k), k, order) == order + seq(7 - k, i requires 0 <= i => i + k)
    decreases 7 - k
  {
    ChainStep(k, order);
    hide Closed, Shortcut, Visit;
    if k < 6 { ChainVisit(k + 1, order + [k]); }
  }

  lemma LongWayRound()
    requires Closed(Shortcut())
    ensures var order := Visit(Shortcut(), Some(1), 1, [0]); 6 in order && 7 !in order
  {
    ChainVisit(1, [0]);
    var order := Visit(Shortcut(), Some(1), 1, [0]);
    assert order[6] == 6;
    hide *;
  }

  lemma TwoLinksAway()
    requires Closed(Shortcut())
    ensures Within(Shortcut(), 0, 7, 2)
  {
    var g := Shortcut();
    ShortcutLinks(0);
    ShortcutLinks(6);
    hide Shortcut, Kids;
    assert Kids(g[6])[0] == Some(7) && Within(g, 7, 7, 0) && Within(g, 6, 7, 1);
    assert Kids(g[0])[1] == Some(6);
  }

  /** With sharing the walk is not complete: the long way round uses up the links and marks node 6 as seen. */
  lemma SharingSkips()
    ensures var g := Shortcut();
            Closed(g) && Within(g, 0, 7, 2) && 7 !in Visit(g, Some(0), 0, [])
  {
    var g := Shortcut();
    ShortcutLinks(0);
    TwoLinksAway();
    LongWayRound();
    hide Closed, Kids, Shortcut, Within;
    TwoKids(g, Kids(g[0]), Some(1), Some(6), 1, [0]);
    var none: seq<Ref> := [];
    assert none + [0] == [0];
  }
}
