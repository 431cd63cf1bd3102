/** The rate limiter in front of /mcp. */
module RateLimiter {
  // The fixed-window limiter and the timer that prunes its map: what is admitted in a window and in any minute, that
  // pruning is never seen in a verdict, and what the Retry-After header promises to a client that waits so long.

  import opened Text

  const WINDOW := 60000

  datatype Hit = Hit(count: nat, resetAt: int)

  type Hits = map<string, Hit>

  datatype Reply = Pass | Refuse(retryAfter: int)

  /** The parsed limit; None is a value that is not a number, which no comparison ever exceeds. */
  type Limit = Option<int>

  function CeilSeconds(ms: int): int {
    if ms % 1000 == 0 then ms / 1000 else ms / 1000 + 1
  }

  /** The entry a request is counted in: the key's own, or a new one when there is none or it has expired. */
  function Entry(hits: Hits, key: string, now: int): Hit {
    if key !in hits || now > hits[key].resetAt then Hit(0, now + WINDOW) else hits[key]
  }

  function Disabled(max: Limit): bool {
    max.Some? && max.value <= 0
  }

  function Count(max: Limit, hits: Hits, key: string, now: int): Hits {
    if Disabled(max) then hits
    else var e := Entry(hits, key, now); hits[key := Hit(e.count + 1, e.resetAt)]
  }

  function Answer(max: Limit, hits: Hits, key: string, now: int): Reply {
    var e := Entry(hits, key, now);
    if !Disabled(max) && max.Some? && e.count + 1 > max.value then Refuse(CeilSeconds(e.resetAt - now)) else Pass
  }

  function Pruned(hits: Hits, t: int): Hits {
    map k | k in hits && t <= hits[k].resetAt :: hits[k]
  }

  class Limiter {
    const max: Limit
    var rlHits: Hits

    constructor (max: Limit)
      ensures this.max == max && rlHits == map[]
    {
      this.max := max;
      rlHits := map[];
    }

    method OnRequest(ip: Option<string>, now: int) returns (reply: Reply)
      modifies this
      ensures var key := if ip.Some? then ip.value else "unknown";
              rlHits == Count(max, old(rlHits), key, now) && reply == Answer(max, old(rlHits), key, now)
    {
      if max.Some? && max.value <= 0 {
        return Pass;
      }
      var key := if ip.Some? then ip.value else "unknown";
      if key !in rlHits || now > rlHits[key].resetAt {
        rlHits := rlHits[key := Hit(0, now + WINDOW)];
      }
      var e := rlHits[key];
      e := e.(count := e.count + 1);
      rlHits := rlHits[key := e];
      if max.Some? && e.count > max.value {
        return Refuse(CeilSeconds(e.resetAt - now));
      }
      reply := Pass;
    }

    method OnPruneTimer(t: int)
      modifies this
      ensures rlHits == Pruned(old(rlHits), t)
    {
      var todo := rlHits.Keys;
      while todo != {}
        invariant todo <= old(rlHits).Keys
        invariant rlHits == map k | k in old(rlHits) && (k in todo || t <= old(rlHits)[k].resetAt) :: old(rlHits)[k]
        decreases todo
      {
        var k :| k in todo;
        todo := todo - {k};
        if t > rlHits[k].resetAt {
          rlHits := rlHits - {k};
        }
      }
    }
  }

  // ── Traces ──

  datatype Event = Request(key: string, at: int) | Prune(at: int)

  predicate Ordered(trace: seq<Event>) {
    forall i, j :: 0 <= i < j < |trace| ==> trace[i].at <= trace[j].at
  }

  function Init(trace: seq<Event>): seq<Event>
    requires trace != []
  {
    trace[..|trace| - 1]
  }

  function Last(trace: seq<Event>): Event
    requires trace != []
  {
    trace[|trace| - 1]
  }

  function After(max: Limit, hits: Hits, e: Event): Hits {
    match e
    case Request(key, at) => Count(max, hits, key, at)
    case Prune(at) => Pruned(hits, at)
  }

  function Run(max: Limit, trace: seq<Event>): Hits {
    if trace == [] then map[] else After(max, Run(max, Init(trace)), Last(trace))
  }

  function Passes(max: Limit, trace: seq<Event>, e: Event): bool {
    e.Request? && Answer(max, Run(max, trace), e.key, e.at) == Pass
  }

  /** Requests of `key` admitted with lo <= time <= hi. */
  function Admitted(max: Limit, trace: seq<Event>, key: string, lo: int, hi: int): nat {
    if trace == [] then 0 else
      var e := Last(trace);
      Admitted(max, Init(trace), key, lo, hi)
      + if Passes(max, Init(trace), e) && e.key == key && lo <= e.at <= hi then 1 else 0
  }

  function WithoutPrunes(trace: seq<Event>): seq<Event> {
    if trace == [] then [] else WithoutPrunes(Init(trace)) + if Last(trace).Prune? then [] else [Last(trace)]
  }

  // ── Pruning is invisible ──

  /** `a` is `b` without some entries that have expired by `now`. */
  predicate SameUpToExpired(a: Hits, b: Hits, now: int) {
    && (forall k :: k in a ==> k in b && a[k] == b[k])
    && (forall k :: k in b && k !in a ==> b[k].resetAt < now)
  }

  lemma Snoc(max: Limit, trace: seq<Event>, e: Event)
    ensures Init(trace + [e]) == trace && Last(trace + [e]) == e
    ensures Run(max, trace + [e]) == After(max, Run(max, trace), e)
  {
  }

  lemma {:induction false} WithoutPrunesOrdered(trace: seq<Event>)
    requires Ordered(trace)
    ensures var kept := WithoutPrunes(trace);
            Ordered(kept) && (kept != [] ==> trace != [] && Last(kept).at <= Last(trace).at)
  {
    if trace != [] {
      WithoutPrunesOrdered(Init(trace));
      var kept, e := WithoutPrunes(Init(trace)), Last(trace);
      forall i | 0 <= i < |kept| ensures kept[i].at <= e.at { assert kept[i].at <= Last(kept).at; }
    }
  }

  lemma CountKeepsSame(max: Limit, a: Hits, b: Hits, key: string, now: int)
    requires SameUpToExpired(a, b, now)
    ensures SameUpToExpired(Count(max, a, key, now), Count(max, b, key, now), now)
    ensures Answer(max, a, key, now) == Answer(max, b, key, now)
  {
  }

  lemma {:induction false} PruningHides(max: Limit, trace: seq<Event>, now: int)
    requires Ordered(trace) && (trace == [] || Last(trace).at <= now)
    ensures SameUpToExpired(Run(max, trace), Run(max, WithoutPrunes(trace)), now)
  {
    if trace != [] {
      var e, kept := Last(trace), WithoutPrunes(Init(trace));
      PruningHides(max, Init(trace), e.at);
      match e
      case Request(key, at) =>
        Snoc(max, kept, e);
        CountKeepsSame(max, Run(max, Init(trace)), Run(max, kept), key, at);
      case Prune(_) => assert kept + [] == kept;
    }
  }

  /** No later verdict depends on which prunes happened before it. */
  lemma PruneInvisible(max: Limit, trace: seq<Event>, key: string, now: int)
    requires Ordered(trace) && (trace == [] || Last(trace).at <= now)
    ensures Answer(max, Run(max, trace), key, now) == Answer(max, Run(max, WithoutPrunes(trace)), key, now)
  {
    PruningHides(max, trace, now);
  }

  lemma AdmittedSnoc(max: Limit, trace: seq<Event>, e: Event, key: string, lo: int, hi: int)
    ensures Admitted(max, trace + [e], key, lo, hi)
         == Admitted(max, trace, key, lo, hi) + if Passes(max, trace, e) && e.key == key && lo <= e.at <= hi then 1
           else 0
  {
    Snoc(max, trace, e);
  }

  lemma {:induction false} AdmittedWithoutPrunes(max: Limit, trace: seq<Event>, key: string, lo: int, hi: int)
    requires Ordered(trace)
    ensures Admitted(max, trace, key, lo, hi) == Admitted(max, WithoutPrunes(trace), key, lo, hi)
  {
    if trace != [] {
      var e, kept := Last(trace), WithoutPrunes(Init(trace));
      AdmittedWithoutPrunes(max, Init(trace), key, lo, hi);
      match e
      case Request(k, at) =>
        PruneInvisible(max, Init(trace), k, at);
        AdmittedSnoc(max, kept, e, key, lo, hi);
      case Prune(_) => assert kept + [] == kept;
    }
  }

  // ── Bounds ──

  function Min(a: int, b: int): int {
    if a < b then a else b
  }

  predicate NoPrunes(trace: seq<Event>) {
    forall i :: 0 <= i < |trace| ==> trace[i].Request?
  }

  /** Everything the current entry of `key` says about the requests admitted from `lo` on. */
  predicate WindowBounds(m: int, trace: seq<Event>, key: string, lo: int, hi: int) {
    var hits, n := Run(Some(m), trace), Admitted(Some(m), trace, key, lo, hi);
    if key !in hits then n == 0 else
      var start := hits[key].resetAt - WINDOW;
      && trace != [] && start <= Last(trace).at && hits[key].count >= 1
      && (lo > hits[key].resetAt ==> n == 0)
      && (lo >= start ==> n <= Min(hits[key].count, m))
      && (lo == start ==> n == Min(hits[key].count, m))
      && (lo >= start - WINDOW ==> n <= m + Min(hits[key].count, m))
  }

  lemma {:induction false} WindowsBound(m: int, trace: seq<Event>, key: string, lo: int, hi: int)
    requires m > 0 && Ordered(trace) && NoPrunes(trace) && (trace == [] || Last(trace).at <= hi)
    ensures WindowBounds(m, trace, key, lo, hi)
  {
    if trace != [] {
      WindowsBound(m, Init(trace), key, lo, hi);
      var hits, e := Run(Some(m), Init(trace)), Last(trace);
      if e.key == key && key in hits && e.at > hits[key].resetAt {
        assert lo >= e.at - WINDOW ==> lo >= hits[key].resetAt - WINDOW;
      }
    }
  }

  lemma {:induction false} AdmittedUpTo(max: Limit, trace: seq<Event>, key: string, lo: int, hi: int)
    returns (prefix: seq<Event>)
    requires Ordered(trace)
    ensures prefix <= trace && (prefix == [] || Last(prefix).at <= hi)
    ensures Admitted(max, trace, key, lo, hi) == Admitted(max, prefix, key, lo, hi)
  {
    if trace == [] || Last(trace).at <= hi {
      prefix := trace;
    } else {
      prefix := AdmittedUpTo(max, Init(trace), key, lo, hi);
    }
  }

  lemma {:induction false} WithoutPrunesPlain(trace: seq<Event>)
    ensures NoPrunes(WithoutPrunes(trace))
  {
    if trace != [] { WithoutPrunesPlain(Init(trace)); }
  }

  /** At most twice the limit passes in any closed interval of one minute, whatever is pruned when. */
  lemma AtMostTwicePerMinute(m: int, trace: seq<Event>, key: string, lo: int, hi: int)
    requires m > 0 && Ordered(trace) && hi - lo <= 60_000
    ensures Admitted(Some(m), trace, key, lo, hi) <= 2 * m
  {
    AdmittedWithoutPrunes(Some(m), trace, key, lo, hi);
    WithoutPrunesOrdered(trace);
    WithoutPrunesPlain(trace);
    var prefix := AdmittedUpTo(Some(m), WithoutPrunes(trace), key, lo, hi);
    WindowsBound(m, prefix, key, lo, hi);
  }

  /** Of the requests counted in the current window, exactly min(count, m) pass. */
  lemma ExactlyLimitPerWindow(m: int, trace: seq<Event>, key: string)
    requires m > 0 && Ordered(trace) && trace != [] && key in Run(Some(m), trace)
    ensures var e := Run(Some(m), trace)[key];
            Admitted(Some(m), trace, key, e.resetAt - 60_000, Last(trace).at) == Min(e.count, m) <= m
  {
    var e, now := Run(Some(m), trace)[key], Last(trace).at;
    PruningHides(Some(m), trace, now);
    WithoutPrunesOrdered(trace);
    WithoutPrunesPlain(trace);
    AdmittedWithoutPrunes(Some(m), trace, key, e.resetAt - WINDOW, now);
    WindowsBound(m, WithoutPrunes(trace), key, e.resetAt - WINDOW, now);
  }

  // ── No limit ──

  /** A burst of `n` requests of one client, all at once. */
  function Burst(key: string, n: nat): seq<Event> {
    seq(n, i => Request(key, 0))
  }

  lemma {:induction false} BurstCounts(m: int, key: string, n: nat)
    requires m > 0
    ensures var hits := Run(Some(m), Burst(key, n));
            if n == 0 then key !in hits else key in hits && hits[key].count == n && hits[key].resetAt >= 0
  {
    if n > 0 {
      assert Burst(key, n) == Burst(key, n - 1) + [Request(key, 0)];
      Snoc(Some(m), Burst(key, n - 1), Request(key, 0));
      BurstCounts(m, key, n - 1);
    }
  }

  /** No request is ever refused exactly when the limit is no number, or not above zero. */
  lemma NeverRefusesExactly(max: Limit)
    ensures (forall trace, key, now :: Answer(max, Run(max, trace), key, now) == Pass)
       <==> max == None || max.value <= 0
  {
    if max.Some? && max.value > 0 {
      BurstCounts(max.value, "a", max.value);
      assert Answer(max, Run(max, Burst("a", max.value)), "a", 0).Refuse?;
    }
  }

  // ── Retry-After (section 10.2.3 of RFC 9110) ──

  predicate Silent(trace: seq<Event>, key: string) {
    forall i :: 0 <= i < |trace| ==> trace[i].Request? ==> trace[i].key != key
  }

  /** Between two requests of a client, its entry stays as it is or is pruned once expired. */
  lemma {:induction false} EntryKept(max: Limit, before: seq<Event>, between: seq<Event>, key: string, now: int)
    requires key in Run(max, before) && Silent(between, key) && Ordered(between)
    requires between != [] ==> Last(between).at <= now
    ensures var e := Run(max, before)[key]; var hits := Run(max, before + between);
            if key in hits then hits[key] == e else e.resetAt < now
  {
    if between == [] {
      assert before + between == before;
    } else {
      assert Init(before + between) == before + Init(between) && Last(before + between) == Last(between);
      EntryKept(max, before, Init(between), key, Last(between).at);
    }
  }

  /** A refused client that stays silent is admitted iff it retries strictly after the window's reset. */
  lemma {:induction false} RetryIffAfterReset(m: int, before: seq<Event>, refused: Event, between: seq<Event>, t: int)
    requires m > 0 && refused.Request? && Answer(Some(m), Run(Some(m), before), refused.key, refused.at).Refuse?
    requires Silent(between, refused.key) && Ordered(before + [refused] + between)
    requires refused.at <= t && (between != [] ==> Last(between).at <= t)
    ensures var resetAt := Entry(Run(Some(m), before), refused.key, refused.at).resetAt;
            && refused.at <= resetAt
            && (Answer(Some(m), Run(Some(m), before + [refused] + between), refused.key, t) == Pass <==> t > resetAt)
  {
    var upto := before + [refused];
    assert Init(upto) == before && Last(upto) == refused;
    assert (upto + between)[|upto|..] == between;
    forall i, j | 0 <= i < j < |between| ensures between[i].at <= between[j].at {
      assert (upto + between)[|upto| + i].at <= (upto + between)[|upto| + j].at;
    }
    EntryKept(Some(m), upto, between, refused.key, t);
  }

  lemma {:induction false} WindowsAreMinutes(max: Limit, trace: seq<Event>, key: string)
    requires Ordered(trace) && key in Run(max, trace)
    ensures trace != [] && Run(max, trace)[key].resetAt <= Last(trace).at + 60_000
  {
    if key in Run(max, Init(trace)) { WindowsAreMinutes(max, Init(trace), key); }
  }

  /** Nobody is told to wait longer than a minute. */
  lemma RetryWithinMinute(max: Limit, trace: seq<Event>, key: string, now: int)
    requires Ordered(trace) && (trace == [] || Last(trace).at <= now) && Answer(max, Run(max, trace), key, now).Refuse?
    ensures 0 <= Answer(max, Run(max, trace), key, now).retryAfter <= 60
  {
    if key in Run(max, trace) { WindowsAreMinutes(max, trace, key); }
  }

  /**
   * Retrying strictly later than Retry-After always succeeds; retrying exactly then succeeds iff the time
   * left was not a whole number of seconds, for otherwise that instant is the reset itself.
   */
  lemma {:induction false} RetryAfterIsHonest(m: int, before: seq<Event>, refused: Event, between: seq<Event>, t: int)
    requires m > 0 && refused.Request? && Answer(Some(m), Run(Some(m), before), refused.key, refused.at).Refuse?
    requires Silent(between, refused.key) && Ordered(before + [refused] + between)
    requires refused.at <= t && (between != [] ==> Last(between).at <= t)
    ensures var wait := 1000 * Answer(Some(m), Run(Some(m), before), refused.key, refused.at).retryAfter;
            var left := Entry(Run(Some(m), before), refused.key, refused.at).resetAt - refused.at;
            var retry := Answer(Some(m), Run(Some(m), before + [refused] + between), refused.key, t);
            && (t > refused.at + wait ==> retry == Pass)
            && (t == refused.at + wait ==> (retry == Pass <==> left % 1000 != 0))
            && (t <= refused.at + wait - 1000 ==> retry != Pass)
  {
    RetryIffAfterReset(m, before, refused, between, t);
  }
}
