/** The sliding-window rate limiter of the capacity registry: a table that purges itself while it decides, and yet
    decides every call as a limiter that never forgets would. */
module RateLimiter {

  type Table = map<string, seq<real>>

  datatype Call = Call(key: string, now: real)

  const RATE_W: real := 60.0

  // ---------------------------------------------------------------- one call, on values

  /** `while q and now - q[0] > RATE_W: q.pop(0)`. */
  function Popped(q: seq<real>, now: real): seq<real> {
    if q != [] && now - q[0] > RATE_W then Popped(q[1..], now) else q
  }

  function Queue(t: Table, key: string): seq<real> { if key in t then t[key] else [] }

  /** The keys whose last accepted call is out of the window, or that hold none. */
  predicate Idle(q: seq<real>, now: real) { q == [] || now - q[|q| - 1] > RATE_W }

  function Accepts(limit: int, t: Table, c: Call): bool { |Popped(Queue(t, c.key), c.now)| < limit }

  /** The table without the idle keys, the caller's own apart. */
  function Purged(t: Table, key: string, now: real): Table {
    map k | k in t && (k == key || !Idle(t[k], now)) :: t[k]
  }

  function Next(limit: int, t: Table, c: Call): Table {
    var kept := Purged(t, c.key, c.now);
    var q := Popped(Queue(t, c.key), c.now);
    kept[c.key := if |q| < limit then q + [c.now] else q]
  }

  // ---------------------------------------------------------------- runs, and the limiter that keeps everything

  function After(limit: int, calls: seq<Call>): Table {
    if calls == [] then map[] else Next(limit, After(limit, calls[..|calls| - 1]), calls[|calls| - 1])
  }

  /** The instants at which calls on `key` were accepted, all of them, in order. */
  function Accepted(limit: int, calls: seq<Call>, key: string): seq<real> {
    if calls == [] then []
    else
      var pre, c := calls[..|calls| - 1], calls[|calls| - 1];
      Accepted(limit, pre, key) + (if c.key == key && Accepts(limit, After(limit, pre), c) then [c.now] else [])
  }

  function CountFrom(ts: seq<real>, from: real): nat {
    if ts == [] then 0 else CountFrom(ts[..|ts| - 1], from) + (if ts[|ts| - 1] >= from then 1 else 0)
  }

  /** The decision of a limiter that looks back over every accepted call. */
  function FullAccepts(limit: int, history: seq<real>, now: real): bool {
    CountFrom(history, now - RATE_W) < limit
  }

  /** The clock never goes back. */
  predicate Ordered(calls: seq<Call>) { forall i, j | 0 <= i < j < |calls| :: calls[i].now <= calls[j].now }

  // ---------------------------------------------------------------- what the table remembers

  predicate Rising(ts: seq<real>) { forall i, j | 0 <= i < j < |ts| :: ts[i] <= ts[j] }

  /** `q` is the history without a beginning that is out of every window from `clock` on. */
  ghost predicate Remembers(q: seq<real>, history: seq<real>, clock: real) {
    && |q| <= |history| && q == history[|history| - |q|..]
    && forall i | 0 <= i < |history| - |q| :: clock - history[i] > RATE_W
  }

  lemma {:induction false} CountFromAppend(a: seq<real>, b: seq<real>, from: real)
    ensures CountFrom(a + b, from) == CountFrom(a, from) + CountFrom(b, from)
  {
    if b == [] {
      assert a + b == a;
    } else {
      CountFromAppend(a, b[..|b| - 1], from);
      assert (a + b)[..|a + b| - 1] == a + b[..|b| - 1];
    }
  }

  lemma {:induction false} CountFromEnds(ts: seq<real>, from: real)
    ensures (forall i | 0 <= i < |ts| :: ts[i] >= from) ==> CountFrom(ts, from) == |ts|
    ensures (forall i | 0 <= i < |ts| :: ts[i] < from) ==> CountFrom(ts, from) == 0
  {
    if ts != [] { CountFromEnds(ts[..|ts| - 1], from); }
  }

  /** Popping drops a beginning that is out of the window and leaves what is in it. */
  lemma {:induction false} PoppedShape(q: seq<real>, now: real)
    requires Rising(q)
    ensures var p := Popped(q, now);
            && |p| <= |q| && p == q[|q| - |p|..]
            && (forall i | 0 <= i < |q| - |p| :: now - q[i] > RATE_W)
            && (forall i | 0 <= i < |p| :: now - p[i] <= RATE_W)
  {
    if q != [] && now - q[0] > RATE_W {
      PoppedShape(q[1..], now);
      forall i | 0 <= i < |q| - |Popped(q, now)| ensures now - q[i] > RATE_W {
        if i > 0 { assert q[i] == q[1..][i - 1]; }
      }
    }
  }

  lemma {:induction false} RememberedCount(p: seq<real>, history: seq<real>, now: real)
    requires Remembers(p, history, now) && forall i | 0 <= i < |p| :: now - p[i] <= RATE_W
    ensures |p| == CountFrom(history, now - RATE_W)
  {
    CountFromSplit(history, |history| - |p|, now - RATE_W);
    CountFromEnds(history[..|history| - |p|], now - RATE_W);
    CountFromEnds(p, now - RATE_W);
  }

  lemma {:induction false} CountFromSplit(ts: seq<real>, cut: nat, from: real)
    requires cut <= |ts|
    ensures CountFrom(ts, from) == CountFrom(ts[..cut], from) + CountFrom(ts[cut..], from)
  {
    CountFromAppend(ts[..cut], ts[cut..], from);
    assert ts == ts[..cut] + ts[cut..];
  }

  /** What is left after popping is exactly the part of the whole history inside the window. */
  lemma {:induction false} PoppedRemembers(q: seq<real>, history: seq<real>, clock: real, now: real)
    requires Rising(history) && Remembers(q, history, clock) && clock <= now
    ensures Remembers(Popped(q, now), history, now)
    ensures |Popped(q, now)| == CountFrom(history, now - RATE_W)
  {
    var p, d := Popped(q, now), |history| - |q|;
    forall i, j | 0 <= i < j < |q| ensures q[i] <= q[j] { assert q[i] == history[d + i] && q[j] == history[d + j]; }
    PoppedShape(q, now);
    forall i | 0 <= i < |history| - |p| ensures now - history[i] > RATE_W {
      if i >= d { assert history[i] == q[i - d]; }
    }
    assert p == history[|history| - |p|..];
    RememberedCount(p, history, now);
  }

  /** The table after a run remembers, for every key, all that a later call can still see. */
  ghost predicate TableOk(limit: int, t: Table, calls: seq<Call>, clock: real) {
    forall key: string :: KeyOk(Queue(t, key), Accepted(limit, calls, key), clock)
  }

  /** What a run keeps about one key. */
  ghost predicate KeyOk(q: seq<real>, history: seq<real>, clock: real) {
    && Rising(history) && (forall i | 0 <= i < |history| :: history[i] <= clock)
    && Remembers(q, history, clock)
  }

  lemma {:induction false} CallerStep(q: seq<real>, h: seq<real>, clock: real, now: real)
    requires KeyOk(q, h, clock) && clock <= now
    ensures var p := Popped(q, now);
            && |p| == CountFrom(h, now - RATE_W)
            && KeyOk(p, h, now) && KeyOk(p + [now], h + [now], now)
  {
    PoppedRemembers(q, h, clock, now);
    RemembersMore(Popped(q, now), h, now);
  }

  lemma {:induction false} KeyStep(limit: int, pre: seq<Call>, c: Call, clock: real, key: string)
    requires TableOk(limit, After(limit, pre), pre, clock) && clock <= c.now
    ensures Accepts(limit, After(limit, pre), c) == FullAccepts(limit, Accepted(limit, pre, c.key), c.now)
    ensures KeyOk(Queue(Next(limit, After(limit, pre), c), key), Accepted(limit, pre + [c], key), c.now)
  {
    hide Popped, KeyOk, CountFrom;
    var t, calls := After(limit, pre), pre + [c];
    assert calls[..|calls| - 1] == pre;
    CallerStep(Queue(t, c.key), Accepted(limit, pre, c.key), clock, c.now);
    if key != c.key {
      assert Accepted(limit, calls, key) == Accepted(limit, pre, key);
      QueueUntouched(limit, t, c, clock, key, Accepted(limit, pre, key));
    } else {
      assert Accepted(limit, pre, key) + [] == Accepted(limit, pre, key);
    }
  }

  lemma {:induction false} RemembersMore(p: seq<real>, h: seq<real>, now: real)
    requires Remembers(p, h, now)
    ensures Remembers(p + [now], h + [now], now)
  {
  }

  /** A key other than the caller's is kept whole, or purged with nothing left to remember. */
  lemma {:induction false} QueueUntouched(limit: int, t: Table, c: Call, clock: real, key: string, h: seq<real>)
    requires key != c.key && clock <= c.now && KeyOk(Queue(t, key), h, clock)
    ensures KeyOk(Queue(Next(limit, t, c), key), h, c.now)
  {
    var q := Queue(t, key);
    if key in t && Idle(q, c.now) {
      assert Queue(Next(limit, t, c), key) == [];
      forall i | 0 <= i < |h| ensures c.now - h[i] > RATE_W {
        if i >= |h| - |q| {
          assert q[|q| - 1] == h[|h| - 1];
          assert h[i] <= h[|h| - 1];
        }
      }
    } else {
      assert Queue(Next(limit, t, c), key) == q;
    }
  }

  function ClockOf(calls: seq<Call>, from: real): real { if calls == [] then from else calls[|calls| - 1].now }

  lemma {:induction false} RunRemembers(limit: int, calls: seq<Call>, from: real)
    requires Ordered(calls) && (calls != [] ==> from <= calls[0].now)
    ensures TableOk(limit, After(limit, calls), calls, ClockOf(calls, from))
  {
    if calls != [] {
      var pre, c := calls[..|calls| - 1], calls[|calls| - 1];
      RunRemembers(limit, pre, from);
      assert calls == pre + [c];
      forall key: string ensures KeyOk(Queue(After(limit, calls), key), Accepted(limit, calls, key), c.now) {
        KeyStep(limit, pre, c, ClockOf(pre, from), key);
      }
    }
  }

  /** Main result: over every run, the table that purges itself decides as the limiter that keeps everything. */
  lemma {:induction false} DecidesAsFullHistory(limit: int, pre: seq<Call>, c: Call)
    requires Ordered(pre + [c])
    ensures Accepts(limit, After(limit, pre), c) == FullAccepts(limit, Accepted(limit, pre, c.key), c.now)
  {
    var from := if pre == [] then c.now else (pre + [c])[0].now;
    forall i, j | 0 <= i < j < |pre| ensures pre[i].now <= pre[j].now {
      assert (pre + [c])[i] == pre[i] && (pre + [c])[j] == pre[j];
    }
    RunRemembers(limit, pre, from);
    if pre != [] { assert (pre + [c])[|pre| - 1] == pre[|pre| - 1] && (pre + [c])[|pre|] == c; }
    KeyStep(limit, pre, c, ClockOf(pre, from), c.key);
  }

  /** At most `limit` accepted calls in the closed window that ends at each of them. */
  ghost predicate Bounded(ts: seq<real>, cap: nat) {
    ts == [] ||
    (Bounded(ts[..|ts| - 1], cap) && CountFrom(ts, ts[|ts| - 1] - RATE_W) <= cap)
  }

  /** Instants of `ts` in the closed window [lo, lo + RATE_W]. */
  function CountIn(ts: seq<real>, lo: real): nat {
    if ts == [] then 0 else CountIn(ts[..|ts| - 1], lo) + (if lo <= ts[|ts| - 1] <= lo + RATE_W then 1 else 0)
  }

  lemma {:induction false} CountInBelow(ts: seq<real>, lo: real, from: real)
    requires from <= lo
    ensures CountIn(ts, lo) <= CountFrom(ts, from)
  {
    if ts != [] { CountInBelow(ts[..|ts| - 1], lo, from); }
  }

  lemma {:induction false} BoundedWindow(ts: seq<real>, cap: nat, lo: real)
    requires Bounded(ts, cap)
    ensures CountIn(ts, lo) <= cap
  {
    if ts != [] {
      var last := ts[|ts| - 1];
      if last <= lo + RATE_W {
        CountInBelow(ts, lo, last - RATE_W);
      } else {
        BoundedWindow(ts[..|ts| - 1], cap, lo);
      }
    }
  }

  lemma {:induction false} BoundedExtend(ts: seq<real>, cap: nat, now: real)
    requires Bounded(ts, cap) && CountFrom(ts, now - RATE_W) < cap
    ensures Bounded(ts + [now], cap)
  {
    assert (ts + [now])[..|ts + [now]| - 1] == ts;
  }

  lemma {:induction false} PrefixOrdered(calls: seq<Call>)
    requires Ordered(calls) && calls != []
    ensures Ordered(calls[..|calls| - 1])
  {
  }

  lemma {:induction false} AcceptedBounded(limit: int, calls: seq<Call>, key: string)
    requires Ordered(calls)
    ensures Bounded(Accepted(limit, calls, key), if limit < 0 then 0 else limit)
  {
    hide Bounded, After, Accepts;
    if calls != [] {
      var pre, c := calls[..|calls| - 1], calls[|calls| - 1];
      PrefixOrdered(calls);
      AcceptedBounded(limit, pre, key);
      if c.key == key && Accepts(limit, After(limit, pre), c) {
        assert calls == pre + [c];
        DecidesAsFullHistory(limit, pre, c);
        BoundedExtend(Accepted(limit, pre, key), if limit < 0 then 0 else limit, c.now);
      } else {
        assert Accepted(limit, pre, key) + [] == Accepted(limit, pre, key);
      }
    } else {
      NoneBounded(if limit < 0 then 0 else limit);
    }
  }

  lemma {:induction false} NoneBounded(cap: nat)
    ensures Bounded([], cap)
  {
  }

  /** Main result: over every run, no key is accepted more than `limit` times in any window of RATE_W seconds. */
  lemma {:induction false} NeverMoreThanLimit(limit: int, calls: seq<Call>, key: string, lo: real)
    requires Ordered(calls)
    ensures CountIn(Accepted(limit, calls, key), lo) <= if limit < 0 then 0 else limit
  {
    AcceptedBounded(limit, calls, key);
    BoundedWindow(Accepted(limit, calls, key), if limit < 0 then 0 else limit, lo);
  }

  /** Main result: after a call every other key left in the table was accepted within RATE_W, so the table holds no
      more keys than were accepted in the last window, plus the caller's. */
  lemma {:induction false} TableHoldsRecentKeys(limit: int, calls: seq<Call>, key: string)
    requires Ordered(calls) && calls != []
    requires key in After(limit, calls) && key != calls[|calls| - 1].key
    ensures exists i | 0 <= i < |Accepted(limit, calls, key)| ::
              calls[|calls| - 1].now - Accepted(limit, calls, key)[i] <= RATE_W
  {
    var pre, c := calls[..|calls| - 1], calls[|calls| - 1];
    RunRemembers(limit, calls, calls[0].now);
    LeftIsRecent(limit, After(limit, pre), c, key);
    RecentInHistory(Queue(After(limit, calls), key), Accepted(limit, calls, key), c.now);
  }

  lemma {:induction false} LeftIsRecent(limit: int, t: Table, c: Call, key: string)
    requires key in Next(limit, t, c) && key != c.key
    ensures !Idle(Next(limit, t, c)[key], c.now)
  {
  }

  lemma {:induction false} RecentInHistory(q: seq<real>, h: seq<real>, now: real)
    requires KeyOk(q, h, now) && !Idle(q, now)
    ensures exists i | 0 <= i < |h| :: now - h[i] <= RATE_W
  {
    assert q[|q| - 1] == h[|h| - 1];
  }

  // ---------------------------------------------------------------- the limiter itself

  lemma {:induction false} PurgeDone(t: Table, key: string, now: real, idle: set<string>, out: Table)
    requires idle == (set k | k in t && Idle(t[k], now)) && out == t - (idle - {key})
    ensures out == Purged(t, key, now)
  {
    assert forall k | k in t :: k in idle <==> Idle(t[k], now);
    assert out.Keys == Purged(t, key, now).Keys;
  }

  class Limiter {
    const limit: int
    var table: Table

    constructor (limit: int)
      ensures this.limit == limit && table == map[]
    {
      this.limit := limit;
      table := map[];
    }

    method RateOk(key: string, now: real) returns (ok: bool)
      modifies this
      ensures ok == Accepts(limit, old(table), Call(key, now))
      ensures table == Next(limit, old(table), Call(key, now))
    {
      var t := table;
      var idle := set k | k in t && Idle(t[k], now);
      var rest := idle;
      while rest != {}
        invariant rest <= idle && t == table - ((idle - {key}) - rest)
        decreases |rest|
      {
        var k :| k in rest;
        if k != key {
          t := t - {k};
        }
        rest := rest - {k};
      }
      assert (idle - {key}) - {} == idle - {key};
      PurgeDone(table, key, now, idle, t);
      var q := if key in t then t[key] else [];
      while q != [] && now - q[0] > RATE_W
        invariant Popped(q, now) == Popped(Queue(table, key), now)
        decreases |q|
      {
        q := q[1..];
      }
      ok := |q| < limit;
      table := t[key := if ok then q + [now] else q];
    }
  }
}
