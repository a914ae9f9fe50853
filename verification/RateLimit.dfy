/** The fixed-window rate limiter over whole call traces (internal/security/security.go). */
module RateLimit {
  import opened Text

  /** Times are integers and 0 is Go's zero time. */
  datatype Entry = Entry(windowStart: int, count: nat)

  type Entries = map<string, Entry>

  datatype Config = Config(limit: nat, window: int)

  /** One call of Allow, with its key already normalized. */
  datatype Call = Call(key: string, now: int)

  function Normalize(key: string): string {
    var trimmed := TrimSpace(key);
    if trimmed == "" then "anonymous" else trimmed
  }

  function Get(entries: Entries, key: string): Entry {
    if key in entries then entries[key] else Entry(0, 0)
  }

  function Allows(c: Config, e: Entry, now: int): bool {
    c.limit == 0 || e.windowStart == 0 || now - e.windowStart >= c.window || e.count < c.limit
  }

  function Charge(c: Config, e: Entry, now: int): Entry {
    if c.limit == 0 then e
    else if e.windowStart == 0 || now - e.windowStart >= c.window then Entry(now, 1)
    else if e.count >= c.limit then e
    else e.(count := e.count + 1)
  }

  class RateLimiter {
    const config: Config
    var entries: Entries

    constructor (config: Config)
      ensures entries == map[] && this.config == config
    {
      this.config := config;
      entries := map[];
    }

    static method New(limit: int, window: int) returns (r: Option<RateLimiter>)
      ensures r.Some? <==> limit >= 0 && window > 0
      ensures r.Some? ==> fresh(r.value) && r.value.entries == map[] && r.value.config == Config(limit, window)
    {
      if limit < 0 || window <= 0 {
        return None;
      }
      var limiter := new RateLimiter(Config(limit, window));
      return Some(limiter);
    }

    method Allow(key: string, now: int) returns (ok: bool)
      modifies `entries
      ensures var k := Normalize(key);
              && ok == Allows(config, Get(old(entries), k), now)
              && Get(entries, k) == Charge(config, Get(old(entries), k), now)
              && (!ok ==> entries == old(entries))
              && (forall k' :: k' != k ==> Get(entries, k') == Get(old(entries), k'))
    {
      if config.limit == 0 {
        return true;
      }
      var k := Normalize(key);
      var entry := Get(entries, k);
      if entry.windowStart == 0 || now - entry.windowStart >= config.window {
        entries := entries[k := Entry(now, 1)];
        return true;
      }
      if entry.count >= config.limit {
        return false;
      }
      entries := entries[k := entry.(count := entry.count + 1)];
      return true;
    }
  }

  /** Two callers share an entry exactly if their keys agree but for white space around them, a
      blank key counting as "anonymous". */
  lemma SharedEntry(a: string, b: string)
    ensures Normalize(a) == Normalize(b) <==>
              || TrimSpace(a) == TrimSpace(b)
              || (TrimSpace(a) == "" && TrimSpace(b) == "anonymous")
              || (TrimSpace(a) == "anonymous" && TrimSpace(b) == "")
  {
  }

  // ---------------------------------------------------------------- traces

  /** The entry of a key after a trace of calls, starting from an empty limiter. */
  function State(c: Config, calls: seq<Call>, k: string): Entry {
    if calls == [] then Entry(0, 0) else
    var before, call := State(c, calls[..|calls| - 1], k), calls[|calls| - 1];
    if call.key == k then Charge(c, before, call.now) else before
  }

  /** Whether the last call of a trace is admitted under key `k`. */
  predicate LastAdmitted(c: Config, calls: seq<Call>, k: string)
    requires calls != []
  {
    var call := calls[|calls| - 1];
    call.key == k && Allows(c, State(c, calls[..|calls| - 1], k), call.now)
  }

  /** How many calls of key `k` were admitted at times in [lo, hi). */
  function Granted(c: Config, calls: seq<Call>, k: string, lo: int, hi: int): nat {
    if calls == [] then 0 else
    Granted(c, calls[..|calls| - 1], k, lo, hi)
    + if LastAdmitted(c, calls, k) && lo <= calls[|calls| - 1].now < hi then 1 else 0
  }

  /** How many calls of key `k` were charged to the window that started at `s`. */
  function Charged(c: Config, calls: seq<Call>, k: string, s: int): nat {
    if calls == [] then 0 else
    Charged(c, calls[..|calls| - 1], k, s)
    + if LastAdmitted(c, calls, k) && State(c, calls, k).windowStart == s then 1 else 0
  }

  ghost predicate Nonzero(calls: seq<Call>) {
    forall i :: 0 <= i < |calls| ==> calls[i].now != 0
  }

  ghost predicate Nondecreasing(calls: seq<Call>) {
    forall i :: 0 < i < |calls| ==> calls[i - 1].now <= calls[i].now
  }

  ghost predicate Positive(c: Config) {
    c.limit > 0 && c.window > 0
  }

  /** Each window of a key admits at most `limit` calls, even if the clock runs backwards. */
  lemma {:induction false} WindowBound(c: Config, calls: seq<Call>, k: string, s: int)
    requires Positive(c) && Nonzero(calls)
    ensures var e := State(c, calls, k);
            && Charged(c, calls, k, s) <= c.limit
            && (e.windowStart == 0 || s > e.windowStart ==> Charged(c, calls, k, s) == 0)
            && (e.windowStart != 0 ==> 1 <= e.count && Charged(c, calls, k, e.windowStart) == e.count <= c.limit)
  {
    if calls != [] {
      var front := calls[..|calls| - 1];
      WindowBound(c, front, k, s);
      WindowBound(c, front, k, State(c, calls, k).windowStart);
    }
  }

  /** A call is refused exactly if there is a limit, the key's window has admitted that many calls,
      and it has not run out. */
  lemma RefusedIff(c: Config, calls: seq<Call>, k: string, now: int)
    requires c.window > 0 && Nonzero(calls)
    ensures var s := State(c, calls, k).windowStart;
            !LastAdmitted(c, calls + [Call(k, now)], k)
            <==> c.limit > 0 && s != 0 && Charged(c, calls, k, s) == c.limit && now < s + c.window
  {
    assert (calls + [Call(k, now)])[..|calls|] == calls;
    if c.limit > 0 {
      WindowBound(c, calls, k, State(c, calls, k).windowStart);
    }
  }

  lemma {:induction false} StartedBefore(c: Config, calls: seq<Call>, k: string)
    requires Positive(c) && Nonzero(calls) && Nondecreasing(calls)
    ensures var e := State(c, calls, k);
            && (e.windowStart != 0 ==> calls != [] && e.windowStart <= calls[|calls| - 1].now && 1 <= e.count <= c.limit)
  {
    if calls != [] {
      StartedBefore(c, calls[..|calls| - 1], k);
    }
  }

  /** What the current window says about an interval of one window length. */
  lemma {:induction false} IntervalInvariant(c: Config, calls: seq<Call>, k: string, lo: int)
    requires Positive(c) && Nonzero(calls) && Nondecreasing(calls)
    ensures var e, g := State(c, calls, k), Granted(c, calls, k, lo, lo + c.window);
            && (e.windowStart == 0 || (calls != [] && calls[|calls| - 1].now < lo) ==> g == 0)
            && (e.windowStart != 0 && e.windowStart < lo ==> g <= e.count - 1)
            && (e.windowStart != 0 && lo <= e.windowStart < lo + c.window ==> g <= c.limit - 1 + e.count)
            && (e.windowStart != 0 && lo + c.window <= e.windowStart ==> g <= 2 * c.limit - 1)
  {
    if calls != [] {
      var front := calls[..|calls| - 1];
      IntervalInvariant(c, front, k, lo);
      StartedBefore(c, front, k);
    }
  }

  /** However an interval of one window length is placed, fewer than 2 * limit calls are admitted in it. */
  lemma IntervalBound(c: Config, calls: seq<Call>, k: string, lo: int)
    requires Positive(c) && Nonzero(calls) && Nondecreasing(calls)
    ensures Granted(c, calls, k, lo, lo + c.window) <= 2 * c.limit - 1
  {
    IntervalInvariant(c, calls, k, lo);
    StartedBefore(c, calls, k);
  }

  // ---------------------------------------------------------------- the bound is reached

  function Repeat(key: string, now: int, n: nat): (r: seq<Call>) {
    seq(n, _ => Call(key, now))
  }

  lemma OneMore(c: Config, calls: seq<Call>, key: string, now: int, lo: int, hi: int)
    ensures var e, after := State(c, calls, key), calls + [Call(key, now)];
            && State(c, after, key) == Charge(c, e, now)
            && Granted(c, after, key, lo, hi)
               == Granted(c, calls, key, lo, hi) + if Allows(c, e, now) && lo <= now < hi then 1 else 0
  {
    var after := calls + [Call(key, now)];
    assert after[..|after| - 1] == calls;
  }

  /** Admitting `n` more calls at one instant, while the window lasts. */
  lemma {:induction false} Burst(c: Config, calls: seq<Call>, key: string, now: int, n: nat, lo: int, hi: int)
    requires Positive(c)
    requires var e := State(c, calls, key);
             e.windowStart != 0 && now - e.windowStart < c.window && e.count + n <= c.limit
    ensures var e, after := State(c, calls, key), calls + Repeat(key, now, n);
            && State(c, after, key) == e.(count := e.count + n)
            && Granted(c, after, key, lo, hi) == Granted(c, calls, key, lo, hi) + if lo <= now < hi then n else 0
  {
    if n == 0 {
      assert calls + Repeat(key, now, 0) == calls;
    } else {
      Burst(c, calls, key, now, n - 1, lo, hi);
      OneMore(c, calls + Repeat(key, now, n - 1), key, now, lo, hi);
      assert calls + Repeat(key, now, n) == calls + Repeat(key, now, n - 1) + [Call(key, now)];
    }
  }

  /** One call opens a window and limit - 1 follow at its very end. */
  function FirstWindow(c: Config, key: string): seq<Call>
    requires Positive(c)
  {
    [Call(key, 1)] + Repeat(key, c.window, c.limit - 1)
  }

  /** Then limit more open the next one. */
  function WorstCase(c: Config, key: string): seq<Call>
    requires Positive(c)
  {
    FirstWindow(c, key) + [Call(key, c.window + 1)] + Repeat(key, c.window + 1, c.limit - 1)
  }

  lemma FirstWindowCount(c: Config, key: string, hi: int)
    requires Positive(c) && c.window >= 2 && c.window < hi
    ensures State(c, FirstWindow(c, key), key) == Entry(1, c.limit)
    ensures Granted(c, FirstWindow(c, key), key, c.window, hi) == c.limit - 1
  {
    var a := [Call(key, 1)];
    assert State(c, a, key) == Entry(1, 1) && Granted(c, a, key, c.window, hi) == 0 by {
      assert a == [] + [Call(key, 1)];
      OneMore(c, [], key, 1, c.window, hi);
    }
    Burst(c, a, key, c.window, c.limit - 1, c.window, hi);
  }

  lemma NextWindowOpens(c: Config, key: string, lo: int, hi: int)
    requires Positive(c) && c.window >= 2 && lo == c.window && hi == c.window + c.window
    ensures var d := FirstWindow(c, key) + [Call(key, c.window + 1)];
            State(c, d, key) == Entry(c.window + 1, 1) && Granted(c, d, key, lo, hi) == c.limit
  {
    FirstWindowCount(c, key, hi);
    OneMore(c, FirstWindow(c, key), key, c.window + 1, lo, hi);
  }

  lemma WorstCaseTimes(c: Config, key: string)
    requires Positive(c)
    ensures Nonzero(WorstCase(c, key)) && Nondecreasing(WorstCase(c, key))
  {
  }

  lemma WorstCaseCount(c: Config, key: string, lo: int, hi: int)
    requires Positive(c) && c.window >= 2 && lo == c.window && hi == c.window + c.window
    ensures Granted(c, WorstCase(c, key), key, lo, hi) == 2 * c.limit - 1
  {
    NextWindowOpens(c, key, lo, hi);
    var d := FirstWindow(c, key) + [Call(key, c.window + 1)];
    Burst(c, d, key, c.window + 1, c.limit - 1, lo, hi);
  }

  /** No smaller bound holds: this legal trace reaches it. */
  lemma BoundIsTight(c: Config, key: string)
    requires Positive(c) && c.window >= 2
    ensures Nonzero(WorstCase(c, key)) && Nondecreasing(WorstCase(c, key))
    ensures Granted(c, WorstCase(c, key), key, c.window, c.window + c.window) == 2 * c.limit - 1
  {
    WorstCaseTimes(c, key);
    WorstCaseCount(c, key, c.window, c.window + c.window);
  }

  // ---------------------------------------------------------------- independence of keys

  function OnlyKey(calls: seq<Call>, k: string): seq<Call> {
    if calls == [] then [] else
    var front, last := OnlyKey(calls[..|calls| - 1], k), calls[|calls| - 1];
    if last.key == k then front + [last] else front
  }

  /** Calls under other keys might as well not have happened. */
  lemma {:induction false} KeysAreIndependent(c: Config, calls: seq<Call>, k: string, lo: int, hi: int)
    ensures State(c, calls, k) == State(c, OnlyKey(calls, k), k)
    ensures Granted(c, calls, k, lo, hi) == Granted(c, OnlyKey(calls, k), k, lo, hi)
  {
    if calls != [] {
      var front, last := calls[..|calls| - 1], calls[|calls| - 1];
      KeysAreIndependent(c, front, k, lo, hi);
      if last.key == k {
        var only := OnlyKey(calls, k);
        assert only[..|only| - 1] == OnlyKey(front, k);
      }
    }
  }
}
