/** middleware/RateLimiter.php: fixed-window request counters kept in a
    map keyed by identifier and window number. The map lives as long as
    the limiter object. */
module RateLimiter {
  import opened Common
  import opened Text

  /** A counter: how many calls the window has seen, and when it began. */
  datatype Entry = Entry(count: int, timestamp: int)

  const TooManyRequests := "Too many requests. Please try again later."

  /** PHP's `floor($a / $b)` on integers, written with Euclidean division
      on a positive divisor. */
  function FloorDiv(a: int, b: int): (r: int)
    requires b != 0
    ensures b > 0 ==> r * b <= a < r * b + b
    ensures b < 0 ==> r * b >= a > r * b + b
  {
    if b > 0 then a / b else (-a) / (-b)
  }

  /** The counter key: the identifier, '_' and the window number. */
  function Key(identifier: string, now: int, window: int): string
    requires window != 0
  {
    identifier + "_" + IntToString(FloorDiv(now, window))
  }

  /** Cleanup drops an entry more than two windows old. */
  predicate Stale(e: Entry, now: int, window: int) {
    now - e.timestamp > window * 2
  }

  /** `cleanOldEntries`: exactly the entries that are not stale remain,
      unchanged. */
  function Pruned(storage: map<string, Entry>, now: int, window: int): (r: map<string, Entry>)
    ensures forall k :: k in r <==> k in storage && !Stale(storage[k], now, window)
    ensures forall k :: k in r ==> r[k] == storage[k]
  {
    map k | k in storage && !Stale(storage[k], now, window) :: storage[k]
  }

  /** The storage after one call of `check` for `key`: cleanup, a fresh
      counter {count 0, timestamp now} when the key is absent, then the
      increment, which happens whether or not the call is refused. */
  function Checked(storage: map<string, Entry>, key: string, now: int, window: int): (r: map<string, Entry>)
    ensures key in r
    ensures forall k :: k != key ==> (k in r <==> k in Pruned(storage, now, window))
    ensures forall k :: k != key && k in r ==> k in storage && r[k] == storage[k]
    ensures key in Pruned(storage, now, window) ==> r[key] == storage[key].(count := storage[key].count + 1)
    ensures key !in Pruned(storage, now, window) ==> r[key] == Entry(1, now)
  {
    var s := Pruned(storage, now, window);
    var e := if key in s then s[key] else Entry(0, now);
    s[key := e.(count := e.count + 1)]
  }

  /** The position of the last `c` in `s`, or -1. */
  function LastIndexOf(s: string, c: char): (i: int)
    ensures -1 <= i < |s|
    ensures i >= 0 ==> s[i] == c
  {
    if s == [] then -1
    else if s[|s| - 1] == c then |s| - 1
    else LastIndexOf(s[..|s| - 1], c)
  }

  lemma {:induction false} LastIndexAfter(a: string, c: char, x: string)
    requires c !in x
    ensures LastIndexOf(a + [c] + x, c) == |a|
    decreases |x|
  {
    if x != [] {
      var s := a + [c] + x;
      assert s[|s| - 1] == x[|x| - 1];
      assert s[..|s| - 1] == a + [c] + x[..|x| - 1];
      LastIndexAfter(a, c, x[..|x| - 1]);
    }
  }

  lemma NoUnderscore(n: int)
    ensures '_' !in IntToString(n)
  {
    var s := IntToString(n);
    forall i | 0 <= i < |s|
      ensures s[i] != '_'
    {
    }
  }

  /** `IntToString` has no '_', so the last '_' of a key separates the
      identifier from the window number: different identifiers or
      different windows never share a counter. */
  lemma KeyInjective(a: string, n: int, b: string, m: int, window: int)
    requires window != 0
    requires Key(a, n, window) == Key(b, m, window)
    ensures a == b && FloorDiv(n, window) == FloorDiv(m, window)
  {
    var x, y := IntToString(FloorDiv(n, window)), IntToString(FloorDiv(m, window));
    var k := Key(a, n, window);
    NoUnderscore(FloorDiv(n, window));
    NoUnderscore(FloorDiv(m, window));
    LastIndexAfter(a, '_', x);
    LastIndexAfter(b, '_', y);
    assert k == a + "_" + x == b + "_" + y;
    assert a == k[..|a|] == b;
    assert x == k[|a| + 1..] == y;
    IntToStringInjective(FloorDiv(n, window), FloorDiv(m, window));
  }

  /** Two instants in the same window are less than a window apart. */
  lemma SameWindowClose(a: int, b: int, window: int)
    requires window > 0 && FloorDiv(a, window) == FloorDiv(b, window)
    ensures a - b < window && b - a < window
  {
  }

  /** The storage after a run of calls for one identifier at the given
      instants. */
  function Calls(storage: map<string, Entry>, identifier: string, times: seq<int>, window: int): map<string, Entry>
    requires window != 0
    decreases |times|
  {
    if times == [] then storage
    else Calls(Checked(storage, Key(identifier, times[0], window), times[0], window), identifier, times[1..], window)
  }

  lemma {:induction false} CountsInWindow(storage: map<string, Entry>, identifier: string, times: seq<int>,
                                          window: int, c: int, t0: int)
    requires window > 0
    requires Key(identifier, t0, window) in storage && storage[Key(identifier, t0, window)] == Entry(c, t0)
    requires forall i :: 0 <= i < |times| ==> FloorDiv(times[i], window) == FloorDiv(t0, window)
    ensures var key := Key(identifier, t0, window);
      key in Calls(storage, identifier, times, window)
      && Calls(storage, identifier, times, window)[key] == Entry(c + |times|, t0)
    decreases |times|
  {
    if times != [] {
      var key := Key(identifier, t0, window);
      assert Key(identifier, times[0], window) == key;
      SameWindowClose(times[0], t0, window);
      var next := Checked(storage, key, times[0], window);
      assert next[key] == Entry(c + 1, t0);
      CountsInWindow(next, identifier, times[1..], window, c + 1, t0);
    }
  }

  /** Calls within one window that starts with no live counter: the n-th
      call leaves the count at n, so with `check` refusing once the count
      exceeds maxRequests, exactly the first maxRequests calls pass. */
  lemma FirstCallsPass(storage: map<string, Entry>, identifier: string, times: seq<int>, window: int, maxRequests: int)
    requires window > 0 && times != []
    requires Key(identifier, times[0], window) !in Pruned(storage, times[0], window)
    requires forall i :: 0 <= i < |times| ==> FloorDiv(times[i], window) == FloorDiv(times[0], window)
    ensures var key := Key(identifier, times[0], window);
      key in Calls(storage, identifier, times, window)
      && Calls(storage, identifier, times, window)[key] == Entry(|times|, times[0])
      && (Calls(storage, identifier, times, window)[key].count <= maxRequests <==> |times| <= maxRequests)
  {
    var key := Key(identifier, times[0], window);
    var first := Checked(storage, key, times[0], window);
    assert first[key] == Entry(1, times[0]);
    CountsInWindow(first, identifier, times[1..], window, 1, times[0]);
  }

  /** The limiter. `window` and `maxRequests` are null until `init` runs;
      they are 0 here. */
  class Limiter {
    var storage: map<string, Entry>
    var window: int
    var maxRequests: int

    constructor ()
      ensures storage == map[] && window == 0 && maxRequests == 0
    {
      storage := map[];
      window := 0;
      maxRequests := 0;
    }

    /** `init`: RATE_LIMIT_WINDOW and RATE_LIMIT_MAX_REQUESTS, read as
        integers, defaulting to 900 seconds and 100 requests. */
    method Init(windowEnv: Option<int>, maxEnv: Option<int>)
      modifies this
      ensures window == windowEnv.GetOr(900) && maxRequests == maxEnv.GetOr(100)
      ensures storage == old(storage)
    {
      window := if windowEnv.Some? then windowEnv.value else 900;
      maxRequests := if maxEnv.Some? then maxEnv.value else 100;
    }

    /** `cleanOldEntries`: a pass over a copy of the map that unsets every
        stale entry from the live one. */
    method CleanOldEntries(now: int)
      modifies this
      ensures storage == Pruned(old(storage), now, window)
      ensures window == old(window) && maxRequests == old(maxRequests)
    {
      var snapshot := storage;
      var keys := snapshot.Keys;
      while keys != {}
        invariant keys <= snapshot.Keys
        invariant forall k :: k in storage <==> k in snapshot && (k in keys || !Stale(snapshot[k], now, window))
        invariant forall k :: k in storage ==> storage[k] == snapshot[k]
        invariant window == old(window) && maxRequests == old(maxRequests)
        decreases keys
      {
        var k :| k in keys;
        if now - snapshot[k].timestamp > window * 2 {
          storage := storage - {k};
        }
        keys := keys - {k};
      }
    }

    /** `check`: re-reads the configuration, builds the key from the
        identifier (the client address when none is given), cleans up,
        counts the call and refuses it with 429 once the count exceeds
        maxRequests. */
    method Check(identifier: Option<string>, remoteAddr: string, now: int,
                 windowEnv: Option<int>, maxEnv: Option<int>) returns (r: Gate)
      requires windowEnv.GetOr(900) != 0
      modifies this
      ensures window == windowEnv.GetOr(900) && maxRequests == maxEnv.GetOr(100)
      ensures var key := Key(identifier.GetOr(remoteAddr), now, window);
        && storage == Checked(old(storage), key, now, window)
        && (r == Pass <==> storage[key].count <= maxRequests)
        && (r != Pass ==> r == Halt(429, TooManyRequests))
    {
      Init(windowEnv, maxEnv);
      var id := if identifier.Some? then identifier.value else remoteAddr;
      var key := id + "_" + IntToString(FloorDiv(now, window));
      CleanOldEntries(now);
      if key !in storage {
        storage := storage[key := Entry(0, now)];
      }
      storage := storage[key := storage[key].(count := storage[key].count + 1)];
      if storage[key].count > maxRequests {
        return Halt(429, TooManyRequests);
      }
      r := Pass;
    }
  }
}
