/** The in-memory sliding-window rate limiter, and what it means in terms of every call it
    has ever accepted. */
module RateLimit {
  import opened Wrappers
  import opened Sets

  /** How many of the first `n` accepted times are later than `t`. */
  function CountAfter(times: seq<real>, t: real, n: nat): nat
    requires n <= |times|
  {
    if n == 0 then 0 else CountAfter(times, t, n - 1) + if times[n - 1] > t then 1 else 0
  }

  predicate IsSorted(times: seq<real>) {
    forall i, j :: 0 <= i < j < |times| ==> times[i] <= times[j]
  }

  /** In a sorted history the times later than `t` are the ones from some point on. */
  lemma {:induction false} CountOfTail(times: seq<real>, t: real, cut: nat, n: nat)
    requires cut <= n <= |times|
    requires forall i :: 0 <= i < cut ==> times[i] <= t
    requires forall i :: cut <= i < n ==> times[i] > t
    ensures CountAfter(times, t, n) == n - cut
  {
    if n > cut {
      CountOfTail(times, t, cut, n - 1);
    } else if n > 0 {
      CountOfTail(times, t, cut - 1, n - 1);
    }
  }

  /** Any call is at least a window later than the one `limit` places before it. */
  predicate IsSpaced(times: seq<real>, limit: nat, window: real) {
    && (limit == 0 ==> times == [])
    && forall i :: limit <= i < |times| ==> times[i - limit] <= times[i] - window
  }

  /** The guarantee a caller cares about: every half-open window of the given length contains
      at most `limit` accepted calls, wherever it is laid. */
  lemma WindowHoldsAtMostLimit(times: seq<real>, limit: nat, window: real, start: real)
    requires IsSorted(times) && IsSpaced(times, limit, window)
    ensures |set i: nat | i < |times| && start < times[i] <= start + window| <= limit
  {
    var inside := set i: nat | i < |times| && start < times[i] <= start + window;
    if inside != {} {
      var first := Least(inside);
      forall i | i in inside
        ensures first <= i < first + limit
      {
        FarApart(times, limit, window, first, i);
      }
      RangeSize(inside, first, limit);
    }
  }

  lemma FarApart(times: seq<real>, limit: nat, window: real, i: nat, j: nat)
    requires IsSorted(times) && IsSpaced(times, limit, window) && i <= j < |times|
    ensures j >= i + limit ==> times[i] <= times[j] - window
  {
    if j >= i + limit {
      assert times[j - limit] <= times[j] - window;
      assert i < j - limit ==> times[i] <= times[j - limit];
    }
  }

  lemma {:induction false} Least(s: set<nat>) returns (m: nat)
    requires s != {}
    ensures m in s && forall x :: x in s ==> m <= x
  {
    var x :| x in s;
    if s == {x} {
      m := x;
    } else {
      var others := s - {x};
      assert s == others + {x};
      var rest := Least(others);
      m := if rest < x then rest else x;
    }
  }

  lemma {:induction false} RangeSize(s: set<nat>, from: nat, n: nat)
    requires forall x :: x in s ==> from <= x < from + n
    ensures |s| <= n
  {
    if s != {} && n > 0 {
      var last := from + n - 1;
      var rest := s - {last};
      RangeSize(rest, from, n - 1);
      assert s <= rest + {last};
      SubsetSize(s, rest + {last});
    }
  }

  /** A bucket is the part of the accepted history that was inside the window at the last call:
      everything before `cut` had left it by then. */
  ghost predicate IsBucket(bucket: seq<real>, times: seq<real>, cut: nat, lastCall: real, window: real) {
    && cut <= |times| && bucket == times[cut..]
    && forall i :: 0 <= i < cut ==> times[i] <= lastCall - window
  }

  /** One key: its bucket, if it has been used, against every time it was accepted. */
  ghost predicate IsKeyState(bucket: Option<seq<real>>, times: seq<real>, clock: real, limit: nat, window: real) {
    && IsSorted(times) && IsSpaced(times, limit, window)
    && (forall i :: 0 <= i < |times| ==> times[i] <= clock)
    && (bucket.None? ==> times == [])
    && (bucket.Some? ==> exists cut: nat :: IsBucket(bucket.value, times, cut, clock, window))
  }

  /** Time passing leaves a bucket what it was: the history from some point on. */
  lemma KeyStateLater(bucket: Option<seq<real>>, times: seq<real>, clock: real, later: real, limit: nat, window: real)
    requires IsKeyState(bucket, times, clock, limit, window) && clock <= later
    ensures IsKeyState(bucket, times, later, limit, window)
  {
    if bucket.Some? {
      var cut: nat :| IsBucket(bucket.value, times, cut, clock, window);
      assert IsBucket(bucket.value, times, cut, later, window);
    }
  }

  lemma BucketNow(bucket: Option<seq<real>>, times: seq<real>, clock: real, now: real, limit: nat, window: real)
    returns (cut: nat)
    requires IsKeyState(bucket, times, clock, limit, window) && clock <= now
    ensures IsSorted(times)
    ensures IsBucket(if bucket.Some? then bucket.value else [], times, cut, now, window)
  {
    cut := 0;
    if bucket.Some? {
      cut :| IsBucket(bucket.value, times, cut, clock, window);
    }
  }

  lemma BucketShifts(bucket: seq<real>, times: seq<real>, cut: nat, now: real, window: real)
    requires IsBucket(bucket, times, cut, now, window) && bucket != [] && bucket[0] <= now - window
    ensures IsBucket(bucket[1..], times, cut + 1, now, window)
  {
    assert bucket[0] == times[cut];
    assert bucket[1..] == times[cut + 1..];
  }

  /** Dropping the times that have left the window leaves exactly the ones inside it. */
  method Evict(bucket: Option<seq<real>>, now: real, ghost times: seq<real>, ghost clock: real, ghost limit: nat, window: real)
    returns (kept: seq<real>, ghost cut: nat)
    requires IsKeyState(bucket, times, clock, limit, window) && clock <= now
    ensures IsBucket(kept, times, cut, now, window)
    ensures |kept| == CountAfter(times, now - window, |times|)
  {
    hide *;
    cut := BucketNow(bucket, times, clock, now, limit, window);
    kept := if bucket.Some? then bucket.value else [];
    while kept != [] && kept[0] <= now - window
      invariant IsBucket(kept, times, cut, now, window)
      decreases |kept|
    {
      BucketShifts(kept, times, cut, now, window);
      kept := kept[1..];
      cut := cut + 1;
    }
    BucketCount(kept, times, cut, now, window);
  }

  lemma BucketCount(bucket: seq<real>, times: seq<real>, cut: nat, now: real, window: real)
    requires IsSorted(times) && IsBucket(bucket, times, cut, now, window) && (bucket != [] ==> bucket[0] > now - window)
    ensures |bucket| == CountAfter(times, now - window, |times|)
  {
    CutIsExact(times, bucket, cut, now - window);
    CountOfTail(times, now - window, cut, |times|);
  }

  lemma RefusedKeyState(
      bucket: Option<seq<real>>, kept: seq<real>, times: seq<real>, cut: nat, clock: real, now: real, limit: nat, window: real)
    requires IsKeyState(bucket, times, clock, limit, window) && clock <= now
    requires IsBucket(kept, times, cut, now, window)
    ensures IsKeyState(Some(kept), times, now, limit, window)
  {
  }

  lemma AcceptedKeyState(
      bucket: Option<seq<real>>, kept: seq<real>, times: seq<real>, cut: nat, clock: real, now: real, limit: nat, window: real)
    requires IsKeyState(bucket, times, clock, limit, window) && clock <= now
    requires IsBucket(kept, times, cut, now, window) && |kept| < limit
    ensures IsKeyState(Some(kept + [now]), times + [now], now, limit, window)
  {
    SpacedSnoc(times, limit, window, now, cut);
    assert kept + [now] == (times + [now])[cut..];
    assert IsBucket(kept + [now], times + [now], cut, now, window);
  }

  class RateLimiter {
    var events: map<string, seq<real>>

    /** The limit and window each key is used with, the clock of the last call, and for each key
        every time a call was accepted. */
    ghost const limitOf: string -> nat
    ghost const windowOf: string -> real
    ghost var clock: real
    ghost var accepted: map<string, seq<real>>

    constructor (ghost limitOf: string -> nat, ghost windowOf: string -> real, ghost clock: real)
      ensures Valid() && this.limitOf == limitOf && this.windowOf == windowOf && this.clock == clock
      ensures accepted == map[]
    {
      events := map[];
      this.limitOf, this.windowOf, this.clock, accepted := limitOf, windowOf, clock, map[];
    }

    ghost function Accepted(key: string): seq<real>
      reads this`accepted
    {
      if key in accepted then accepted[key] else []
    }

    function Bucket(key: string): Option<seq<real>>
      reads this`events
    {
      if key in events then Some(events[key]) else None
    }

    ghost predicate Valid()
      reads this
    {
      forall key :: IsKeyState(Bucket(key), Accepted(key), clock, limitOf(key), windowOf(key))
    }

    /** A call with the key's own limit and window. The answer is the one that counting the whole
        accepted history would give, and no other key is affected. */
    method Allow(key: string, maxEvents: nat, window: real, now: real) returns (allowed: bool)
      requires Valid() && now >= clock
      requires maxEvents == limitOf(key) && window == windowOf(key)
      modifies this
      ensures Valid() && clock == now
      ensures allowed <==> CountAfter(old(Accepted(key)), now - window, |old(Accepted(key))|) < maxEvents
      ensures Accepted(key) == old(Accepted(key)) + if allowed then [now] else []
      ensures forall k :: k != key ==> Accepted(k) == old(Accepted(k)) && Bucket(k) == old(Bucket(k))
    {
      hide IsKeyState, IsBucket, CountAfter;
      ghost var times := Accepted(key);
      assert IsKeyState(Bucket(key), times, clock, maxEvents, window);
      var kept;
      ghost var cut;
      kept, cut := Evict(Bucket(key), now, times, clock, maxEvents, window);
      if |kept| >= maxEvents {
        RefusedKeyState(Bucket(key), kept, times, cut, clock, now, maxEvents, window);
        allowed := false;
        events := events[key := kept];
      } else {
        AcceptedKeyState(Bucket(key), kept, times, cut, clock, now, maxEvents, window);
        allowed := true;
        events := events[key := kept + [now]];
        accepted := accepted[key := times + [now]];
      }
      ghost var before := clock;
      clock := now;
      forall k
        ensures IsKeyState(Bucket(k), Accepted(k), clock, limitOf(k), windowOf(k))
      {
        if k != key {
          assert IsKeyState(old(Bucket(k)), old(Accepted(k)), before, limitOf(k), windowOf(k));
          KeyStateLater(Bucket(k), Accepted(k), before, now, limitOf(k), windowOf(k));
        }
      }
    }
  }

  /** Whatever calls a limiter has answered: every half-open window of a key's length contains at most
      the key's limit of accepted ones. */
  lemma AcceptedFitEveryWindow(limiter: RateLimiter, key: string, start: real)
    requires limiter.Valid()
    ensures var times := limiter.Accepted(key);
            |set i: nat | i < |times| && start < times[i] <= start + limiter.windowOf(key)| <= limiter.limitOf(key)
  {
    hide IsSpaced, IsSorted, IsBucket;
    var times := limiter.Accepted(key);
    assert IsKeyState(limiter.Bucket(key), times, limiter.clock, limiter.limitOf(key), limiter.windowOf(key));
    WindowHoldsAtMostLimit(times, limiter.limitOf(key), limiter.windowOf(key), start);
  }

  lemma CutIsExact(times: seq<real>, bucket: seq<real>, cut: nat, t: real)
    requires IsSorted(times) && cut <= |times| && bucket == times[cut..]
    requires bucket != [] ==> bucket[0] > t
    ensures forall i :: cut <= i < |times| ==> times[i] > t
  {
  }

  /** Accepting a call while fewer than `limit` are inside the window keeps the history spaced. */
  lemma SpacedSnoc(times: seq<real>, limit: nat, window: real, now: real, cut: nat)
    requires IsSpaced(times, limit, window) && cut <= |times| && |times| - cut < limit
    requires forall i :: 0 <= i < cut ==> times[i] <= now - window
    ensures IsSpaced(times + [now], limit, window)
  {
  }
}
