/** Counting the recorded attempts that fall into a window of the configured width. */
module AttemptWindows {
  import opened RateLimiter
  import Ordering

  datatype Config = Config(limit: int, window: int)

  /** How password verification ends: a crash neither records nor clears. */
  datatype Outcome = Failed | Succeeded | Crashed

  function Cap(c: Config, k: nat): nat {
    (if c.limit > 1 then c.limit else 1) - 1 + k
  }

  /** The number of entries in the half-open window (to - width, to]. */
  function InWindow(log: seq<real>, width: int, to: real): nat {
    if log == [] then 0
    else
      var last := log[|log| - 1];
      InWindow(log[..|log| - 1], width, to) + if to - width as real < last <= to then 1 else 0
  }

  lemma InWindowAppend(log: seq<real>, x: real, width: int, to: real)
    ensures InWindow(log + [x], width, to)
            == InWindow(log, width, to) + if to - width as real < x <= to then 1 else 0
  {
    assert (log + [x])[..|log|] == log;
  }

  lemma {:induction false} InWindowSuffix(log: seq<real>, n: nat, width: int, to: real)
    requires n <= |log| && forall i :: 0 <= i < n ==> log[i] <= to - width as real
    ensures InWindow(log, width, to) <= |log| - n
  {
    if |log| > 0 {
      if n == |log| {
        InWindowSuffix(log[..|log| - 1], n - 1, width, to);
      } else {
        InWindowSuffix(log[..|log| - 1], n, width, to);
      }
    }
  }

  /** Everything in a window that is still open is in the bucket. */
  lemma TailCounts(c: Config, bucket: seq<real>, log: seq<real>, clock: real, to: real)
    requires IsTail(bucket, log, c.window, clock) && clock <= to
    ensures InWindow(log, c.window, to) <= |bucket|
  {
    var n :| ExpiredPrefix(bucket, log, n, c.window, clock);
    InWindowSuffix(log, n, c.window, to);
  }

  /** Redis holds every logged entry that has not expired. */
  ghost predicate Holds(zset: seq<real>, log: seq<real>, cutoff: real) {
    forall x :: x in log && x > cutoff ==> x in zset
  }

  lemma {:induction false} DistinctCount(log: seq<real>, held: set<real>, width: int, to: real)
    requires Ordering.NoDuplicates(log)
    requires forall x :: x in log && to - width as real < x <= to ==> x in held
    ensures InWindow(log, width, to) <= |held|
  {
    if log != [] {
      var last := log[|log| - 1];
      if to - width as real < last <= to {
        DistinctCount(log[..|log| - 1], held - {last}, width, to);
      } else {
        DistinctCount(log[..|log| - 1], held, width, to);
      }
    }
  }

  lemma HeldCount(c: Config, zset: seq<real>, log: seq<real>, clock: real, to: real)
    requires Ordering.NoDuplicates(log) && Holds(zset, log, clock - c.window as real) && clock <= to
    ensures InWindow(log, c.window, to) <= |zset|
  {
    DistinctCount(log, (set x | x in zset), c.window, to);
    Ordering.DistinctAtMostLength(zset);
  }

  lemma TailLater(bucket: seq<real>, log: seq<real>, window: int, clock: real, later: real)
    requires IsTail(bucket, log, window, clock) && clock <= later
    ensures IsTail(bucket, log, window, later)
  {
    var n :| ExpiredPrefix(bucket, log, n, window, clock);
    assert ExpiredPrefix(bucket, log, n, window, later);
  }

  // ---------------------------------------------------------------- the retry delay of a key within its limit

  lemma {:induction false} LiveAppend(log: seq<real>, x: real, cutoff: real)
    ensures Live(log + [x], cutoff) == Live(log, cutoff) + if x > cutoff then [x] else []
  {
    if log != [] {
      assert (log + [x])[1..] == log[1..] + [x];
      LiveAppend(log[1..], x, cutoff);
    }
  }

  /** The live entries are those in the window that ends now. */
  lemma {:induction false} LiveIsWindow(log: seq<real>, width: int, now: real)
    requires forall i :: 0 <= i < |log| ==> log[i] <= now
    ensures |Live(log, now - width as real)| == InWindow(log, width, now)
  {
    if log != [] {
      var front, last := log[..|log| - 1], log[|log| - 1];
      LiveIsWindow(front, width, now);
      LiveAppend(front, last, now - width as real);
      assert front + [last] == log;
    }
  }

  lemma ExactWhenFull(log: seq<real>, live: seq<real>, limit: nat, window: int, now: real)
    requires Sorted(log) && limit >= 1 && live == Live(log, now - window as real) && |live| <= limit
    ensures var answer := Answer(live, limit, window, now);
            answer.Some? ==> LeastDelay(log, limit, window, now, answer.value)
  {
    if |live| == limit {
      RetryAfterExact(log, limit, window, now);
    }
  }

  lemma ExactWithin(c: Config, log: seq<real>, now: real)
    requires c.limit >= 1 && Sorted(log) && InWindow(log, c.window, now) <= c.limit
    requires forall i :: 0 <= i < |log| ==> log[i] <= now
    ensures var answer := Answer(Live(log, now - c.window as real), c.limit, c.window, now);
            answer.Some? ==> LeastDelay(log, c.limit, c.window, now, answer.value)
  {
    LiveIsWindow(log, c.window, now);
    ExactWhenFull(log, Live(log, now - c.window as real), c.limit, c.window, now);
  }

  lemma ExactWhenBounded(c: Config, bucket: seq<real>, log: seq<real>, now: real)
    requires c.limit >= 1 && Coupled(bucket, log, c.window, now) && InWindow(log, c.window, now) <= c.limit
    ensures var answer := LazyStep(bucket, c.window, Check(c.limit, now)).1.after;
            answer.Some? ==> LeastDelay(log, c.limit, c.window, now, answer.value)
  {
    PruneShowsLive(bucket, log, c.window, now, now);
    ExactWithin(c, log, now);
  }
}
