/**
  Concurrent workers that check a log before they add to it: what those that have passed may still
  add is a claim, and entries plus claims never exceed the cap.
 */
module Claims {
  import opened AttemptWindows
  import opened Totals

  /** What a worker may still add: nothing, an attempt whose stamp is yet to be read, or one with this stamp. */
  datatype Claim = Nothing | Due | Stamped(now: real)

  /** A log, those of its entries that no check allowed, and the workers' claims on it. */
  datatype Ledger = Ledger(log: seq<real>, excess: seq<real>, claims: seq<Claim>)

  /** A claim's share of the window that ends at `to`. */
  function Share(claim: Claim, width: int, to: real, clock: real): nat {
    match claim
    case Nothing => 0
    case Due => if clock <= to then 1 else 0
    case Stamped(now) => if to - width as real < now <= to then 1 else 0
  }

  function Shares(claims: seq<Claim>, width: int, to: real, clock: real): seq<nat> {
    seq(|claims|, i requires 0 <= i < |claims| => Share(claims[i], width, to, clock))
  }

  /** Entries and claims together stay within the cap, but for the excess entries. */
  ghost predicate Bounded(c: Config, l: Ledger, to: real, clock: real) {
    InWindow(l.log, c.window, to) + Sum(Shares(l.claims, c.window, to, clock))
    <= Cap(c, |l.claims|) + InWindow(l.excess, c.window, to)
  }

  /** Every window that is still open has room for one attempt of each worker. */
  ghost predicate Room(c: Config, log: seq<real>, clock: real) {
    forall to :: clock <= to ==> InWindow(log, c.window, to) <= Cap(c, 0)
  }

  ghost predicate Keeps(a: Ledger, before: Claim, b: Ledger, after: Claim, clock: real) {
    && b.log == a.log && b.excess == a.excess
    && (after == before || after == Nothing || (before == Due && after == Stamped(clock)))
  }

  ghost predicate Commits(c: Config, a: Ledger, before: Claim, b: Ledger, after: Claim, clock: real) {
    b.log == a.log && b.excess == a.excess && before == Nothing && after == Due && Room(c, a.log, clock)
  }

  ghost predicate Writes(a: Ledger, before: Claim, b: Ledger, after: Claim) {
    before.Stamped? && after == Nothing && b.log == a.log + [before.now] && b.excess == a.excess
  }

  ghost predicate WritesUnchecked(a: Ledger, before: Claim, b: Ledger, after: Claim, stamp: real) {
    before == after == Nothing && b.log == a.log + [stamp] && b.excess == a.excess + [stamp]
  }

  /** What one worker may do to a ledger: keep or drop its claim, pass a check, write, or clear the log. */
  ghost predicate Allowed(c: Config, a: Ledger, b: Ledger, w: nat, stamp: real, clock: real) {
    && w < |a.claims| && |b.claims| == |a.claims| && b.claims == a.claims[w := b.claims[w]]
    && (|| Keeps(a, a.claims[w], b, b.claims[w], clock)
        || Commits(c, a, a.claims[w], b, b.claims[w], clock)
        || Writes(a, a.claims[w], b, b.claims[w])
        || WritesUnchecked(a, a.claims[w], b, b.claims[w], stamp)
        || b.log == [])
  }

  /** Either the worker's share of the window does not grow, or the window has room for every worker. */
  lemma AllowedShare(c: Config, a: Ledger, b: Ledger, w: nat, stamp: real, to: real, clock: real)
    requires Allowed(c, a, b, w, stamp, clock)
    ensures || InWindow(b.log, c.window, to) + Share(b.claims[w], c.window, to, clock)
               + InWindow(a.excess, c.window, to)
               <= InWindow(a.log, c.window, to) + Share(a.claims[w], c.window, to, clock)
                  + InWindow(b.excess, c.window, to)
            || InWindow(b.log, c.window, to) <= Cap(c, 0)
  {
    if Writes(a, a.claims[w], b, b.claims[w]) {
      InWindowAppend(a.log, a.claims[w].now, c.window, to);
    } else if WritesUnchecked(a, a.claims[w], b, b.claims[w], stamp) {
      InWindowAppend(a.log, stamp, c.window, to);
      InWindowAppend(a.excess, stamp, c.window, to);
    }
  }

  /** So the bound survives whatever a worker may do. */
  lemma AllowedBounded(c: Config, a: Ledger, b: Ledger, w: nat, stamp: real, to: real, clock: real)
    requires Allowed(c, a, b, w, stamp, clock) && Bounded(c, a, to, clock)
    ensures Bounded(c, b, to, clock)
  {
    var shares := Shares(a.claims, c.window, to, clock);
    var share := Share(b.claims[w], c.window, to, clock);
    AllowedShare(c, a, b, w, stamp, to, clock);
    assert Shares(b.claims, c.window, to, clock) == shares[w := share];
    SumUpdate(shares, w, share);
    SumOfBits(shares[w := share]);
  }

  /** Claims only lapse as time passes. */
  lemma TickBounded(c: Config, l: Ledger, to: real, clock: real, later: real)
    requires Bounded(c, l, to, clock) && clock <= later
    ensures Bounded(c, l, to, later)
  {
    SumMonotone(Shares(l.claims, c.window, to, later), Shares(l.claims, c.window, to, clock));
  }

  lemma EmptyBounded(c: Config, l: Ledger, to: real, clock: real)
    requires l.log == [] && forall i :: 0 <= i < |l.claims| ==> l.claims[i] == Nothing
    ensures Bounded(c, l, to, clock)
  {
    SumOfZeros(Shares(l.claims, c.window, to, clock));
  }
}
