/** Per-address bandwidth: a byte budget for each one-second window. */
module Bandwidth {
  import opened Wrappers
  import opened RangeCharge

  const CAP: nat := 500 * MIB
  const WINDOW_SECS: nat := 1
  const CLEANUP_INTERVAL: nat := 10_000
  const UNKNOWN_IP: string := "unknown"

  datatype Bucket = Bucket(bytes: nat, resetAt: nat)

  /** A bucket whose second is over is as good as no bucket. */
  function At(b: Option<Bucket>, now: nat): Option<Bucket> {
    if b.Some? && now < b.value.resetAt then b else None
  }

  /** The reference budget: charge if the open second has room, else refuse and charge nothing. */
  function Spend(b: Option<Bucket>, bytes: nat, now: nat): (Bucket, bool) {
    var open := if At(b, now).Some? then b.value else Bucket(0, now + WINDOW_SECS * SECOND);
    if open.bytes + bytes <= CAP then (open.(bytes := open.bytes + bytes), true) else (open, false)
  }

  ghost predicate SameFrom(a: Option<Bucket>, b: Option<Bucket>, now: nat) {
    forall t: nat | now <= t :: At(a, t) == At(b, t)
  }

  /** Buckets that look alike from now on are charged alike. */
  lemma SpendRespectsSame(a: Option<Bucket>, b: Option<Bucket>, bytes: nat, now: nat)
    requires SameFrom(a, b, now)
    ensures Spend(a, bytes, now) == Spend(b, bytes, now)
  {
    assert At(a, now) == At(b, now);
  }

  function SaturatingAdd(a: nat, b: nat): nat {
    if a + b > U64_MAX then U64_MAX else a + b
  }

  class IpBandwidth {
    var buckets: map<string, Bucket>
    var opsSinceCleanup: nat

    constructor ()
      ensures buckets == map[] && opsSinceCleanup == 0
    {
      buckets := map[];
      opsSinceCleanup := 0;
    }

    /** Dropping finished buckets changes no answer given from `now` on. */
    method Cleanup(now: nat)
      modifies this`buckets
      ensures buckets.Keys <= old(buckets.Keys) && forall ip | ip in buckets :: now < buckets[ip].resetAt
      ensures forall ip, later | now <= later :: SameFrom(Lookup(buckets, ip), old(Lookup(buckets, ip)), later)
    {
      buckets := map ip | ip in buckets && now < buckets[ip].resetAt :: buckets[ip];
    }

    /** Charges one request; every so often it sweeps first, at a clock reading no later than its own. */
    method Check(ip: string, bytes: nat, sweepAt: nat, now: nat) returns (ok: bool)
      requires sweepAt <= now
      modifies this
      ensures Lookup(buckets, ip).Some?
      ensures (buckets[ip], ok) == Spend(old(Lookup(buckets, ip)), bytes, now)
      ensures forall other | other != ip :: SameFrom(Lookup(buckets, other), old(Lookup(buckets, other)), now)
    {
      var ops := opsSinceCleanup;
      opsSinceCleanup := opsSinceCleanup + 1;
      if ops >= CLEANUP_INTERVAL {
        opsSinceCleanup := 0;
        Cleanup(sweepAt);
      }
      ghost var swept := buckets;
      assert forall k :: SameFrom(Lookup(swept, k), old(Lookup(buckets, k)), now);
      assert At(Lookup(swept, ip), now) == At(old(Lookup(buckets, ip)), now);
      var bucket := if ip in buckets then buckets[ip] else Bucket(0, now + WINDOW_SECS * SECOND);
      if now >= bucket.resetAt {
        bucket := Bucket(0, now + WINDOW_SECS * SECOND);
      }
      var charged := SaturatingAdd(bucket.bytes, bytes);
      ok := charged <= CAP;
      buckets := buckets[ip := if ok then bucket.(bytes := charged) else bucket];
      assert forall other | other != ip :: Lookup(buckets, other) == Lookup(swept, other);
    }

    /** The middleware: a request with no known peer address is neither charged nor refused. */
    method Throttle(ip: string, range: Option<string>, sweepAt: nat, now: nat) returns (passed: bool)
      requires sweepAt <= now
      modifies this
      ensures ip == UNKNOWN_IP ==> passed && buckets == old(buckets)
      ensures ip != UNKNOWN_IP ==>
                && Lookup(buckets, ip).Some?
                && (buckets[ip], passed) == Spend(old(Lookup(buckets, ip)), Charge(range), now)
      ensures forall other | other != ip :: SameFrom(Lookup(buckets, other), old(Lookup(buckets, other)), now)
    {
      passed := true;
      if ip != UNKNOWN_IP {
        passed := Check(ip, Charge(range), sweepAt, now);
      }
    }
  }

  /***** How much one address can draw *****/

  datatype Request = Request(at: nat, cost: nat)

  ghost predicate InOrder(calls: seq<Request>) {
    forall i, j :: 0 <= i < j < |calls| ==> calls[i].at <= calls[j].at
  }

  /** Bytes charged for the admitted requests of one address in [lo, hi). */
  function Drawn(b: Option<Bucket>, calls: seq<Request>, lo: nat, hi: nat): nat
    decreases |calls|
  {
    if calls == [] then 0 else
      var (b', ok) := Spend(b, calls[0].cost, calls[0].at);
      (if ok && lo <= calls[0].at < hi then calls[0].cost else 0) + Drawn(Some(b'), calls[1..], lo, hi)
  }

  /** How many requests those were. */
  function Served(b: Option<Bucket>, calls: seq<Request>, lo: nat, hi: nat): nat
    decreases |calls|
  {
    if calls == [] then 0 else
      var (b', ok) := Spend(b, calls[0].cost, calls[0].at);
      (if ok && lo <= calls[0].at < hi then 1 else 0) + Served(Some(b'), calls[1..], lo, hi)
  }

  /** Which requests get through. */
  function Verdicts(b: Option<Bucket>, calls: seq<Request>): seq<bool>
    decreases |calls|
  {
    if calls == [] then [] else
      var (b', ok) := Spend(b, calls[0].cost, calls[0].at);
      [ok] + Verdicts(Some(b'), calls[1..])
  }

  /** Sweeps in between are invisible: buckets that look alike from now on serve every later run alike. */
  lemma {:induction false} SameServed(a: Option<Bucket>, b: Option<Bucket>, now: nat, calls: seq<Request>,
                                      lo: nat, hi: nat)
    requires SameFrom(a, b, now) && forall i :: 0 <= i < |calls| ==> now <= calls[i].at
    ensures Drawn(a, calls, lo, hi) == Drawn(b, calls, lo, hi)
    ensures Served(a, calls, lo, hi) == Served(b, calls, lo, hi)
    ensures Verdicts(a, calls) == Verdicts(b, calls)
  {
    if calls != [] {
      SpendRespectsSame(a, b, calls[0].cost, calls[0].at);
    }
  }

  /** A bucket holds at least the charge that opened it, and no more than the budget. */
  ghost predicate Sane(b: Option<Bucket>) { b.Some? ==> MIN_CHARGE <= b.value.bytes <= CAP }

  /** In order, and each costs what some request can cost. */
  ghost predicate Priceable(calls: seq<Request>) {
    InOrder(calls) && forall i :: 0 <= i < |calls| ==> MIN_CHARGE <= calls[i].cost <= OPEN_ENDED_CHARGE
  }

  lemma NothingDrawnFrom(b: Option<Bucket>, calls: seq<Request>, lo: nat, hi: nat)
    requires forall i :: 0 <= i < |calls| ==> hi <= calls[i].at
    ensures Drawn(b, calls, lo, hi) == 0
    decreases |calls|
  {
    if calls != [] {
      NothingDrawnFrom(Some(Spend(b, calls[0].cost, calls[0].at).0), calls[1..], lo, hi);
    }
  }

  /** Inside the second that ends at b.resetAt: what is left of it, and n - 1 later seconds. */
  lemma {:induction false} DrawnInside(b: Bucket, calls: seq<Request>, n: nat, lo: nat, hi: nat)
    requires Priceable(calls) && Sane(Some(b)) && 1 <= n
    requires hi <= b.resetAt + (n - 1) * SECOND
    ensures Drawn(Some(b), calls, lo, hi) <= CAP - b.bytes + (n - 1) * CAP
    decreases |calls|
  {
    if calls == [] {
    } else if hi <= calls[0].at {
      NothingDrawnFrom(Some(b), calls, lo, hi);
    } else {
      var (b', _) := Spend(Some(b), calls[0].cost, calls[0].at);
      if At(Some(b), calls[0].at).None? {
        assert n != 1;
        DrawnInside(b', calls[1..], n - 1, lo, hi);
      } else {
        DrawnInside(b', calls[1..], n, lo, hi);
      }
    }
  }

  lemma {:induction false} DrawnSince(b: Option<Bucket>, calls: seq<Request>, lo: nat, hi: nat, n: nat)
    requires Priceable(calls) && Sane(b) && hi <= lo + n * SECOND
    requires forall i :: 0 <= i < |calls| ==> lo <= calls[i].at
    ensures Drawn(b, calls, lo, hi) <= (if b.Some? then CAP - b.value.bytes else 0) + n * CAP
    decreases |calls|
  {
    if calls == [] {
    } else if hi <= calls[0].at {
      NothingDrawnFrom(b, calls, lo, hi);
    } else {
      var (b', _) := Spend(b, calls[0].cost, calls[0].at);
      if At(b, calls[0].at).None? {
        DrawnInside(b', calls[1..], n, lo, hi);
      } else {
        DrawnSince(Some(b'), calls[1..], lo, hi, n);
      }
    }
  }

  /** No interval of n seconds draws more than n + 1 budgets, less the least charge. */
  lemma {:induction false} DrawnBound(b: Option<Bucket>, calls: seq<Request>, lo: nat, n: nat)
    requires Priceable(calls) && Sane(b)
    ensures Drawn(b, calls, lo, lo + n * SECOND) <= (n + 1) * CAP - MIN_CHARGE
    decreases |calls|
  {
    if calls != [] && calls[0].at < lo {
      DrawnBound(Some(Spend(b, calls[0].cost, calls[0].at).0), calls[1..], lo, n);
    } else {
      DrawnSince(b, calls, lo, lo + n * SECOND, n);
    }
  }

  lemma {:induction false} ServedCosts(b: Option<Bucket>, calls: seq<Request>, lo: nat, hi: nat)
    requires forall i :: 0 <= i < |calls| ==> MIN_CHARGE <= calls[i].cost
    ensures Served(b, calls, lo, hi) * MIN_CHARGE <= Drawn(b, calls, lo, hi)
    decreases |calls|
  {
    if calls != [] {
      ServedCosts(Some(Spend(b, calls[0].cost, calls[0].at).0), calls[1..], lo, hi);
    }
  }

  /** Requests as they arrive: a time and a Range header. */
  function Priced(arrivals: seq<(nat, Option<string>)>): seq<Request> {
    seq(|arrivals|, i requires 0 <= i < |arrivals| => Request(arrivals[i].0, Charge(arrivals[i].1)))
  }

  ghost predicate TimesInOrder(arrivals: seq<(nat, Option<string>)>) {
    forall i, j :: 0 <= i < j < |arrivals| ==> arrivals[i].0 <= arrivals[j].0
  }

  lemma PricedIsPriceable(arrivals: seq<(nat, Option<string>)>)
    requires TimesInOrder(arrivals)
    ensures Priceable(Priced(arrivals))
  {
    forall i | 0 <= i < |arrivals| ensures MIN_CHARGE <= Priced(arrivals)[i].cost <= OPEN_ENDED_CHARGE {
      ChargeInRange(arrivals[i].1);
    }
  }

  /**
   MAIN: in any n seconds one address is charged at most (n + 1) * 500 MiB less 256 KiB, and gets fewer
   than (n + 1) * 2000 requests through, whatever Range headers it sends.
   */
  lemma AddressBound(b: Option<Bucket>, arrivals: seq<(nat, Option<string>)>, lo: nat, n: nat)
    requires Sane(b) && TimesInOrder(arrivals)
    ensures Drawn(b, Priced(arrivals), lo, lo + n * SECOND) <= (n + 1) * CAP - MIN_CHARGE
    ensures Served(b, Priced(arrivals), lo, lo + n * SECOND) <= (n + 1) * 2000 - 1
  {
    PricedIsPriceable(arrivals);
    DrawnBound(b, Priced(arrivals), lo, n);
    ServedCosts(b, Priced(arrivals), lo, lo + n * SECOND);
  }
}
