/**
 The bandwidth budget said of its verdicts alone: which requests share a second, and which of them get
 through; and that the bounds on what an address draws are reached.  Times are in milliseconds.
 */
module BandwidthLaw {
  import opened Wrappers
  import opened Texts
  import opened RangeCharge
  import opened Bandwidth

  /***** The law *****/

  /** The request that opened the second request `i` falls in. */
  function SecondOf(calls: seq<Request>, i: nat): (s: nat)
    requires i < |calls|
    ensures s <= i
  {
    if i == 0 then 0 else
      var s := SecondOf(calls, i - 1);
      if calls[s].at + 1000 <= calls[i].at then i else s
  }

  /** The charges let through from `s` to before `i`. */
  function SpentFrom(calls: seq<Request>, s: nat, i: nat): nat
    requires s <= i <= |calls|
    decreases i, 0
  {
    if s == i then 0
    else SpentFrom(calls, s, i - 1) + (if Allowed(calls, i - 1) then calls[i - 1].cost else 0)
  }

  /** Its own charge and those let through since its second began are within 500 MiB. */
  predicate Allowed(calls: seq<Request>, i: nat)
    requires i < |calls|
    decreases i, 1
  {
    SpentFrom(calls, SecondOf(calls, i), i) + calls[i].cost <= 500 * 1024 * 1024
  }

  function BucketBefore(calls: seq<Request>, i: nat): Option<Bucket>
    requires i <= |calls|
  {
    if i == 0 then None else Some(Spend(BucketBefore(calls, i - 1), calls[i - 1].cost, calls[i - 1].at).0)
  }

  /** The budget holds what the law says was spent, and decides by it. */
  lemma {:induction false} BudgetObeys(calls: seq<Request>, i: nat)
    requires i < |calls|
    ensures Spend(BucketBefore(calls, i), calls[i].cost, calls[i].at)
         == (Bucket(SpentFrom(calls, SecondOf(calls, i), i + 1), calls[SecondOf(calls, i)].at + 1000),
             Allowed(calls, i))
    decreases i
  {
    if i > 0 {
      BudgetObeys(calls, i - 1);
    }
  }

  lemma {:induction false} VerdictsFrom(calls: seq<Request>, i: nat, k: nat)
    requires i <= k < |calls|
    ensures |Verdicts(BucketBefore(calls, i), calls[i..])| == |calls| - i
    ensures Verdicts(BucketBefore(calls, i), calls[i..])[k - i] == Allowed(calls, k)
    decreases |calls| - i
  {
    var rest := calls[i..];
    assert rest[0] == calls[i] && rest[1..] == calls[i + 1..];
    BudgetObeys(calls, i);
    if i < k {
      VerdictsFrom(calls, i + 1, k);
    } else if i + 1 < |calls| {
      VerdictsFrom(calls, i + 1, i + 1);
    }
  }

  /**
   MAIN: a request is let through exactly when the charges let through since its address's open second
   began, with its own, are within 500 MiB.
   */
  lemma LawfulVerdicts(calls: seq<Request>)
    ensures |Verdicts(None, calls)| == |calls|
    ensures forall i | 0 <= i < |calls| :: Verdicts(None, calls)[i] == Allowed(calls, i)
  {
    assert calls[0..] == calls;
    if calls != [] {
      VerdictsFrom(calls, 0, 0);
    }
    forall i | 0 <= i < |calls| ensures Verdicts(None, calls)[i] == Allowed(calls, i) {
      VerdictsFrom(calls, 0, i);
    }
  }

  /***** The bounds are reached *****/

  /** `k` requests of the least charge at one time. */
  function Burst(t: nat, k: nat): (calls: seq<Request>)
    ensures |calls| == k && forall i :: 0 <= i < k ==> calls[i] == Request(t, MIN_CHARGE)
  {
    seq(k, i => Request(t, MIN_CHARGE))
  }

  /** What a run draws and how many requests it gets through, in [lo, hi). */
  function DrawnAndServed(b: Option<Bucket>, calls: seq<Request>, lo: nat, hi: nat): (nat, nat) {
    (Drawn(b, calls, lo, hi), Served(b, calls, lo, hi))
  }

  function Plus(a: (nat, nat), k: nat): (nat, nat) { (a.0 + k * MIN_CHARGE, a.1 + k) }

  function Counted(t: nat, k: nat, lo: nat, hi: nat): nat { if lo <= t < hi then k else 0 }

  /** In an open second with room for `k` more, a burst of `k` gets through whole. */
  lemma {:induction false} BurstThrough(b: Bucket, t: nat, k: nat, rest: seq<Request>, lo: nat, hi: nat)
    requires t < b.resetAt && b.bytes + k * MIN_CHARGE <= CAP
    ensures DrawnAndServed(Some(b), Burst(t, k) + rest, lo, hi)
         == Plus(DrawnAndServed(Some(b.(bytes := b.bytes + k * MIN_CHARGE)), rest, lo, hi), Counted(t, k, lo, hi))
    decreases k
  {
    var all := Burst(t, k) + rest;
    if k == 0 {
      assert all == rest;
    } else {
      assert all[0] == Request(t, MIN_CHARGE) && all[1..] == Burst(t, k - 1) + rest;
      assert Spend(Some(b), MIN_CHARGE, t) == (b.(bytes := b.bytes + MIN_CHARGE), true);
      BurstThrough(b.(bytes := b.bytes + MIN_CHARGE), t, k - 1, rest, lo, hi);
    }
  }

  /** A burst that opens a second. */
  lemma OpeningBurst(b: Option<Bucket>, t: nat, k: nat, rest: seq<Request>, lo: nat, hi: nat)
    requires At(b, t).None? && 1 <= k && k * MIN_CHARGE <= CAP
    ensures DrawnAndServed(b, Burst(t, k) + rest, lo, hi)
         == Plus(DrawnAndServed(Some(Bucket(k * MIN_CHARGE, t + SECOND)), rest, lo, hi), Counted(t, k, lo, hi))
  {
    var all := Burst(t, k) + rest;
    assert all[1..] == Burst(t, k - 1) + rest;
    BurstThrough(Bucket(MIN_CHARGE, t + SECOND), t, k - 1, rest, lo, hi);
  }

  /** Two thousand such requests at the start of each of n seconds. */
  function FullSeconds(t: nat, n: nat): (calls: seq<Request>)
    ensures forall i :: 0 <= i < |calls| ==> t <= calls[i].at && calls[i].cost == MIN_CHARGE
    ensures InOrder(calls)
    decreases n
  {
    if n == 0 then [] else
      var later := FullSeconds(t + SECOND, n - 1);
      Burst(t, 2000) + later
  }

  lemma {:induction false} SecondsThrough(b: Option<Bucket>, t: nat, n: nat, lo: nat, hi: nat)
    requires At(b, t).None? && lo <= t && (n > 0 ==> t + (n - 1) * SECOND < hi)
    ensures DrawnAndServed(b, FullSeconds(t, n), lo, hi) == (n * CAP, n * 2000)
    decreases n
  {
    if n > 0 {
      var full := Some(Bucket(CAP, t + SECOND));
      OpeningBurst(b, t, 2000, FullSeconds(t + SECOND, n - 1), lo, hi);
      assert full == Some(Bucket(2000 * MIN_CHARGE, t + SECOND));
      SecondsThrough(full, t + SECOND, n - 1, lo, hi);
    }
  }

  /** One request opens a second whose others all come at its very end, and full seconds follow. */
  function WorstCalls(n: nat): seq<Request> {
    Burst(0, 1) + (Burst(999, 1999) + FullSeconds(1000, n))
  }

  lemma WorstThrough(n: nat)
    requires 1 <= n
    ensures DrawnAndServed(None, WorstCalls(n), 999, 999 + n * SECOND)
         == ((n + 1) * CAP - MIN_CHARGE, (n + 1) * 2000 - 1)
  {
    var hi, full := 999 + n * SECOND, FullSeconds(1000, n);
    OpeningBurst(None, 0, 1, Burst(999, 1999) + full, 999, hi);
    BurstThrough(Bucket(MIN_CHARGE, 1000), 999, 1999, full, 999, hi);
    SecondsThrough(Some(Bucket(2000 * MIN_CHARGE, 1000)), 1000, n, 999, hi);
  }

  /** The same as requests for one byte. */
  function WorstArrivals(n: nat): (arrivals: seq<(nat, Option<string>)>) {
    seq(|WorstCalls(n)|, i requires 0 <= i < |WorstCalls(n)| => (WorstCalls(n)[i].at, Some("bytes=0-0")))
  }

  lemma LeastCharge()
    ensures Charge(Some("bytes=0-0")) == MIN_CHARGE
  {
    assert Decimal(0) == "0";
    assert "bytes=" + Spec("0", "0") == "bytes=0-0";
    FiniteRangeCharge(0, 0, "0", "0");
  }

  lemma WorstOrdered(n: nat)
    ensures InOrder(WorstCalls(n)) && forall i :: 0 <= i < |WorstCalls(n)| ==> WorstCalls(n)[i].cost == MIN_CHARGE
  {
    var last := Burst(999, 1999) + FullSeconds(1000, n);
    assert InOrder(last) && forall i :: 0 <= i < |last| ==> 999 <= last[i].at && last[i].cost == MIN_CHARGE;
  }

  /** MAIN: the bounds are reached, in bytes and in requests, for every number of seconds from one up. */
  lemma BudgetsReached(n: nat)
    requires 1 <= n
    ensures TimesInOrder(WorstArrivals(n))
    ensures Drawn(None, Priced(WorstArrivals(n)), 999, 999 + n * SECOND) == (n + 1) * CAP - MIN_CHARGE
    ensures Served(None, Priced(WorstArrivals(n)), 999, 999 + n * SECOND) == (n + 1) * 2000 - 1
  {
    WorstOrdered(n);
    assert Priced(WorstArrivals(n)) == WorstCalls(n) by { LeastCharge(); }
    WorstThrough(n);
  }
}
