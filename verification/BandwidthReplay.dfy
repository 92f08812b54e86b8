/**
 The bandwidth middleware driven by requests from many addresses, with its sweeps: what each address
 gets is what the reference budget gives it.
 */
module BandwidthReplay {
  import opened Wrappers
  import opened RangeCharge
  import opened Bandwidth
  import opened BandwidthLaw

  /** `sweepAt` is the clock reading a sweep would use, no later than the request's own. */
  datatype Arrival = Arrival(ip: string, range: Option<string>, sweepAt: nat, at: nat)

  ghost predicate Proper(arrivals: seq<Arrival>, clock: nat)
    decreases |arrivals|
  {
    arrivals != [] ==>
      && clock <= arrivals[0].at
      && arrivals[0].sweepAt <= arrivals[0].at
      && Proper(arrivals[1..], arrivals[0].at)
  }

  /** What one address sends. */
  function From(ip: string, arrivals: seq<Arrival>): seq<(nat, Option<string>)> {
    if arrivals == [] then []
    else if arrivals[0].ip == ip then [(arrivals[0].at, arrivals[0].range)] + From(ip, arrivals[1..])
    else From(ip, arrivals[1..])
  }

  ghost predicate NoneBefore(sent: seq<(nat, Option<string>)>, clock: nat) {
    forall i :: 0 <= i < |sent| ==> clock <= sent[i].0
  }

  lemma {:induction false} FromInOrder(ip: string, arrivals: seq<Arrival>, clock: nat)
    requires Proper(arrivals, clock)
    ensures TimesInOrder(From(ip, arrivals)) && NoneBefore(From(ip, arrivals), clock)
    decreases |arrivals|
  {
    if arrivals != [] {
      FromInOrder(ip, arrivals[1..], arrivals[0].at);
    }
  }

  /** Bytes and requests let through in some interval. */
  datatype Traffic = Traffic(bytes: nat, count: nat) {
    function Plus(ok: bool, at: nat, cost: nat, lo: nat, hi: nat): Traffic {
      if ok && lo <= at < hi then Traffic(bytes + cost, count + 1) else this
    }
  }

  /** What one address got through in [lo, hi), read off the answers. */
  function Through(ip: string, arrivals: seq<Arrival>, passed: seq<bool>, lo: nat, hi: nat): Traffic
    requires |arrivals| == |passed|
  {
    if arrivals == [] then Traffic(0, 0) else
      var a := arrivals[0];
      var later := Through(ip, arrivals[1..], passed[1..], lo, hi);
      if a.ip == ip then later.Plus(passed[0], a.at, Charge(a.range), lo, hi) else later
  }

  /** What the reference budget lets through, with no sweep anywhere. */
  function Reference(b: Option<Bucket>, sent: seq<(nat, Option<string>)>, lo: nat, hi: nat): Traffic {
    Traffic(Drawn(b, Priced(sent), lo, hi), Served(b, Priced(sent), lo, hi))
  }

  lemma ReferenceStep(b: Option<Bucket>, at: nat, range: Option<string>, sent: seq<(nat, Option<string>)>,
                      lo: nat, hi: nat)
    ensures Reference(b, [(at, range)] + sent, lo, hi)
         == Reference(Some(Spend(b, Charge(range), at).0), sent, lo, hi)
              .Plus(Spend(b, Charge(range), at).1, at, Charge(range), lo, hi)
  {
    assert Priced([(at, range)] + sent)[1..] == Priced(sent);
  }

  /** The answers one address got. */
  function AnswersTo(ip: string, arrivals: seq<Arrival>, passed: seq<bool>): seq<bool>
    requires |arrivals| == |passed|
  {
    if arrivals == [] then []
    else if arrivals[0].ip == ip then [passed[0]] + AnswersTo(ip, arrivals[1..], passed[1..])
    else AnswersTo(ip, arrivals[1..], passed[1..])
  }

  lemma VerdictsStep(b: Option<Bucket>, at: nat, range: Option<string>, sent: seq<(nat, Option<string>)>)
    ensures Verdicts(b, Priced([(at, range)] + sent))
         == [Spend(b, Charge(range), at).1] + Verdicts(Some(Spend(b, Charge(range), at).0), Priced(sent))
  {
    assert Priced([(at, range)] + sent)[1..] == Priced(sent);
  }

  /** The answers give the address what the reference budget would. */
  ghost predicate AsReference(b: Option<Bucket>, ip: string, arrivals: seq<Arrival>, passed: seq<bool>)
    requires |arrivals| == |passed|
  {
    && AnswersTo(ip, arrivals, passed) == Verdicts(b, Priced(From(ip, arrivals)))
    && forall lo, hi :: Through(ip, arrivals, passed, lo, hi) == Reference(b, From(ip, arrivals), lo, hi)
  }

  /** An arrival of the address's own in front. */
  lemma OwnInFront(a: Arrival, rest: seq<Arrival>, before: Option<Bucket>, passed: seq<bool>)
    requires |rest| == |passed|
    requires AsReference(Some(Spend(before, Charge(a.range), a.at).0), a.ip, rest, passed)
    ensures AsReference(before, a.ip, [a] + rest, [Spend(before, Charge(a.range), a.at).1] + passed)
  {
    var (after, ok) := Spend(before, Charge(a.range), a.at);
    var arrivals, answers := [a] + rest, [ok] + passed;
    assert arrivals[1..] == rest && answers[1..] == passed;
    VerdictsStep(before, a.at, a.range, From(a.ip, rest));
    forall lo, hi ensures Through(a.ip, arrivals, answers, lo, hi) == Reference(before, From(a.ip, arrivals), lo, hi) {
      assert Through(a.ip, rest, passed, lo, hi) == Reference(Some(after), From(a.ip, rest), lo, hi);
      ReferenceStep(before, a.at, a.range, From(a.ip, rest), lo, hi);
    }
  }

  /** Somebody else's in front, with the sweep it may have caused. */
  lemma OtherInFront(ip: string, a: Arrival, rest: seq<Arrival>, before: Option<Bucket>, after: Option<Bucket>,
                     ok: bool, passed: seq<bool>)
    requires |rest| == |passed| && a.ip != ip && Proper(rest, a.at)
    requires SameFrom(after, before, a.at) && AsReference(after, ip, rest, passed)
    ensures AsReference(before, ip, [a] + rest, [ok] + passed)
  {
    var arrivals, answers := [a] + rest, [ok] + passed;
    assert arrivals[1..] == rest && answers[1..] == passed;
    FromInOrder(ip, rest, a.at);
    SameServed(after, before, a.at, Priced(From(ip, rest)), 0, 0);
    forall lo, hi ensures Through(ip, arrivals, answers, lo, hi) == Reference(before, From(ip, arrivals), lo, hi) {
      assert Through(ip, rest, passed, lo, hi) == Reference(after, From(ip, rest), lo, hi);
      SameServed(after, before, a.at, Priced(From(ip, rest)), lo, hi);
    }
  }

  /**
   MAIN: through any list of requests from any number of addresses, each known address gets exactly what
   the reference budget lets through, as if no sweep and no other address existed.
   */
  method Replay(bandwidth: IpBandwidth, arrivals: seq<Arrival>, ghost clock: nat) returns (passed: seq<bool>)
    requires Proper(arrivals, clock)
    modifies bandwidth
    ensures |passed| == |arrivals|
    ensures forall ip | ip != UNKNOWN_IP :: AsReference(old(Lookup(bandwidth.buckets, ip)), ip, arrivals, passed)
    decreases |arrivals|
  {
    passed := [];
    if arrivals != [] {
      var a, rest := arrivals[0], arrivals[1..];
      assert arrivals == [a] + rest;
      ghost var before := bandwidth.buckets;
      var ok := bandwidth.Throttle(a.ip, a.range, a.sweepAt, a.at);
      ghost var after := bandwidth.buckets;
      passed := Replay(bandwidth, rest, a.at);
      forall ip | ip != UNKNOWN_IP ensures AsReference(Lookup(before, ip), ip, arrivals, [ok] + passed) {
        if ip == a.ip {
          OwnInFront(a, rest, Lookup(before, ip), passed);
        } else {
          OtherInFront(ip, a, rest, Lookup(before, ip), Lookup(after, ip), ok, passed);
        }
      }
      passed := [ok] + passed;
    }
  }

  predicate WithinBudget(ip: string, arrivals: seq<Arrival>, passed: seq<bool>, lo: nat, n: nat)
    requires |arrivals| == |passed|
  {
    var traffic := Through(ip, arrivals, passed, lo, lo + n * SECOND);
    traffic.bytes <= (n + 1) * CAP - MIN_CHARGE && traffic.count <= (n + 1) * 2000 - 1
  }

  lemma ReferenceWithinBudget(ip: string, arrivals: seq<Arrival>, passed: seq<bool>, lo: nat, n: nat)
    requires Proper(arrivals, 0) && |arrivals| == |passed| && AsReference(None, ip, arrivals, passed)
    ensures WithinBudget(ip, arrivals, passed, lo, n)
  {
    var sent, hi := From(ip, arrivals), lo + n * SECOND;
    FromInOrder(ip, arrivals, 0);
    AddressBound(None, sent, lo, n);
    assert Through(ip, arrivals, passed, lo, hi) == Reference(None, sent, lo, hi);
  }

  /** MAIN: so from its start the middleware never lets an address past the bound, whatever everybody sends. */
  method ServeWithinBudget(bandwidth: IpBandwidth, arrivals: seq<Arrival>) returns (passed: seq<bool>)
    requires Proper(arrivals, 0) && bandwidth.buckets == map[]
    modifies bandwidth
    ensures |passed| == |arrivals|
    ensures forall ip, lo: nat, n: nat | ip != UNKNOWN_IP :: WithinBudget(ip, arrivals, passed, lo, n)
  {
    ghost var start := bandwidth.buckets;
    passed := Replay(bandwidth, arrivals, 0);
    forall ip, lo: nat, n: nat | ip != UNKNOWN_IP ensures WithinBudget(ip, arrivals, passed, lo, n) {
      assert AsReference(Lookup(start, ip), ip, arrivals, passed);
      ReferenceWithinBudget(ip, arrivals, passed, lo, n);
    }
  }

  /** Each answer an address got is the law's, on what it sent and nothing else. */
  ghost predicate Lawful(ip: string, arrivals: seq<Arrival>, passed: seq<bool>)
    requires |arrivals| == |passed|
  {
    var calls, answers := Priced(From(ip, arrivals)), AnswersTo(ip, arrivals, passed);
    |answers| == |calls| && forall i | 0 <= i < |calls| :: answers[i] == Allowed(calls, i)
  }

  /**
   MAIN: from its start the middleware lets a request of a known address through exactly when the charges
   let through since the address's open second began, with its own, are within 500 MiB.
   */
  method ServeLawfully(bandwidth: IpBandwidth, arrivals: seq<Arrival>) returns (passed: seq<bool>)
    requires Proper(arrivals, 0) && bandwidth.buckets == map[]
    modifies bandwidth
    ensures |passed| == |arrivals|
    ensures forall ip | ip != UNKNOWN_IP :: Lawful(ip, arrivals, passed)
  {
    ghost var start := bandwidth.buckets;
    passed := Replay(bandwidth, arrivals, 0);
    forall ip | ip != UNKNOWN_IP ensures Lawful(ip, arrivals, passed) {
      assert AsReference(Lookup(start, ip), ip, arrivals, passed);
      LawfulVerdicts(Priced(From(ip, arrivals)));
    }
  }
}
