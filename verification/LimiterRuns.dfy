/**
 Whole histories of one key, over both backends.

 A check is answered by memory, by Redis, or by memory after Redis failed; a failed Redis
 call may or may not have been executed by the server.
 */
module LimiterRuns {
  import opened Wrappers
  import opened LimiterBounds
  import opened LimiterSpec

  datatype Route = Memory | Redis | MemoryAfterError(executed: bool)

  datatype Event =
    | Check(at: nat, p: Params, route: Route)
    | Reset(at: nat, reached: bool)
    | Sweep(at: nat)

  /** The phases the two backends hold for the key. */
  datatype Backends = Backends(memory: Phase, redis: Phase)

  const UNTOUCHED := Backends(Fresh, Fresh)

  function Do(v: Backends, e: Event): (Backends, bool) {
    match e
    case Check(at, p, Memory) =>
      var (m, ok) := Step(v.memory, at, p); (v.(memory := m), ok)
    case Check(at, p, Redis) =>
      var (r, ok) := Step(v.redis, at, p); (v.(redis := r), ok)
    case Check(at, p, MemoryAfterError(executed)) =>
      var r := if executed then Step(v.redis, at, p).0 else v.redis;
      var (m, ok) := Step(v.memory, at, p);
      (Backends(m, r), ok)
    case Reset(_, reached) => (Backends(Fresh, if reached then Fresh else v.redis), true)
    case Sweep(_) => (v, true)
  }

  /** `after` and `ok` are what `Do` says, up to differences no later call can see. */
  ghost predicate Follows(before: Backends, e: Event, after: Backends, ok: bool) {
    var (v, answer) := Do(before, e);
    && ok == answer
    && SameFrom(after.memory, v.memory, e.at)
    && SameFrom(after.redis, v.redis, e.at)
  }

  ghost predicate SameBackends(a: Backends, b: Backends, now: nat) {
    SameFrom(a.memory, b.memory, now) && SameFrom(a.redis, b.redis, now)
  }

  lemma DoRespectsSame(a: Backends, b: Backends, e: Event)
    requires SameBackends(a, b, e.at)
    ensures Do(a, e).1 == Do(b, e).1
    ensures SameBackends(Do(a, e).0, Do(b, e).0, e.at)
  {
    if e.Check? {
      StepRespectsSame(a.memory, b.memory, e.at, e.p);
      StepRespectsSame(a.redis, b.redis, e.at, e.p);
    }
  }

  /***** Observed histories of a limiter *****/

  /** One method call: the key's phases just before and just after it, and its answer. */
  datatype Observed = Observed(event: Event, before: Backends, after: Backends, ok: bool)

  /** A history starting from phases `v`: each call does what it promises, and in between phases only run out. */
  ghost predicate History(v: Backends, log: seq<Observed>, clock: nat)
    decreases |log|
  {
    log != [] ==>
      && clock <= log[0].event.at
      && SameBackends(v, log[0].before, log[0].event.at)
      && Follows(log[0].before, log[0].event, log[0].after, log[0].ok)
      && History(log[0].after, log[1..], log[0].event.at)
  }

  /** A history may be taken to start earlier, from phases that have only run out since. */
  lemma StartsEarlier(v: Backends, w: Backends, log: seq<Observed>, clock: nat, later: nat)
    requires History(w, log, later) && SameBackends(v, w, later) && clock <= later
    ensures History(v, log, clock)
  {}

  /** The answers given to checks. */
  function Given(log: seq<Observed>): seq<bool> {
    if log == [] then []
    else if log[0].event.Check? then [log[0].ok] + Given(log[1..])
    else Given(log[1..])
  }

  /** What happened, with the sweeper's visits left out. */
  function Visible(log: seq<Observed>): seq<Event> {
    if log == [] then []
    else if log[0].event.Sweep? then Visible(log[1..])
    else [log[0].event] + Visible(log[1..])
  }

  /** The answers the reference machine gives. */
  function Answers(v: Backends, events: seq<Event>): seq<bool>
    decreases |events|
  {
    if events == [] then [] else
      var (v', ok) := Do(v, events[0]);
      if events[0].Check? then [ok] + Answers(v', events[1..]) else Answers(v', events[1..])
  }

  /** MAIN: a history's answers are those of the reference machine on the same calls, as if the sweeper never ran. */
  lemma {:induction false} HistoryAnswers(v: Backends, w: Backends, log: seq<Observed>, clock: nat)
    requires History(v, log, clock) && SameBackends(v, w, clock)
    ensures Given(log) == Answers(w, Visible(log))
    decreases |log|
  {
    if log != [] {
      var o := log[0];
      DoRespectsSame(o.before, w, o.event);
      HistoryAnswers(o.after, Do(w, o.event).0, log[1..], o.event.at);
      if !o.event.Sweep? {
        assert Visible(log)[0] == o.event && Visible(log)[1..] == Visible(log[1..]);
      }
    }
  }

  /***** One backend against the other *****/

  /** The call, answered by one backend; a limiter without Redis resets its memory only. */
  function Via(e: Event, route: Route): Event {
    match e
    case Check(at, p, _) => Check(at, p, route)
    case Reset(at, _) => Reset(at, route.Redis?)
    case Sweep(at) => Sweep(at)
  }

  function OnlyVia(events: seq<Event>, route: Route): seq<Event> {
    if events == [] then [] else [Via(events[0], route)] + OnlyVia(events[1..], route)
  }

  lemma {:induction false} RoutesAgree(v: Backends, w: Backends, events: seq<Event>)
    requires v.memory == w.redis
    ensures Answers(v, OnlyVia(events, Memory)) == Answers(w, OnlyVia(events, Redis))
    decreases |events|
  {
    if events != [] {
      var a, b := OnlyVia(events, Memory), OnlyVia(events, Redis);
      assert a[1..] == OnlyVia(events[1..], Memory) && b[1..] == OnlyVia(events[1..], Redis);
      RoutesAgree(Do(v, a[0]).0, Do(w, b[0]).0, events[1..]);
    }
  }

  /**
   MAIN: the in-memory limiter and the Redis script answer alike.  Two histories of the same checks
   and resets, with any parameters at each call, one answered by memory and one by Redis, sweeps
   inserted anywhere, give the same list of answers.
   */
  lemma BackendsAgree(events: seq<Event>, inMemory: seq<Observed>, inRedis: seq<Observed>)
    requires History(UNTOUCHED, inMemory, 0) && Visible(inMemory) == OnlyVia(events, Memory)
    requires History(UNTOUCHED, inRedis, 0) && Visible(inRedis) == OnlyVia(events, Redis)
    ensures Given(inMemory) == Given(inRedis)
  {
    HistoryAnswers(UNTOUCHED, UNTOUCHED, inMemory, 0);
    HistoryAnswers(UNTOUCHED, UNTOUCHED, inRedis, 0);
    RoutesAgree(UNTOUCHED, UNTOUCHED, events);
  }

  /***** Failing over *****/

  /** A key only ever checked with `p`, and never reset. */
  ghost predicate OnlyChecks(events: seq<Event>, p: Params) {
    forall e | e in events :: e.Check? && e.p == p
  }

  ghost predicate InOrder(events: seq<Event>) {
    forall i, j :: 0 <= i < j < |events| ==> events[i].at <= events[j].at
  }

  /** Checks admitted in [lo, hi), by whichever backend answered. */
  function AdmittedCalls(v: Backends, events: seq<Event>, lo: nat, hi: nat): nat
    decreases |events|
  {
    if events == [] then 0 else
      var (v', ok) := Do(v, events[0]);
      (if events[0].Check? && ok && lo <= events[0].at < hi then 1 else 0) + AdmittedCalls(v', events[1..], lo, hi)
  }

  predicate ReachesMemory(e: Event) { e.Check? && !e.route.Redis? }

  predicate ReachesRedis(e: Event) { e.Check? && (e.route.Redis? || (e.route.MemoryAfterError? && e.route.executed)) }

  function Times(events: seq<Event>, reaches: Event -> bool): seq<nat> {
    if events == [] then []
    else if reaches(events[0]) then [events[0].at] + Times(events[1..], reaches)
    else Times(events[1..], reaches)
  }

  lemma TimesInOrder(events: seq<Event>, reaches: Event -> bool, least: nat)
    requires InOrder(events) && forall e | e in events :: least <= e.at
    ensures Nondecreasing(Times(events, reaches))
    ensures forall i :: 0 <= i < |Times(events, reaches)| ==> least <= Times(events, reaches)[i]
    decreases |events|
  {
    if events != [] {
      TimesInOrder(events[1..], reaches, events[0].at);
    }
  }

  /** Each admitted call was admitted by memory or by Redis, on the calls that reached it. */
  lemma {:induction false} SplitAdmissions(v: Backends, events: seq<Event>, p: Params, lo: nat, hi: nat)
    requires OnlyChecks(events, p)
    ensures AdmittedCalls(v, events, lo, hi)
         <= Admitted(v.memory, p, Times(events, ReachesMemory), lo, hi)
          + Admitted(v.redis, p, Times(events, ReachesRedis), lo, hi)
    decreases |events|
  {
    if events != [] {
      var e := events[0];
      assert e in events;
      SplitAdmissions(Do(v, e).0, events[1..], p, lo, hi);
      assert ReachesMemory(e) ==> Times(events, ReachesMemory)[1..] == Times(events[1..], ReachesMemory);
      assert ReachesRedis(e) ==> Times(events, ReachesRedis)[1..] == Times(events[1..], ReachesRedis);
    }
  }

  /**
   MAIN: however calls are split between the backends, with a connection that appears late and errors
   that may or may not have counted the call, an interval of n spacings admits at most twice the bound.
   */
  lemma FailoverBound(events: seq<Event>, p: Params, lo: nat, hi: nat, n: nat)
    requires OnlyChecks(events, p) && InOrder(events) && hi <= lo + n * p.Spacing()
    ensures AdmittedCalls(UNTOUCHED, events, lo, hi) <= 2 * Ceiling(p, n)
  {
    SplitAdmissions(UNTOUCHED, events, p, lo, hi);
    TimesInOrder(events, ReachesMemory, 0);
    TimesInOrder(events, ReachesRedis, 0);
    AdmissionBound(Fresh, p, Times(events, ReachesMemory), lo, hi, n);
    AdmissionBound(Fresh, p, Times(events, ReachesRedis), lo, hi, n);
  }

  /** Every call made twice: once answered by Redis, once by memory because the request was lost. */
  function EachTwice(p: Params, times: seq<nat>): seq<Event> {
    if times == [] then [] else
      [Check(times[0], p, Redis), Check(times[0], p, MemoryAfterError(false))] + EachTwice(p, times[1..])
  }

  lemma {:induction false} EachTwiceOrdered(p: Params, times: seq<nat>)
    requires Nondecreasing(times)
    ensures InOrder(EachTwice(p, times)) && OnlyChecks(EachTwice(p, times), p)
    ensures forall e | e in EachTwice(p, times) :: times != [] && times[0] <= e.at
    decreases |times|
  {
    if times != [] {
      EachTwiceOrdered(p, times[1..]);
      var pair := [Check(times[0], p, Redis), Check(times[0], p, MemoryAfterError(false))];
      var rest := EachTwice(p, times[1..]);
      assert forall i :: 0 <= i < |rest| ==> rest[i] in rest;
      assert forall e | e in EachTwice(p, times) :: e in pair || e in rest;
    }
  }

  lemma {:induction false} EachTwiceAdmitted(v: Backends, p: Params, times: seq<nat>, lo: nat, hi: nat)
    ensures AdmittedCalls(v, EachTwice(p, times), lo, hi)
         == Admitted(v.memory, p, times, lo, hi) + Admitted(v.redis, p, times, lo, hi)
    decreases |times|
  {
    if times != [] {
      var events := EachTwice(p, times);
      var v' := Do(v, events[0]).0;
      var v'' := Do(v', events[1]).0;
      EachTwiceAdmitted(v'', p, times[1..], lo, hi);
      assert events[1..][0] == events[1] && events[1..][1..] == EachTwice(p, times[1..]);
    }
  }

  /** MAIN: the factor two is needed: calls split between the backends do reach twice the bound. */
  lemma FailoverBoundAttained(p: Params, n: nat)
    requires 2 <= p.max && 1 <= p.window && 1 <= p.block && 1 <= n
    ensures var events, lo := EachTwice(p, WorstTimes(p, n)), p.Window() - 1;
            && OnlyChecks(events, p) && InOrder(events)
            && AdmittedCalls(UNTOUCHED, events, lo, lo + n * p.Spacing()) == 2 * Ceiling(p, n)
  {
    var lo := p.Window() - 1;
    BoundIsAttained(p, n);
    EachTwiceOrdered(p, WorstTimes(p, n));
    EachTwiceAdmitted(UNTOUCHED, p, WorstTimes(p, n), lo, lo + n * p.Spacing());
  }

  /** Checks a history admitted in [lo, hi). */
  function AdmittedInLog(log: seq<Observed>, lo: nat, hi: nat): nat {
    if log == [] then 0 else
      var o := log[0];
      (if o.event.Check? && o.ok && lo <= o.event.at < hi then 1 else 0) + AdmittedInLog(log[1..], lo, hi)
  }

  lemma {:induction false} HistoryAdmissions(v: Backends, w: Backends, log: seq<Observed>, clock: nat, lo: nat, hi: nat)
    requires History(v, log, clock) && SameBackends(v, w, clock)
    ensures AdmittedInLog(log, lo, hi) == AdmittedCalls(w, Visible(log), lo, hi)
    ensures InOrder(Visible(log)) && forall e | e in Visible(log) :: clock <= e.at
    decreases |log|
  {
    if log != [] {
      var o := log[0];
      DoRespectsSame(o.before, w, o.event);
      HistoryAdmissions(o.after, Do(w, o.event).0, log[1..], o.event.at, lo, hi);
      if !o.event.Sweep? {
        assert Visible(log)[0] == o.event && Visible(log)[1..] == Visible(log[1..]);
      }
    }
  }

  /** MAIN: the failover bound, for every history a limiter can produce, with sweeps anywhere in it. */
  lemma HistoryFailoverBound(log: seq<Observed>, p: Params, lo: nat, hi: nat, n: nat)
    requires History(UNTOUCHED, log, 0) && OnlyChecks(Visible(log), p) && hi <= lo + n * p.Spacing()
    ensures AdmittedInLog(log, lo, hi) <= 2 * Ceiling(p, n)
  {
    HistoryAdmissions(UNTOUCHED, UNTOUCHED, log, 0, lo, hi);
    FailoverBound(Visible(log), p, lo, hi, n);
  }
}
