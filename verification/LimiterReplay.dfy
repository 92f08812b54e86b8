/**
 The limiter driven by a list of requests over many keys: what it does is a history in the sense of
 `LimiterRuns`, so everything proved there holds of the answers it really gives.
 */
module LimiterReplay {
  import opened Wrappers
  import opened LimiterSpec
  import opened LimiterRuns
  import opened LimiterLaw
  import opened RedisStore
  import opened RateLimiter

  /** `Connect` is a reconnect that lands in the slot while the limiter is in use. */
  datatype Request =
    | Ask(key: string, at: nat, p: Params, wire: Wire)
    | Clear(key: string, at: nat, wire: Wire)
    | Clean(at: nat)
    | Connect(at: nat)

  /** Times do not step backwards, and attempts fit 32 bits. */
  ghost predicate Proper(requests: seq<Request>, clock: nat)
    decreases |requests|
  {
    requests != [] ==>
      && clock <= requests[0].at
      && (requests[0].Ask? ==> requests[0].p.Valid())
      && Proper(requests[1..], requests[0].at)
  }

  /** What a request asks of one key, whoever answers. */
  function AskedBy(r: Request, key: string): Option<Event> {
    match r
    case Ask(k, at, p, _) => if k == key then Some(Check(at, p, Memory)) else None
    case Clear(k, at, _) => if k == key then Some(Event.Reset(at, false)) else None
    case _ => None
  }

  function Asked(requests: seq<Request>, key: string): seq<Event> {
    if requests == [] then []
    else match AskedBy(requests[0], key)
      case Some(e) => [e] + Asked(requests[1..], key)
      case None => Asked(requests[1..], key)
  }

  /** The same calls in the same order, whoever answered them. */
  ghost predicate SameCall(asked: Event, seen: Event) {
    match asked
    case Check(at, p, _) => seen.Check? && seen.at == at && seen.p == p
    case Reset(at, _) => seen.Reset? && seen.at == at
    case Sweep(at) => seen == asked
  }

  ghost predicate SameCalls(asked: seq<Event>, seen: seq<Event>) {
    |asked| == |seen| && forall i :: 0 <= i < |asked| ==> SameCall(asked[i], seen[i])
  }

  /** Redis takes every request and its replies arrive. */
  ghost predicate AllAnswered(requests: seq<Request>) {
    forall r | r in requests :: (r.Ask? || r.Clear?) ==> r.wire.Answered?
  }

  /** Checks of one key that were let through in [lo, hi), read off the answers. */
  function Passed(requests: seq<Request>, key: string, answers: seq<bool>, lo: nat, hi: nat): nat
    decreases |requests|
  {
    if requests == [] then 0
    else if requests[0].Ask? && requests[0].key == key && answers != [] then
      (if answers[0] && lo <= requests[0].at < hi then 1 else 0) + Passed(requests[1..], key, answers[1..], lo, hi)
    else Passed(requests[1..], key, answers, lo, hi)
  }

  /** What one request is to the history of `key`, if anything. */
  ghost function EventFor(limiter: RateLimiter, key: string, r: Request): Option<Event>
    reads limiter, limiter.redis.cell
  {
    match r
    case Ask(k, at, p, wire) => if k == key then Some(Check(at, p, limiter.RouteNow(wire))) else None
    case Clear(k, at, wire) =>
      if k == key then Some(Event.Reset(at, limiter.redis.Resolve().Some? && !wire.RequestLost?)) else None
    case Clean(at) => Some(Sweep(at))
    case Connect(_) => None
  }

  /** Serves one request, and says what it was to the history of `key`. */
  method Serve(limiter: RateLimiter, conn: Redis, key: string, r: Request) returns (ok: bool)
    requires limiter.Valid(r.at) && conn == limiter.server && (r.Ask? ==> r.p.Valid())
    modifies limiter, limiter.server, limiter.redis.cell
    ensures limiter.Valid(r.at)
    ensures var e := old(EventFor(limiter, key, r));
            if e.Some? then Follows(old(limiter.View(key, r.at)), e.value, limiter.View(key, r.at), ok)
            else limiter.View(key, r.at) == old(limiter.View(key, r.at))
    ensures old(limiter.redis.cell.inner).Some? ==> limiter.redis.cell.inner == old(limiter.redis.cell.inner)
  {
    ok := true;
    match r {
      case Ask(k, at, p, wire) => ok := limiter.CheckWith(k, p, at, wire);
      case Clear(k, at, wire) => limiter.Reset(k, at, wire);
      case Clean(at) => limiter.CleanupExpired(at);
      case Connect(_) => var _ := limiter.redis.Install(conn);
    }
  }

  /** The log of a list of requests, and the answers given in it. */
  ghost predicate Logs(requests: seq<Request>, key: string, answers: seq<bool>, log: seq<Observed>) {
    && answers == Given(log)
    && SameCalls(Asked(requests, key), Visible(log))
    && forall lo, hi :: AdmittedInLog(log, lo, hi) == Passed(requests, key, answers, lo, hi)
  }

  ghost predicate AllVia(requests: seq<Request>, key: string, log: seq<Observed>, route: Route) {
    Visible(log) == OnlyVia(Asked(requests, key), route)
  }

  /** One request in front of a logged list, seen by the key. */
  lemma LogsFront(r: Request, rest: seq<Request>, key: string, o: Observed, answers: seq<bool>, log: seq<Observed>)
    requires Logs(rest, key, answers, log)
    requires match AskedBy(r, key) case Some(e) => SameCall(e, o.event) case None => r.Clean? && o.event.Sweep?
    ensures Logs([r] + rest, key, if o.event.Check? then [o.ok] + answers else answers, [o] + log)
  {
    var requests, answers', log' := [r] + rest, if o.event.Check? then [o.ok] + answers else answers, [o] + log;
    assert requests[1..] == rest && log'[1..] == log;
    assert o.event.Check? ==> answers'[1..] == answers;
    forall lo, hi ensures AdmittedInLog(log', lo, hi) == Passed(requests, key, answers', lo, hi) {
      assert AdmittedInLog(log, lo, hi) == Passed(rest, key, answers, lo, hi);
    }
  }

  /** One request in front that the key does not see. */
  lemma LogsUnseen(r: Request, rest: seq<Request>, key: string, answers: seq<bool>, log: seq<Observed>)
    requires Logs(rest, key, answers, log) && AskedBy(r, key).None?
    ensures Logs([r] + rest, key, answers, log)
  {
    var requests := [r] + rest;
    assert requests[1..] == rest;
    forall lo, hi ensures AdmittedInLog(log, lo, hi) == Passed(requests, key, answers, lo, hi) {
      assert AdmittedInLog(log, lo, hi) == Passed(rest, key, answers, lo, hi);
    }
  }

  lemma AllViaFront(r: Request, rest: seq<Request>, key: string, o: Observed, log: seq<Observed>, route: Route)
    requires AllVia(rest, key, log, route)
    requires match AskedBy(r, key) case Some(e) => o.event == Via(e, route) case None => o.event.Sweep?
    ensures AllVia([r] + rest, key, [o] + log, route)
  {
    var requests, log' := [r] + rest, [o] + log;
    assert requests[1..] == rest && log'[1..] == log;
    if AskedBy(r, key).Some? {
      var e := AskedBy(r, key).value;
      assert ([e] + Asked(rest, key))[1..] == Asked(rest, key);
    }
  }

  lemma AllViaUnseen(r: Request, rest: seq<Request>, key: string, log: seq<Observed>, route: Route)
    requires AllVia(rest, key, log, route) && AskedBy(r, key).None?
    ensures AllVia([r] + rest, key, log, route)
  {
    assert ([r] + rest)[1..] == rest;
  }

  /**
   MAIN: whatever is asked, of however many keys, with a connection that may land at any time and
   replies that may get lost, what one key sees is a history, and the answers are those of the history.
   */
  method Replay(limiter: RateLimiter, conn: Redis, key: string, requests: seq<Request>, ghost clock: nat)
    returns (answers: seq<bool>, ghost log: seq<Observed>)
    requires limiter.Valid(clock) && conn == limiter.server && Proper(requests, clock)
    modifies limiter, limiter.server, limiter.redis.cell
    ensures History(old(limiter.View(key, clock)), log, clock) && Logs(requests, key, answers, log)
    ensures old(limiter.redis.cell.inner) == Some(None) ==> AllVia(requests, key, log, Memory)
    ensures old(limiter.redis.Resolve()).Some? && AllAnswered(requests) ==> AllVia(requests, key, log, Route.Redis)
    decreases |requests|
  {
    answers, log := [], [];
    if requests != [] {
      var r, rest := requests[0], requests[1..];
      assert requests == [r] + rest && r in requests;
      ghost var first, inner := limiter.View(key, clock), limiter.redis.cell.inner;
      limiter.Ages(key, clock, r.at);
      ghost var before, event := limiter.View(key, r.at), EventFor(limiter, key, r);
      var ok := Serve(limiter, conn, key, r);
      ghost var after := limiter.View(key, r.at);
      ghost var later;
      answers, later := Replay(limiter, conn, key, rest, r.at);
      if event.Some? {
        ghost var o := Observed(event.value, before, after, ok);
        log := [o] + later;
        LogsFront(r, rest, key, o, answers, later);
        if inner == Some(None) { AllViaFront(r, rest, key, o, later, Memory); }
        if inner.Some? && inner.value.Some? && AllAnswered(requests) {
          AllViaFront(r, rest, key, o, later, Route.Redis);
        }
      } else {
        log := later;
        StartsEarlier(first, after, log, clock, r.at);
        LogsUnseen(r, rest, key, answers, log);
        if inner == Some(None) { AllViaUnseen(r, rest, key, log, Memory); }
        if inner.Some? && inner.value.Some? && AllAnswered(requests) {
          AllViaUnseen(r, rest, key, log, Route.Redis);
        }
      }
      if r.Ask? && r.key == key {
        answers := [ok] + answers;
      }
    }
  }

  /***** What that means for the answers *****/

  predicate Disabled(limiter: RateLimiter)
    reads limiter.redis.cell
  {
    limiter.redis.cell.inner == Some(None)
  }

  /**
   MAIN: a limiter without Redis and one whose Redis takes every request give a key the same answers,
   for the same requests over any number of keys.
   */
  method AnswerAlike(local: RateLimiter, remote: RateLimiter, mine: Redis, other: Redis, key: string,
                     requests: seq<Request>)
    returns (locally: seq<bool>, remotely: seq<bool>)
    requires local.Valid(0) && remote.Valid(0) && mine == local.server && other == remote.server
    requires local != remote && mine != other && local.redis.cell != remote.redis.cell
    requires Proper(requests, 0) && AllAnswered(requests)
    requires Disabled(local) && remote.redis.Resolve().Some?
    requires local.View(key, 0) == UNTOUCHED == remote.View(key, 0)
    modifies local, mine, local.redis.cell, remote, other, remote.redis.cell
    ensures locally == remotely
  {
    ghost var inMemory, inRedis;
    locally, inMemory := Replay(local, mine, key, requests, 0);
    remotely, inRedis := Replay(remote, other, key, requests, 0);
    BackendsAgree(Asked(requests, key), inMemory, inRedis);
  }

  /** The key is only checked, always with `p`. */
  ghost predicate OnlyAsks(requests: seq<Request>, key: string, p: Params) {
    forall r | r in requests :: (r.Ask? && r.key == key ==> r.p == p) && !(r.Clear? && r.key == key)
  }

  lemma {:induction false} AskedOnlyChecks(requests: seq<Request>, key: string, p: Params)
    requires OnlyAsks(requests, key, p)
    ensures OnlyChecks(Asked(requests, key), p)
  {
    if requests != [] {
      assert requests[0] in requests;
      AskedOnlyChecks(requests[1..], key, p);
    }
  }

  lemma SeenOnlyChecks(asked: seq<Event>, seen: seq<Event>, p: Params)
    requires SameCalls(asked, seen) && OnlyChecks(asked, p)
    ensures OnlyChecks(seen, p)
  {
    forall e | e in seen ensures e.Check? && e.p == p {
      var i :| 0 <= i < |seen| && seen[i] == e;
      assert SameCall(asked[i], seen[i]) && asked[i] in asked;
    }
  }

  ghost predicate PassesWithinBound(requests: seq<Request>, key: string, answers: seq<bool>, p: Params) {
    forall lo: nat, hi: nat, n: nat | hi <= lo + n * p.Spacing() ::
      Passed(requests, key, answers, lo, hi) <= 2 * Ceiling(p, n)
  }

  /**
   MAIN: the limiter itself, through any list of requests, with failovers, lost replies, late connections and
   sweeps, lets through at most twice the bound in any interval.
   */
  method ServeWithinBound(limiter: RateLimiter, conn: Redis, key: string, requests: seq<Request>, p: Params)
    returns (answers: seq<bool>)
    requires limiter.Valid(0) && conn == limiter.server && Proper(requests, 0)
    requires limiter.View(key, 0) == UNTOUCHED && OnlyAsks(requests, key, p)
    modifies limiter, conn, limiter.redis.cell
    ensures PassesWithinBound(requests, key, answers, p)
  {
    ghost var log;
    answers, log := Replay(limiter, conn, key, requests, 0);
    AskedOnlyChecks(requests, key, p);
    SeenOnlyChecks(Asked(requests, key), Visible(log), p);
    forall lo: nat, hi: nat, n: nat | hi <= lo + n * p.Spacing()
      ensures Passed(requests, key, answers, lo, hi) <= 2 * Ceiling(p, n)
    {
      HistoryFailoverBound(log, p, lo, hi, n);
      assert AdmittedInLog(log, lo, hi) == Passed(requests, key, answers, lo, hi);
    }
  }

  lemma {:induction false} AskedNoSweeps(requests: seq<Request>, key: string)
    ensures NoSweeps(Asked(requests, key))
  {
    if requests != [] {
      AskedNoSweeps(requests[1..], key);
    }
  }

  lemma {:induction false} AskedInOrder(requests: seq<Request>, key: string, clock: nat)
    requires Proper(requests, clock)
    ensures InOrder(Asked(requests, key)) && forall e | e in Asked(requests, key) :: clock <= e.at
    decreases |requests|
  {
    if requests != [] {
      AskedInOrder(requests[1..], key, requests[0].at);
    }
  }

  /** One backend serves the limiter throughout: its memory, or a Redis that takes every request. */
  ghost predicate OneBackend(limiter: RateLimiter, requests: seq<Request>)
    reads limiter.redis.cell
  {
    Disabled(limiter) || (limiter.redis.Resolve().Some? && AllAnswered(requests))
  }

  /** MAIN: the limiter, with either backend, answers every list of checks and resets of a key by the law. */
  method ServeLawfully(limiter: RateLimiter, conn: Redis, key: string, requests: seq<Request>)
    returns (answers: seq<bool>)
    requires limiter.Valid(0) && conn == limiter.server && Proper(requests, 0)
    requires limiter.View(key, 0) == UNTOUCHED && OneBackend(limiter, requests)
    modifies limiter, conn, limiter.redis.cell
    ensures answers == Rulings(Asked(requests, key))
  {
    ghost var local := Disabled(limiter);
    ghost var log;
    answers, log := Replay(limiter, conn, key, requests, 0);
    AskedNoSweeps(requests, key);
    HistoryAnswers(UNTOUCHED, UNTOUCHED, log, 0);
    LawfulAnswers(Asked(requests, key), if local then Memory else Route.Redis);
  }

  /** `i` was refused and `i - 1`, if there is one, was not: the call that reached the limit. */
  predicate TurnsDown(answers: seq<bool>, i: nat)
    requires i < |answers|
  {
    !answers[i] && (i == 0 || answers[i - 1])
  }

  /** From the answer that turns a caller down, all are refusals until the block is over, and then one is not. */
  ghost predicate KeepsBlocks(calls: seq<Event>, answers: seq<bool>)
    requires |calls| == |answers| && AllCalls(calls)
  {
    forall i, j | 0 <= i < j < |calls| && TurnsDown(answers, i) :: KeepsBlock(calls, answers, i, j)
  }

  ghost predicate KeepsBlock(calls: seq<Event>, answers: seq<bool>, i: nat, j: nat)
    requires i < j < |calls| == |answers| && AllCalls(calls)
  {
    var end := calls[i].at + calls[i].p.block * 1000;
    && (calls[j].at < end ==> !answers[j])
    && (end <= calls[j].at && (forall k | i < k < j :: calls[k].at < end) ==> (answers[j] <==> 2 <= calls[j].p.max))
  }

  lemma RulingsKeepBlock(calls: seq<Event>, answers: seq<bool>, i: nat, j: nat)
    requires InOrder(calls) && AllCalls(calls) && answers == Rulings(calls)
    requires i < j < |calls| == |answers| && TurnsDown(answers, i)
    ensures KeepsBlock(calls, answers, i, j)
  {
    RulingsAt(calls, i);
    RulingsAt(calls, j);
    if i > 0 { RulingsAt(calls, i - 1); }
    assert ReachesLimit(calls, i);
    if calls[j].at < BlockEnd(calls, i) {
      BlockKept(calls, i, j);
    } else if forall k | i < k < j :: calls[k].at < BlockEnd(calls, i) {
      BlockOver(calls, i, j);
    }
  }

  lemma RulingsKeepBlocks(calls: seq<Event>)
    requires InOrder(calls) && AllCalls(calls)
    ensures |Rulings(calls)| == |calls| && KeepsBlocks(calls, Rulings(calls))
  {
    RulingsAt(calls, 0);
    forall i, j | 0 <= i < j < |calls| && TurnsDown(Rulings(calls), i)
      ensures KeepsBlock(calls, Rulings(calls), i, j)
    {
      RulingsKeepBlock(calls, Rulings(calls), i, j);
    }
  }

  /**
   MAIN: after the call of a key that reaches the limit at t, every call of it before t + block seconds is
   refused, whatever calls fall in between, and the first from then on is answered as on a fresh key.
   */
  method ServeBlocking(limiter: RateLimiter, conn: Redis, key: string, requests: seq<Request>)
    returns (answers: seq<bool>)
    requires limiter.Valid(0) && conn == limiter.server && Proper(requests, 0)
    requires limiter.View(key, 0) == UNTOUCHED && OneBackend(limiter, requests)
    requires AllCalls(Asked(requests, key))
    modifies limiter, conn, limiter.redis.cell
    ensures |answers| == |Asked(requests, key)| && KeepsBlocks(Asked(requests, key), answers)
  {
    answers := ServeLawfully(limiter, conn, key, requests);
    AskedInOrder(requests, key, 0);
    RulingsKeepBlocks(Asked(requests, key));
  }
}
