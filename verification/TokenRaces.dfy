/**
 The same cache and tables with the operations cut at their await points: a lookup is a cache
 check, a database read and a later cache insert; a revocation is its database write and a later
 eviction; a logout is an eviction and a later delete.  Any number of them interleave.
 */
module TokenRaces {
  import opened Wrappers
  import opened TokenStore

  /** An operation between two of its steps. */
  datatype Flight =
    | Missed(token: string)
    | HasRead(token: string, uid: int, readAt: nat)
    | Revoking(uid: int)
    | LoggingOut(token: string)

  datatype State = State(clock: nat, tokens: Tokens, issued: set<string>, cache: map<string, Cached>,
                         flights: map<int, Flight>)

  datatype Action =
    | Tick(elapsed: nat)
    | Issue(token: string, uid: int)
    | CacheHit(token: string)
    | Miss(pid: int, token: string)
    | Read(pid: int)
    | Insert(pid: int)
    | RevokeRows(pid: int, uid: int)
    | DeleteRows(pid: int, uid: int)
    | Invalidate(pid: int)
    | LogoutEvict(pid: int, token: string)
    | LogoutDelete(pid: int)
    | Evict(token: string)

  predicate Live(s: State, token: string) {
    token in s.cache && Fresh(s.cache[token], s.clock)
  }

  predicate Valid(s: State, token: string) { Active(s.tokens, token, s.clock) }

  /** `delay` is the longest time a lookup may take from its database read to its cache insert. */
  predicate Enabled(delay: nat, s: State, a: Action) {
    match a
    case Tick(_) => true
    case Issue(token, _) => token !in s.issued
    case CacheHit(token) => Live(s, token)
    case Miss(pid, token) => pid !in s.flights && !Live(s, token)
    case Read(pid) => pid in s.flights && s.flights[pid].Missed?
    case Insert(pid) => pid in s.flights && s.flights[pid].HasRead? && s.clock <= s.flights[pid].readAt + delay
    case RevokeRows(pid, _) => pid !in s.flights
    case DeleteRows(pid, _) => pid !in s.flights
    case Invalidate(pid) => pid in s.flights && s.flights[pid].Revoking?
    case LogoutEvict(pid, _) => pid !in s.flights
    case LogoutDelete(pid) => pid in s.flights && s.flights[pid].LoggingOut?
    case Evict(_) => true
  }

  function Landed(s: State, pid: int): State { s.(flights := s.flights - {pid}) }

  function Next(delay: nat, s: State, a: Action): State
    requires Enabled(delay, s, a)
  {
    match a
    case Tick(elapsed) => s.(clock := s.clock + elapsed)
    case Issue(token, uid) =>
      s.(issued := s.issued + {token}, tokens := s.tokens[token := TokenRow(uid, s.clock + TOKEN_LIFETIME, false)])
    case CacheHit(_) => s
    case Miss(pid, token) => s.(flights := s.flights[pid := Missed(token)])
    case Read(pid) =>
      var token := s.flights[pid].token;
      if Valid(s, token) then s.(flights := s.flights[pid := HasRead(token, s.tokens[token].uid, s.clock)])
      else Landed(s, pid)
    case Insert(pid) =>
      var f := s.flights[pid];
      Landed(s, pid).(cache := s.cache[f.token := Cached(f.uid, s.clock)])
    case RevokeRows(pid, uid) =>
      s.(tokens := Revoked(s.tokens, uid, s.clock), flights := s.flights[pid := Revoking(uid)])
    case DeleteRows(pid, uid) =>
      s.(tokens := Dropped(s.tokens, uid), flights := s.flights[pid := Revoking(uid)])
    case Invalidate(pid) =>
      Landed(s, pid).(cache := map t | t in s.cache && s.cache[t].uid != s.flights[pid].uid :: s.cache[t])
    case LogoutEvict(pid, token) =>
      s.(cache := s.cache - {token}, flights := s.flights[pid := LoggingOut(token)])
    case LogoutDelete(pid) =>
      Landed(s, pid).(tokens := s.tokens - {s.flights[pid].token})
    case Evict(token) => s.(cache := s.cache - {token})
  }

  /** A lookup answers "yes" for the token: from the cache, or when it has stored what it read. */
  predicate Authenticates(s: State, a: Action, token: string) {
    || a == CacheHit(token)
    || (a.Insert? && a.pid in s.flights && s.flights[a.pid].HasRead? && s.flights[a.pid].token == token)
  }

  /***** Runs *****/

  const START := State(0, map[], {}, map[], map[])

  ghost predicate Run(delay: nat, s: State, actions: seq<Action>)
    decreases |actions|
  {
    actions != [] ==> Enabled(delay, s, actions[0]) && Run(delay, Next(delay, s, actions[0]), actions[1..])
  }

  /** The state after the first `n` actions. */
  function StateAt(delay: nat, s: State, actions: seq<Action>, n: nat): State
    requires Run(delay, s, actions) && n <= |actions|
    decreases |actions|
  {
    if n == 0 then s else StateAt(delay, Next(delay, s, actions[0]), actions[1..], n - 1)
  }

  function End(delay: nat, s: State, actions: seq<Action>): State
    requires Run(delay, s, actions)
  {
    StateAt(delay, s, actions, |actions|)
  }

  lemma {:induction false} StateStep(delay: nat, s: State, actions: seq<Action>, n: nat)
    requires Run(delay, s, actions) && n < |actions|
    ensures Enabled(delay, StateAt(delay, s, actions, n), actions[n])
    ensures StateAt(delay, s, actions, n + 1) == Next(delay, StateAt(delay, s, actions, n), actions[n])
    decreases n
  {
    if n > 0 {
      StateStep(delay, Next(delay, s, actions[0]), actions[1..], n - 1);
    }
  }

  /***** How stale an answer can be *****/

  /** Some state up to the `n`th had the token valid at clock `since` or later. */
  ghost predicate WasValid(delay: nat, actions: seq<Action>, n: nat, token: string, since: int)
    requires Run(delay, START, actions) && n <= |actions|
  {
    exists j: nat :: j <= n && ValidAt(delay, actions, j, token, since)
  }

  ghost predicate ValidAt(delay: nat, actions: seq<Action>, j: nat, token: string, since: int)
    requires Run(delay, START, actions) && j <= |actions|
  {
    var s := StateAt(delay, START, actions, j);
    Valid(s, token) && since <= s.clock
  }

  /** Everything cached, and everything read and not yet cached, was valid recently enough. */
  ghost predicate Witnessed(delay: nat, actions: seq<Action>, n: nat)
    requires Run(delay, START, actions) && n <= |actions|
  {
    var s := StateAt(delay, START, actions, n);
    && (forall t | t in s.cache :: WasValid(delay, actions, n, t, s.cache[t].at - delay))
    && (forall p | p in s.flights && s.flights[p].HasRead? ::
          WasValid(delay, actions, n, s.flights[p].token, s.flights[p].readAt))
  }

  lemma StillWitnessed(delay: nat, actions: seq<Action>, n: nat, token: string, since: int, lower: int)
    requires Run(delay, START, actions) && n < |actions|
    requires WasValid(delay, actions, n, token, since) && lower <= since
    ensures WasValid(delay, actions, n + 1, token, lower)
  {
    var j: nat :| j <= n && ValidAt(delay, actions, j, token, since);
    assert ValidAt(delay, actions, j, token, lower);
  }

  lemma CacheStepWitnessed(delay: nat, actions: seq<Action>, n: nat, t: string)
    requires Run(delay, START, actions) && n < |actions| && Witnessed(delay, actions, n)
    requires t in StateAt(delay, START, actions, n + 1).cache
    ensures WasValid(delay, actions, n + 1, t, StateAt(delay, START, actions, n + 1).cache[t].at - delay)
  {
    StateStep(delay, START, actions, n);
    var s, a, s' := StateAt(delay, START, actions, n), actions[n], StateAt(delay, START, actions, n + 1);
    if a.Insert? && t == s.flights[a.pid].token {
      StillWitnessed(delay, actions, n, t, s.flights[a.pid].readAt, s'.cache[t].at - delay);
    } else {
      StillWitnessed(delay, actions, n, t, s.cache[t].at - delay, s'.cache[t].at - delay);
    }
  }

  lemma FlightStepWitnessed(delay: nat, actions: seq<Action>, n: nat, p: int)
    requires Run(delay, START, actions) && n < |actions| && Witnessed(delay, actions, n)
    requires var s' := StateAt(delay, START, actions, n + 1); p in s'.flights && s'.flights[p].HasRead?
    ensures var f := StateAt(delay, START, actions, n + 1).flights[p];
            WasValid(delay, actions, n + 1, f.token, f.readAt)
  {
    StateStep(delay, START, actions, n);
    var s, a, s' := StateAt(delay, START, actions, n), actions[n], StateAt(delay, START, actions, n + 1);
    if a.Read? && p == a.pid {
      assert ValidAt(delay, actions, n, s'.flights[p].token, s.clock);
    } else {
      StillWitnessed(delay, actions, n, s.flights[p].token, s.flights[p].readAt, s.flights[p].readAt);
    }
  }

  lemma {:induction false} AlwaysWitnessed(delay: nat, actions: seq<Action>, n: nat)
    requires Run(delay, START, actions) && n <= |actions|
    ensures Witnessed(delay, actions, n)
    decreases n
  {
    if n > 0 {
      AlwaysWitnessed(delay, actions, n - 1);
      var s := StateAt(delay, START, actions, n);
      forall t | t in s.cache ensures WasValid(delay, actions, n, t, s.cache[t].at - delay) {
        CacheStepWitnessed(delay, actions, n - 1, t);
      }
      forall p | p in s.flights && s.flights[p].HasRead?
        ensures WasValid(delay, actions, n, s.flights[p].token, s.flights[p].readAt)
      {
        FlightStepWitnessed(delay, actions, n - 1, p);
      }
    }
  }

  /**
   MAIN: in every interleaving, a token that authenticates was valid in the database less than
   the cache's time to live plus the longest read-to-insert delay earlier.
   */
  lemma StalenessBound(delay: nat, actions: seq<Action>, n: nat, token: string)
    requires Run(delay, START, actions) && n < |actions|
    requires Authenticates(StateAt(delay, START, actions, n), actions[n], token)
    ensures exists j: nat :: j <= n
              && Valid(StateAt(delay, START, actions, j), token)
              && StateAt(delay, START, actions, n).clock
                 < StateAt(delay, START, actions, j).clock + TOKEN_CACHE_TTL + delay
  {
    var s, a := StateAt(delay, START, actions, n), actions[n];
    AlwaysWitnessed(delay, actions, n);
    StateStep(delay, START, actions, n);
    var since: int := if a.CacheHit? then s.cache[token].at - delay else s.flights[a.pid].readAt;
    assert WasValid(delay, actions, n, token, since);
    var j: nat :| j <= n && ValidAt(delay, actions, j, token, since);
    assert Valid(StateAt(delay, START, actions, j), token);
  }

  /***** When a dead token can still authenticate *****/

  /** Some later step of the run answers "yes" for the token. */
  ghost predicate Admits(delay: nat, s: State, actions: seq<Action>, token: string)
    requires Run(delay, s, actions)
    decreases |actions|
  {
    && actions != []
    && (Authenticates(s, actions[0], token) || Admits(delay, Next(delay, s, actions[0]), actions[1..], token))
  }

  /** Issued once, and since revoked or deleted: it never becomes valid again. */
  predicate Gone(s: State, token: string) {
    token in s.issued && (token in s.tokens ==> s.tokens[token].revoked)
  }

  /** A lookup that read the token and may still store it. */
  predicate MayStore(delay: nat, s: State, p: int, token: string) {
    p in s.flights && s.flights[p].HasRead? && s.flights[p].token == token && s.clock <= s.flights[p].readAt + delay
  }

  ghost predicate ReadInFlight(delay: nat, s: State, token: string) {
    exists p :: MayStore(delay, s, p, token)
  }

  lemma GoneStays(delay: nat, s: State, a: Action, token: string)
    requires Enabled(delay, s, a) && Gone(s, token)
    requires !Live(s, token) && !ReadInFlight(delay, s, token)
    ensures var s' := Next(delay, s, a);
            Gone(s', token) && !Live(s', token) && !ReadInFlight(delay, s', token)
    ensures !Authenticates(s, a, token)
  {
    var s' := Next(delay, s, a);
    assert a.Insert? ==> !MayStore(delay, s, a.pid, token);
    forall p ensures !MayStore(delay, s', p, token) {
      assert !MayStore(delay, s, p, token);
    }
  }

  lemma {:induction false} NeverAgain(delay: nat, s: State, actions: seq<Action>, token: string)
    requires Run(delay, s, actions) && Gone(s, token)
    requires !Live(s, token) && !ReadInFlight(delay, s, token)
    ensures !Admits(delay, s, actions, token)
    decreases |actions|
  {
    if actions != [] {
      GoneStays(delay, s, actions[0], token);
      NeverAgain(delay, Next(delay, s, actions[0]), actions[1..], token);
    }
  }

  /** One step that answers "yes" is a run that does. */
  lemma OneStepAdmits(delay: nat, s: State, a: Action, token: string)
    requires Enabled(delay, s, a) && Authenticates(s, a, token)
    ensures CanAuthenticate(delay, s, token)
  {
    var actions := [a];
    assert actions[1..] == [];
    assert Run(delay, Next(delay, s, a), []);
    assert Run(delay, s, actions);
  }

  /** Some continuation answers "yes" for the token. */
  ghost predicate CanAuthenticate(delay: nat, s: State, token: string) {
    exists actions :: Run(delay, s, actions) && Admits(delay, s, actions, token)
  }

  /**
   MAIN: a revoked or deleted token can authenticate again if and only if it is still cached, or some
   lookup read it in time and has not stored it yet.
   */
  lemma CanStillAuthenticate(delay: nat, s: State, token: string)
    requires Gone(s, token)
    ensures CanAuthenticate(delay, s, token) <==> Live(s, token) || ReadInFlight(delay, s, token)
  {
    if Live(s, token) {
      OneStepAdmits(delay, s, CacheHit(token), token);
    } else if ReadInFlight(delay, s, token) {
      var p :| MayStore(delay, s, p, token);
      OneStepAdmits(delay, s, Insert(p), token);
    } else {
      forall actions | Run(delay, s, actions) ensures !Admits(delay, s, actions, token) {
        NeverAgain(delay, s, actions, token);
      }
    }
  }

  /**
   MAIN: a revocation is final the moment its eviction is done, exactly when no lookup is then holding
   the token it read before.
   */
  lemma RevocationFinalExactly(delay: nat, s: State, pid: int, token: string)
    requires Enabled(delay, s, Invalidate(pid)) && Gone(s, token)
    requires Live(s, token) ==> s.cache[token].uid == s.flights[pid].uid
    ensures !CanAuthenticate(delay, Next(delay, s, Invalidate(pid)), token) <==> !ReadInFlight(delay, s, token)
  {
    var s' := Next(delay, s, Invalidate(pid));
    CanStillAuthenticate(delay, s', token);
    forall p ensures MayStore(delay, s, p, token) <==> MayStore(delay, s', p, token) {
    }
  }

  /***** From the issue of a token to the end of it *****/

  predicate ActiveFor(s: State, t: string, uid: int) { Valid(s, t) && s.tokens[t].uid == uid }

  /** A lookup of a valid token that nothing disturbs answers "yes", and leaves it cached. */
  lemma ValidIsAccepted(delay: nat, s: State, pid: int, token: string)
    requires Valid(s, token) && !Live(s, token) && pid !in s.flights
    ensures Enabled(delay, s, Miss(pid, token))
    ensures var s1 := Next(delay, s, Miss(pid, token)); Enabled(delay, s1, Read(pid))
    ensures var s2 := Next(delay, Next(delay, s, Miss(pid, token)), Read(pid));
            && Enabled(delay, s2, Insert(pid)) && Authenticates(s2, Insert(pid), token)
            && Live(Next(delay, s2, Insert(pid)), token)
  {}

  /** Whatever the cache or a lookup holds of the token names its owner. */
  ghost predicate OwnedBy(s: State, t: string, uid: int) {
    && t in s.issued && (t in s.tokens ==> s.tokens[t].uid == uid) && (t in s.cache ==> s.cache[t].uid == uid)
    && forall p | p in s.flights && s.flights[p].HasRead? && s.flights[p].token == t :: s.flights[p].uid == uid
  }

  /** Nothing anywhere mentions a token that was never issued. */
  ghost predicate AllIssued(s: State) {
    && (forall t | t in s.tokens :: t in s.issued) && (forall t | t in s.cache :: t in s.issued)
    && forall p | p in s.flights && s.flights[p].HasRead? :: s.flights[p].token in s.issued
  }

  lemma {:induction false} OwnerFollows(delay: nat, s: State, actions: seq<Action>, t: string, uid: int)
    requires Run(delay, s, actions) && AllIssued(s) && (OwnedBy(s, t, uid) || Issue(t, uid) in actions)
    ensures OwnedBy(End(delay, s, actions), t, uid)
    decreases |actions|
  {
    if actions != [] {
      OwnerFollows(delay, Next(delay, s, actions[0]), actions[1..], t, uid);
    }
  }

  lemma {:induction false} GonePersists(delay: nat, s: State, actions: seq<Action>, t: string)
    requires Run(delay, s, actions) && Gone(s, t)
    ensures Gone(End(delay, s, actions), t)
    decreases |actions|
  {
    if actions != [] {
      GonePersists(delay, Next(delay, s, actions[0]), actions[1..], t);
    }
  }

  lemma {:induction false} StillRevoking(delay: nat, s: State, actions: seq<Action>, pid: int, uid: int)
    requires Run(delay, s, actions) && Invalidate(pid) !in actions
    requires pid in s.flights && s.flights[pid] == Revoking(uid)
    ensures var e := End(delay, s, actions); pid in e.flights && e.flights[pid] == Revoking(uid)
    decreases |actions|
  {
    if actions != [] {
      assert actions[0] in actions;
      StillRevoking(delay, Next(delay, s, actions[0]), actions[1..], pid, uid);
    }
  }

  /** The database write of a revocation ends the account's valid tokens, and nobody else's. */
  lemma RevocationEnds(delay: nat, s: State, a: Action, pid: int, uid: int)
    requires AllIssued(s) && Enabled(delay, s, a) && (a == RevokeRows(pid, uid) || a == DeleteRows(pid, uid))
    ensures var s' := Next(delay, s, a);
            && (forall t | ActiveFor(s, t, uid) :: Gone(s', t))
            && (forall t | t in s.tokens && s.tokens[t].uid != uid :: t in s'.tokens && s'.tokens[t] == s.tokens[t])
  {}

  /**
   MAIN: in every interleaving, a token of the account that was valid when its revocation wrote to the
   database can never authenticate once the eviction is done, exactly if no lookup then still holds it.
   */
  lemma RevocationTakesEffect(delay: nat, before: seq<Action>, a: Action, pid: int, uid: int, between: seq<Action>,
                              t: string)
    requires Run(delay, START, before) && Issue(t, uid) in before && ActiveFor(End(delay, START, before), t, uid)
    requires a == RevokeRows(pid, uid) || a == DeleteRows(pid, uid)
    requires Enabled(delay, End(delay, START, before), a)
    requires Run(delay, Next(delay, End(delay, START, before), a), between) && Invalidate(pid) !in between
    ensures var e := End(delay, Next(delay, End(delay, START, before), a), between);
            && Enabled(delay, e, Invalidate(pid))
            && (!CanAuthenticate(delay, Next(delay, e, Invalidate(pid)), t) <==> !ReadInFlight(delay, e, t))
  {
    var s := End(delay, START, before);
    var s' := Next(delay, s, a);
    var e := End(delay, s', between);
    AllIssuedStays(delay, START, before);
    OwnerFollows(delay, START, before, t, uid);
    RevocationEnds(delay, s, a, pid, uid);
    GonePersists(delay, s', between, t);
    StillRevoking(delay, s', between, pid, uid);
    assert OwnedBy(s', t, uid) && AllIssued(s');
    OwnerFollows(delay, s', between, t, uid);
    RevocationFinalExactly(delay, e, pid, t);
  }

  lemma {:induction false} AllIssuedStays(delay: nat, s: State, actions: seq<Action>)
    requires Run(delay, s, actions) && AllIssued(s)
    ensures AllIssued(End(delay, s, actions))
    decreases |actions|
  {
    if actions != [] {
      AllIssuedStays(delay, Next(delay, s, actions[0]), actions[1..]);
    }
  }

  /** MAIN: a logout ends the token for good exactly if, at its delete, it is neither cached nor held by a lookup. */
  lemma LogoutTakesEffect(delay: nat, s: State, pid: int, t: string)
    requires AllIssued(s) && t in s.issued && Enabled(delay, s, LogoutDelete(pid)) && s.flights[pid].token == t
    ensures var e := Next(delay, s, LogoutDelete(pid));
            !CanAuthenticate(delay, e, t) <==> !Live(s, t) && !ReadInFlight(delay, s, t)
  {
    var e := Next(delay, s, LogoutDelete(pid));
    CanStillAuthenticate(delay, e, t);
    forall p ensures MayStore(delay, s, p, t) <==> MayStore(delay, e, p, t) {}
  }

  /***** One session per account, when logins overlap *****/

  /** Leaves the account `uid` without a token it could use: what `has_active_tokens` reports. */
  ghost predicate NoneActive(s: State, uid: int) {
    forall t | Valid(s, t) :: s.tokens[t].uid != uid
  }

  ghost predicate OneSession(s: State, uid: int) {
    forall t, u | Valid(s, t) && Valid(s, u) && s.tokens[t].uid == uid == s.tokens[u].uid :: t == u
  }

  /** Tokens a run did not issue stay tokens it was issued before. */
  ghost predicate Recorded(s: State) { forall t | t in s.tokens :: t in s.issued }

  lemma {:induction false} RecordedStays(delay: nat, s: State, actions: seq<Action>)
    requires Run(delay, s, actions) && Recorded(s)
    ensures Recorded(End(delay, s, actions))
    decreases |actions|
  {
    if actions != [] {
      RecordedStays(delay, Next(delay, s, actions[0]), actions[1..]);
    }
  }

  /** A session a run ends with was there before, or the run issued it. */
  lemma {:induction false} ActiveWasIssued(delay: nat, s: State, actions: seq<Action>, t: string, uid: int)
    requires Run(delay, s, actions) && ActiveFor(End(delay, s, actions), t, uid)
    ensures ActiveFor(s, t, uid) || Issue(t, uid) in actions
    decreases |actions|
  {
    if actions != [] {
      var s' := Next(delay, s, actions[0]);
      ActiveWasIssued(delay, s', actions[1..], t, uid);
      if Issue(t, uid) !in actions[1..] && !ActiveFor(s, t, uid) {
        assert actions[0] == Issue(t, uid);
      }
    }
  }

  /** A token keeps its owner for as long as it has a row. */
  lemma {:induction false} OwnerKept(delay: nat, s: State, actions: seq<Action>, t: string, uid: int)
    requires Run(delay, s, actions) && t in s.issued && (t in s.tokens ==> s.tokens[t].uid == uid)
    ensures var e := End(delay, s, actions); t in e.tokens ==> e.tokens[t].uid == uid
    decreases |actions|
  {
    if actions != [] {
      OwnerKept(delay, Next(delay, s, actions[0]), actions[1..], t, uid);
    }
  }

  lemma {:induction false} IssuedOwner(delay: nat, s: State, actions: seq<Action>, t: string, uid: int)
    requires Run(delay, s, actions) && Issue(t, uid) in actions
    ensures var e := End(delay, s, actions); t in e.tokens ==> e.tokens[t].uid == uid
    decreases |actions|
  {
    var s' := Next(delay, s, actions[0]);
    if actions[0] == Issue(t, uid) {
      OwnerKept(delay, s', actions[1..], t, uid);
    } else {
      IssuedOwner(delay, s', actions[1..], t, uid);
    }
  }

  lemma NoneActiveStays(delay: nat, s: State, actions: seq<Action>, uid: int)
    requires Run(delay, s, actions) && NoneActive(s, uid) && forall t :: Issue(t, uid) !in actions
    ensures NoneActive(End(delay, s, actions), uid)
  {
    var e := End(delay, s, actions);
    forall t | Valid(e, t) ensures e.tokens[t].uid != uid {
      if ActiveFor(e, t, uid) {
        ActiveWasIssued(delay, s, actions, t, uid);
      }
    }
  }

  /**
   MAIN: a login revokes the account's sessions and later issues its own token.  Whatever other steps
   fall between the two, the account ends with one session exactly when every token that other logins
   issued to it in between has since been revoked or deleted or has expired; which is exactly when
   none is active at the moment of issue.
   */
  lemma LoginIsAloneExactly(delay: nat, s: State, pid: int, uid: int, between: seq<Action>, token: string)
    requires Recorded(s) && Enabled(delay, s, RevokeRows(pid, uid))
    requires Run(delay, Next(delay, s, RevokeRows(pid, uid)), between)
    requires var e := End(delay, Next(delay, s, RevokeRows(pid, uid)), between);
             Enabled(delay, e, Issue(token, uid))
    ensures var e := End(delay, Next(delay, s, RevokeRows(pid, uid)), between);
            && (OneSession(Next(delay, e, Issue(token, uid)), uid) <==> NoneActive(e, uid))
            && (NoneActive(e, uid) <==> forall t | Issue(t, uid) in between :: !Valid(e, t))
  {
    var s' := Next(delay, s, RevokeRows(pid, uid));
    var e := End(delay, s', between);
    var e' := Next(delay, e, Issue(token, uid));
    RecordedStays(delay, s', between);
    assert Valid(e', token) && e'.tokens[token].uid == uid;
    forall t | t != token ensures Valid(e', t) <==> Valid(e, t) {}
    RevokedHasNone(s.tokens, uid, s.clock);
    forall t | Issue(t, uid) in between && Valid(e, t) ensures ActiveFor(e, t, uid) {
      IssuedOwner(delay, s', between, t, uid);
    }
    forall t | ActiveFor(e, t, uid) ensures Issue(t, uid) in between {
      ActiveWasIssued(delay, s', between, t, uid);
      assert ActiveFor(s', t, uid) ==> Valid(s', t);
    }
  }

  /***** Interleavings that break the promises made for undisturbed operations *****/

  /** Runs the actions from `s`, if each is enabled in its turn. */
  ghost function Play(delay: nat, s: State, actions: seq<Action>): Option<State>
    decreases |actions|
  {
    if actions == [] then Some(s)
    else if Enabled(delay, s, actions[0]) then Play(delay, Next(delay, s, actions[0]), actions[1..]) else None
  }

  lemma PlayTwo(delay: nat, s: State, a: Action, b: Action, rest: seq<Action>)
    requires Enabled(delay, s, a) && Enabled(delay, Next(delay, s, a), b)
    ensures Play(delay, s, [a, b] + rest) == Play(delay, Next(delay, Next(delay, s, a), b), rest)
  {
    assert ([a, b] + rest)[1..] == [b] + rest;
    assert ([b] + rest)[1..] == rest;
  }

  /** A lookup between a logout's eviction and its delete stores the token again: logged out, still accepted. */
  lemma LogoutRace(delay: nat, token: string, uid: int)
    ensures var end := Play(delay, START, [Issue(token, uid), LogoutEvict(0, token)]
                                          + ([Miss(1, token), Read(1)] + [Insert(1), LogoutDelete(0)]));
            end.Some? && Gone(end.value, token) && Live(end.value, token)
  {
    PlayTwo(delay, START, Issue(token, uid), LogoutEvict(0, token),
            [Miss(1, token), Read(1)] + [Insert(1), LogoutDelete(0)]);
    var s := Next(delay, Next(delay, START, Issue(token, uid)), LogoutEvict(0, token));
    PlayTwo(delay, s, Miss(1, token), Read(1), [Insert(1), LogoutDelete(0)]);
    var t := Next(delay, Next(delay, s, Miss(1, token)), Read(1));
    PlayTwo(delay, t, Insert(1), LogoutDelete(0), []);
    assert [Insert(1), LogoutDelete(0)] + [] == [Insert(1), LogoutDelete(0)];
  }

  /** A lookup that read before the revocation and stores after its eviction: revoked, still accepted. */
  lemma RevocationRace(delay: nat, token: string, uid: int)
    ensures var end := Play(delay, START, [Issue(token, uid), Miss(0, token)]
                                          + ([Read(0), RevokeRows(1, uid)] + [Invalidate(1), Insert(0)]));
            end.Some? && Gone(end.value, token) && Live(end.value, token)
  {
    PlayTwo(delay, START, Issue(token, uid), Miss(0, token),
            [Read(0), RevokeRows(1, uid)] + [Invalidate(1), Insert(0)]);
    var s := Next(delay, Next(delay, START, Issue(token, uid)), Miss(0, token));
    PlayTwo(delay, s, Read(0), RevokeRows(1, uid), [Invalidate(1), Insert(0)]);
    var t := Next(delay, Next(delay, s, Read(0)), RevokeRows(1, uid));
    PlayTwo(delay, t, Invalidate(1), Insert(0), []);
    assert [Invalidate(1), Insert(0)] + [] == [Invalidate(1), Insert(0)];
  }

  /** Two logins that both revoke before either issues leave the account with two sessions. */
  lemma LoginRace(delay: nat, first: string, second: string, uid: int)
    requires first != second
    ensures var end := Play(delay, START, [RevokeRows(0, uid), RevokeRows(1, uid)]
                                          + [Issue(first, uid), Issue(second, uid)]);
            end.Some? && !OneSession(end.value, uid)
  {
    PlayTwo(delay, START, RevokeRows(0, uid), RevokeRows(1, uid), [Issue(first, uid), Issue(second, uid)]);
    var s := Next(delay, Next(delay, START, RevokeRows(0, uid)), RevokeRows(1, uid));
    PlayTwo(delay, s, Issue(first, uid), Issue(second, uid), []);
    assert [Issue(first, uid), Issue(second, uid)] + [] == [Issue(first, uid), Issue(second, uid)];
    var end := Next(delay, Next(delay, s, Issue(first, uid)), Issue(second, uid));
    assert Valid(end, first) && Valid(end, second);
  }
}
