/**
 Cache-stampede protection for one key: look, take the key's lock, look again, load, publish.
 Requests interleave at every await point; a load may fail and a request may be dropped anywhere.
 */
module SingleFlight {
  import opened Wrappers

  type Value = int

  datatype Pc =
    | Arrived
    | Missed
    | Queued(lock: nat)
    | Inside(lock: nat)
    | Loading(lock: nat)
    | Done(value: Value)
    | Failed
    | Dropped

  /** `entry` is the lock the lock table hands out; `loads` are the values of successful loads, in order. */
  datatype State = State(cache: Option<Value>, entry: Option<nat>, nextLock: nat, held: map<nat, int>,
                         procs: map<int, Pc>, loads: seq<Value>)

  datatype Action =
    | Arrive(pid: int)
    | Look(pid: int)
    | GetLock(pid: int)
    | Enter(pid: int)
    | Recheck(pid: int)
    | LoadOk(pid: int, value: Value)
    | LoadErr(pid: int)
    | Drop(pid: int)
    | EvictResult
    | EvictLock

  const IDLE := State(None, None, 0, map[], map[], [])

  predicate At(s: State, pid: int) { pid in s.procs }

  predicate Enabled(s: State, a: Action) {
    match a
    case Arrive(pid) => pid !in s.procs
    case Look(pid) => At(s, pid) && s.procs[pid].Arrived?
    case GetLock(pid) => At(s, pid) && s.procs[pid].Missed?
    case Enter(pid) => At(s, pid) && s.procs[pid].Queued? && s.procs[pid].lock !in s.held
    case Recheck(pid) => At(s, pid) && s.procs[pid].Inside?
    case LoadOk(pid, _) => At(s, pid) && s.procs[pid].Loading?
    case LoadErr(pid) => At(s, pid) && s.procs[pid].Loading?
    case Drop(pid) => At(s, pid) && !s.procs[pid].Done? && !s.procs[pid].Failed?
    case EvictResult => true
    case EvictLock => true
  }

  function To(s: State, pid: int, pc: Pc): State { s.(procs := s.procs[pid := pc]) }

  predicate Holds(pc: Pc) { pc.Inside? || pc.Loading? }

  /** Leaving releases the guard, if there is one. */
  function Leave(s: State, pid: int, pc: Pc): State
    requires At(s, pid)
  {
    var s' := To(s, pid, pc);
    if Holds(s.procs[pid]) then s'.(held := s.held - {s.procs[pid].lock}) else s'
  }

  function Next(s: State, a: Action): State
    requires Enabled(s, a)
  {
    match a
    case Arrive(pid) => To(s, pid, Arrived)
    case Look(pid) => To(s, pid, if s.cache.Some? then Done(s.cache.value) else Missed)
    case GetLock(pid) =>
      if s.entry.Some? then To(s, pid, Queued(s.entry.value))
      else To(s, pid, Queued(s.nextLock)).(entry := Some(s.nextLock), nextLock := s.nextLock + 1)
    case Enter(pid) => To(s, pid, Inside(s.procs[pid].lock)).(held := s.held[s.procs[pid].lock := pid])
    case Recheck(pid) =>
      if s.cache.Some? then Leave(s, pid, Done(s.cache.value)) else To(s, pid, Loading(s.procs[pid].lock))
    case LoadOk(pid, value) => Leave(s, pid, Done(value)).(cache := Some(value), loads := s.loads + [value])
    case LoadErr(pid) => Leave(s, pid, Failed)
    case Drop(pid) => Leave(s, pid, Dropped)
    case EvictResult => s.(cache := None)
    case EvictLock => s.(entry := None)
  }

  ghost predicate Run(s: State, actions: seq<Action>)
    decreases |actions|
  {
    actions != [] ==> Enabled(s, actions[0]) && Run(Next(s, actions[0]), actions[1..])
  }

  function After(s: State, actions: seq<Action>): State
    requires Run(s, actions)
    decreases |actions|
  {
    if actions == [] then s else After(Next(s, actions[0]), actions[1..])
  }

  /***** One loader at a time, while the lock entry stays *****/

  predicate HasLock(pc: Pc) { pc.Queued? || pc.Inside? || pc.Loading? }

  ghost predicate OneLock(s: State) {
    && (forall p | p in s.procs && HasLock(s.procs[p]) :: s.entry == Some(s.procs[p].lock))
    && (forall p | p in s.procs && Holds(s.procs[p]) :: s.procs[p].lock in s.held && s.held[s.procs[p].lock] == p)
  }

  ghost predicate AtMostOneLoader(s: State) {
    forall p, q | p in s.procs && q in s.procs && s.procs[p].Loading? && s.procs[q].Loading? :: p == q
  }

  lemma StepKeepsOneLock(s: State, a: Action)
    requires OneLock(s) && Enabled(s, a) && !a.EvictLock?
    ensures OneLock(Next(s, a))
  {}

  /** MAIN: while the lock entry is not evicted, at most one request is loading, even if results are evicted. */
  lemma {:induction false} OneLoaderAtATime(s: State, actions: seq<Action>)
    requires OneLock(s) && Run(s, actions) && EvictLock !in actions
    ensures OneLock(After(s, actions)) && AtMostOneLoader(After(s, actions))
    decreases |actions|
  {
    if actions != [] {
      assert actions[0] in actions;
      StepKeepsOneLock(s, actions[0]);
      OneLoaderAtATime(Next(s, actions[0]), actions[1..]);
    }
  }

  /***** One load, while the result stays too *****/

  ghost predicate LoadedOnce(s: State) {
    && |s.loads| <= 1
    && s.cache == (if s.loads == [] then None else Some(s.loads[0]))
    && (forall p | p in s.procs && s.procs[p].Done? :: s.loads == [s.procs[p].value])
    && (forall p | p in s.procs && s.procs[p].Loading? :: s.loads == [])
  }

  lemma StepKeepsLoadedOnce(s: State, a: Action)
    requires OneLock(s) && LoadedOnce(s) && Enabled(s, a) && !a.EvictLock? && !a.EvictResult?
    ensures LoadedOnce(Next(s, a))
  {}

  lemma {:induction false} RunKeepsLoadedOnce(s: State, actions: seq<Action>)
    requires OneLock(s) && LoadedOnce(s) && Run(s, actions) && EvictLock !in actions && EvictResult !in actions
    ensures LoadedOnce(After(s, actions))
    decreases |actions|
  {
    if actions != [] {
      assert actions[0] in actions;
      StepKeepsOneLock(s, actions[0]);
      StepKeepsLoadedOnce(s, actions[0]);
      RunKeepsLoadedOnce(Next(s, actions[0]), actions[1..]);
    }
  }

  /**
   MAIN: while neither the result nor the lock entry is evicted, however requests interleave, at most
   one load succeeds and every request that succeeds returns that load's value.
   */
  lemma SingleLoad(actions: seq<Action>)
    requires Run(IDLE, actions) && EvictLock !in actions && EvictResult !in actions
    ensures var s := After(IDLE, actions);
            && |s.loads| <= 1
            && forall p | p in s.procs && s.procs[p].Done? :: s.loads == [s.procs[p].value]
  {
    RunKeepsLoadedOnce(IDLE, actions);
  }

  /** A request that nobody disturbs is served: with what is cached, or with what it loads itself. */
  lemma LoneRequestServed(s: State, pid: int, value: Value) returns (actions: seq<Action>)
    requires OneLock(s) && pid !in s.procs && (s.entry.Some? ==> s.entry.value !in s.held) && s.nextLock !in s.held
    ensures EvictLock !in actions && EvictResult !in actions && Run(s, actions)
    ensures pid in After(s, actions).procs
    ensures After(s, actions).procs[pid] == Done(if s.cache.Some? then s.cache.value else value)
  {
    var s1 := Next(s, Arrive(pid));
    var s2 := Next(s1, Look(pid));
    if s.cache.Some? {
      var a2 := [Look(pid)];
      actions := [Arrive(pid)] + a2;
      assert a2[1..] == [] && actions[1..] == a2;
      assert Run(s2, []) && Run(s1, a2) && After(s1, a2) == s2;
    } else {
      var rest := LoneLoad(s2, pid, value);
      var a2 := [Look(pid)] + rest;
      actions := [Arrive(pid)] + a2;
      assert a2[1..] == rest && actions[1..] == a2;
      assert Run(s1, a2) && After(s1, a2) == After(s2, rest);
    }
  }

  lemma LoneLoad(s: State, pid: int, value: Value) returns (actions: seq<Action>)
    requires pid in s.procs && s.procs[pid] == Missed && s.cache.None?
    requires (s.entry.Some? ==> s.entry.value !in s.held) && s.nextLock !in s.held
    ensures EvictLock !in actions && EvictResult !in actions && Run(s, actions)
    ensures pid in After(s, actions).procs && After(s, actions).procs[pid] == Done(value)
  {
    var s1 := Next(s, GetLock(pid));
    var s2 := Next(s1, Enter(pid));
    var s3 := Next(s2, Recheck(pid));
    var s4 := Next(s3, LoadOk(pid, value));
    var a4 := [LoadOk(pid, value)];
    var a3 := [Recheck(pid)] + a4;
    var a2 := [Enter(pid)] + a3;
    actions := [GetLock(pid)] + a2;
    assert a4[1..] == [] && a3[1..] == a4 && a2[1..] == a3 && actions[1..] == a2;
    assert Run(s4, []) && Run(s3, a4) && Run(s2, a3) && Run(s1, a2);
    assert After(s3, a4) == s4 && After(s2, a3) == s4 && After(s1, a2) == s4;
  }

  /** The value of the load stays the answer of everyone who has it. */
  ghost predicate Serves(s: State, pid: int, value: Value) {
    OneLock(s) && LoadedOnce(s) && s.loads == [value] && pid in s.procs && s.procs[pid] == Done(value)
  }

  /**
   MAIN: a request whose load succeeds answers with its value, and through any later run without evictions
   it still does, nobody loads again, and whoever looks or rechecks is answered with the same value.
   */
  lemma {:induction false} LoadServesAll(s: State, pid: int, value: Value, actions: seq<Action>)
    requires OneLock(s) && LoadedOnce(s) && Enabled(s, LoadOk(pid, value))
    requires Run(Next(s, LoadOk(pid, value)), actions) && EvictLock !in actions && EvictResult !in actions
    ensures var e := After(Next(s, LoadOk(pid, value)), actions);
            && pid in e.procs && e.procs[pid] == Done(value) && e.cache == Some(value)
            && (forall q | q in e.procs :: !e.procs[q].Loading?)
            && (forall q | Enabled(e, Look(q)) :: Next(e, Look(q)).procs[q] == Done(value))
            && (forall q | Enabled(e, Recheck(q)) :: Next(e, Recheck(q)).procs[q] == Done(value))
  {
    StepKeepsOneLock(s, LoadOk(pid, value));
    StepKeepsLoadedOnce(s, LoadOk(pid, value));
    StillServes(Next(s, LoadOk(pid, value)), pid, value, actions);
  }

  lemma {:induction false} StillServes(s: State, pid: int, value: Value, actions: seq<Action>)
    requires Serves(s, pid, value) && Run(s, actions) && EvictLock !in actions && EvictResult !in actions
    ensures Serves(After(s, actions), pid, value)
    decreases |actions|
  {
    if actions != [] {
      assert actions[0] in actions;
      StepKeepsOneLock(s, actions[0]);
      StepKeepsLoadedOnce(s, actions[0]);
      StillServes(Next(s, actions[0]), pid, value, actions[1..]);
    }
  }

  /***** When the lock entry is evicted under a load *****/

  /** From any state with a request loading, losing the lock entry lets a second request load beside it. */
  lemma EvictedLockAdmitsSecondLoader(s: State, first: int, second: int) returns (actions: seq<Action>)
    requires first in s.procs && s.procs[first].Loading? && second !in s.procs
    requires s.cache.None? && s.nextLock !in s.held
    ensures Run(s, actions) && !AtMostOneLoader(After(s, actions))
  {
    var s0 := Next(s, EvictLock);
    var s1 := Next(s0, Arrive(second));
    var s2 := Next(s1, Look(second));
    var s3 := Next(s2, GetLock(second));
    var s4 := Next(s3, Enter(second));
    var s5 := Next(s4, Recheck(second));
    assert s5.procs[first].Loading? && s5.procs[second].Loading?;
    var a5 := [Recheck(second)];
    var a4 := [Enter(second)] + a5;
    var a3 := [GetLock(second)] + a4;
    var a2 := [Look(second)] + a3;
    var a1 := [Arrive(second)] + a2;
    actions := [EvictLock] + a1;
    assert a5[1..] == [] && a4[1..] == a5 && a3[1..] == a4 && a2[1..] == a3 && a1[1..] == a2 && actions[1..] == a1;
    assert Run(s5, []) && Run(s4, a5) && Run(s3, a4) && Run(s2, a3) && Run(s1, a2) && Run(s0, a1);
    assert After(s4, a5) == s5 && After(s3, a4) == s5 && After(s2, a3) == s5;
    assert After(s1, a2) == s5 && After(s0, a1) == s5;
  }
}
