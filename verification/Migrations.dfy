/**
 Schema migrations: any number of server instances start with the same files, each takes the
 session-level advisory lock, and any of them may crash at any point.
 */
module Migrations {
  import opened Wrappers

  /***** Discovering the files *****/

  /** The migration number: the name up to its first underscore. */
  function Prefix(name: string): string {
    if name == "" || name[0] == '_' then "" else [name[0]] + Prefix(name[1..])
  }

  /** The number is what stands before the first underscore, whatever follows it. */
  lemma {:induction false} PrefixBefore(number: string, rest: string)
    requires '_' !in number
    ensures Prefix(number + "_" + rest) == number && Prefix(number) == number
  {
    if number != "" {
      PrefixBefore(number[1..], rest);
      assert (number + "_" + rest)[1..] == number[1..] + "_" + rest;
    }
  }

  ghost predicate PrefixesDistinct(names: seq<string>) {
    forall i, j :: 0 <= i < j < |names| ==> Prefix(names[i]) != Prefix(names[j])
  }

  /** Start-up refuses two files with the same number; the pair it reports is the first one met. */
  method CheckPrefixes(names: seq<string>) returns (clash: Option<(nat, nat)>)
    ensures clash.None? <==> PrefixesDistinct(names)
    ensures clash.Some? ==>
              && clash.value.0 < clash.value.1 < |names|
              && Prefix(names[clash.value.0]) == Prefix(names[clash.value.1])
              && PrefixesDistinct(names[..clash.value.1])
  {
    var seen: map<string, nat> := map[];
    for i := 0 to |names|
      invariant PrefixesDistinct(names[..i])
      invariant forall p :: p in seen ==> seen[p] < i && Prefix(names[seen[p]]) == p
      invariant forall j :: 0 <= j < i ==> Prefix(names[j]) in seen
    {
      var prefix := Prefix(names[i]);
      if prefix in seen {
        return Some((seen[prefix], i));
      }
      seen := seen[prefix := i];
    }
    assert names[..|names|] == names;
    clash := None;
  }

  /***** The protocol *****/

  /** Inside a transaction the file's statements run first, then its version is recorded. */
  datatype Pc =
    | Waiting
    | HasLock
    | Walking(seen: set<string>, i: nat)
    | InTx(seen: set<string>, i: nat, executed: bool, noted: bool)
    | Finished
    | Dead

  /** `effects` lists the committed migrations in commit order; `recorded` is the version table. */
  datatype State = State(effects: seq<string>, recorded: set<string>, lock: Option<int>, procs: map<int, Pc>)

  datatype Action =
    | Start(pid: int)
    | Acquire(pid: int)
    | Load(pid: int)
    | Skip(pid: int)
    | Begin(pid: int)
    | Exec(pid: int)
    | Note(pid: int)
    | Commit(pid: int)
    | Unlock(pid: int, released: bool)
    | Crash(pid: int)

  function PcOf(s: State, pid: int): Pc { if pid in s.procs then s.procs[pid] else Dead }

  predicate Enabled(files: seq<string>, s: State, a: Action) {
    var pc := PcOf(s, a.pid);
    match a
    case Start(pid) => pid !in s.procs
    case Acquire(_) => pc.Waiting? && s.lock.None?
    case Load(_) => pc.HasLock?
    case Skip(_) => pc.Walking? && pc.i < |files| && files[pc.i] in pc.seen
    case Begin(_) => pc.Walking? && pc.i < |files| && files[pc.i] !in pc.seen
    case Exec(_) => pc.InTx? && pc.i < |files| && !pc.executed
    case Note(_) => pc.InTx? && pc.i < |files| && pc.executed && !pc.noted
    case Commit(_) => pc.InTx? && pc.noted && pc.i < |files|
    case Unlock(_, _) => pc.Walking? && pc.i >= |files|
    case Crash(pid) => pid in s.procs && !pc.Dead?
  }

  function Moved(s: State, pid: int, pc: Pc): State { s.(procs := s.procs[pid := pc]) }

  /** A session ends with its process: the lock goes free and an open transaction leaves no trace. */
  function Ended(s: State, pid: int, pc: Pc): State {
    Moved(s, pid, pc).(lock := if s.lock == Some(pid) then None else s.lock)
  }

  function Next(files: seq<string>, s: State, a: Action): State
    requires Enabled(files, s, a)
  {
    var pc := PcOf(s, a.pid);
    match a
    case Start(pid) => Moved(s, pid, Waiting)
    case Acquire(pid) => Moved(s, pid, HasLock).(lock := Some(pid))
    case Load(pid) => Moved(s, pid, Walking(s.recorded, 0))
    case Skip(pid) => Moved(s, pid, Walking(pc.seen, pc.i + 1))
    case Begin(pid) => Moved(s, pid, InTx(pc.seen, pc.i, false, false))
    case Exec(pid) => Moved(s, pid, pc.(executed := true))
    // A version that is already in the table violates its primary key and aborts the server.
    case Note(pid) => if files[pc.i] in s.recorded then Ended(s, pid, Dead)
                      else Moved(s, pid, pc.(noted := true))
    case Commit(pid) => Moved(s, pid, Walking(pc.seen, pc.i + 1))
                        .(effects := s.effects + [files[pc.i]], recorded := s.recorded + {files[pc.i]})
    case Unlock(pid, released) => if released then Ended(s, pid, Finished) else Moved(s, pid, Finished)
    case Crash(pid) => Ended(s, pid, Dead)
  }

  /***** What every reachable state satisfies *****/

  ghost predicate Distinct(files: seq<string>) {
    forall i, j :: 0 <= i < j < |files| ==> files[i] != files[j]
  }

  /** The committed effects are the first files, each once, and exactly these are recorded. */
  ghost predicate PrefixApplied(files: seq<string>, s: State) {
    s.effects <= files && forall name :: name in s.recorded <==> name in s.effects
  }

  predicate Holding(pc: Pc) { pc.HasLock? || pc.Walking? || pc.InTx? }

  /** An instance that walks the files has skipped or applied everything before `i`, and nobody else has moved on. */
  ghost predicate OnTrack(s: State, seen: set<string>, i: nat) {
    && seen <= s.recorded
    && i <= |s.effects|
    && forall j :: i <= j < |s.effects| ==> s.effects[j] in seen
  }

  ghost predicate Inv(files: seq<string>, s: State) {
    && PrefixApplied(files, s)
    && (forall pid | pid in s.procs && Holding(s.procs[pid]) :: s.lock == Some(pid))
    && (forall pid | pid in s.procs ::
          match s.procs[pid]
          case Walking(seen, i) => OnTrack(s, seen, i)
          case InTx(seen, i, _, _) => i < |files| && files[i] !in seen && OnTrack(s, seen, i)
          case Finished => s.effects == files
          case _ => true)
  }

  lemma StepKeepsInv(files: seq<string>, s: State, a: Action)
    requires Distinct(files) && Inv(files, s) && Enabled(files, s, a)
    ensures Inv(files, Next(files, s, a))
    ensures s.effects <= Next(files, s, a).effects
  {
    var pc := PcOf(s, a.pid);
    match a
    case Load(pid) =>
      assert forall j :: 0 <= j < |s.effects| ==> s.effects[j] in s.effects;
    case Skip(pid) =>
      assert files[pc.i] in s.effects;
      var k :| 0 <= k < |s.effects| && s.effects[k] == files[pc.i];
    case Commit(pid) =>
      // Were some effect beyond i already there, the file at i would have been seen.
      assert |s.effects| == pc.i;
      var s' := Next(files, s, a);
      assert s'.effects == files[..pc.i + 1];
      forall q | q in s'.procs && q != pid ensures !Holding(s'.procs[q]) {
      }
    case Unlock(pid, released) =>
      assert |s.effects| == |files|;
    case _ =>
  }

  /***** Runs *****/

  /** A database on which the first `done` files were applied, with no server running. */
  function Primed(files: seq<string>, done: nat): State
    requires done <= |files|
  {
    State(files[..done], (set name | name in files[..done]), None, map[])
  }

  ghost predicate Run(files: seq<string>, s: State, actions: seq<Action>)
    decreases |actions|
  {
    actions != [] ==> Enabled(files, s, actions[0]) && Run(files, Next(files, s, actions[0]), actions[1..])
  }

  function After(files: seq<string>, s: State, actions: seq<Action>): State
    requires Run(files, s, actions)
    decreases |actions|
  {
    if actions == [] then s else After(files, Next(files, s, actions[0]), actions[1..])
  }

  lemma {:induction false} RunKeepsInv(files: seq<string>, s: State, actions: seq<Action>)
    requires Distinct(files) && Inv(files, s) && Run(files, s, actions)
    ensures Inv(files, After(files, s, actions))
    ensures s.effects <= After(files, s, actions).effects
    decreases |actions|
  {
    if actions != [] {
      StepKeepsInv(files, s, actions[0]);
      RunKeepsInv(files, Next(files, s, actions[0]), actions[1..]);
    }
  }

  lemma DistinctNames(names: seq<string>)
    requires PrefixesDistinct(names)
    ensures Distinct(names)
  {}

  /**
   MAIN: from a database on which the first `done` files were applied, however many instances start
   and wherever they crash, the committed effects are always a prefix of the file list, each applied
   once and exactly those recorded, no committed effect is lost, at most one instance is migrating,
   and one that finished has everything applied.
   */
  lemma MigrationSafety(files: seq<string>, done: nat, actions: seq<Action>)
    requires PrefixesDistinct(files) && done <= |files|
    requires Run(files, Primed(files, done), actions)
    ensures var s := After(files, Primed(files, done), actions);
            && PrefixApplied(files, s) && Distinct(s.effects) && done <= |s.effects|
            && (forall p, q | p in s.procs && q in s.procs && Holding(s.procs[p]) && Holding(s.procs[q]) :: p == q)
            && (forall p | p in s.procs && s.procs[p].Finished? :: s.effects == files)
  {
    DistinctNames(files);
    RunKeepsInv(files, Primed(files, done), actions);
  }

  /** The version table's primary key never has to save the day: recording a version always succeeds. */
  lemma NoteSucceeds(files: seq<string>, s: State, pid: int)
    requires Distinct(files) && Inv(files, s) && Enabled(files, s, Note(pid))
    ensures Next(files, s, Note(pid)).procs[pid] == s.procs[pid].(noted := true)
  {
    var pc := PcOf(s, pid);
    assert forall k | 0 <= k < |s.effects| :: s.effects[k] != files[pc.i];
  }

  /***** And they do get applied *****/

  /** One more step in front of a run. */
  lemma InFront(files: seq<string>, s: State, a: Action, rest: seq<Action>)
    requires Enabled(files, s, a) && Run(files, Next(files, s, a), rest)
    ensures Run(files, s, [a] + rest) && After(files, s, [a] + rest) == After(files, Next(files, s, a), rest)
  {
    assert ([a] + rest)[1..] == rest;
  }

  ghost predicate Finishes(files: seq<string>, s: State, pid: int, actions: seq<Action>) {
    && Run(files, s, actions)
    && pid in After(files, s, actions).procs && After(files, s, actions).procs[pid].Finished?
  }

  lemma ApplyOne(files: seq<string>, s: State, pid: int) returns (s': State, actions: seq<Action>)
    requires Distinct(files) && Inv(files, s) && Enabled(files, s, Begin(pid))
    ensures Run(files, s, actions) && After(files, s, actions) == s' && Inv(files, s')
    ensures pid in s'.procs && s'.procs[pid] == Walking(s.procs[pid].seen, s.procs[pid].i + 1)
    ensures forall rest :: Run(files, s', rest) ==>
              Run(files, s, actions + rest) && After(files, s, actions + rest) == After(files, s', rest)
  {
    var s1 := Next(files, s, Begin(pid));
    StepKeepsInv(files, s, Begin(pid));
    var s2 := Next(files, s1, Exec(pid));
    StepKeepsInv(files, s1, Exec(pid));
    NoteSucceeds(files, s2, pid);
    var s3 := Next(files, s2, Note(pid));
    StepKeepsInv(files, s2, Note(pid));
    s' := Next(files, s3, Commit(pid));
    StepKeepsInv(files, s3, Commit(pid));
    actions := [Begin(pid), Exec(pid), Note(pid), Commit(pid)];
    forall rest | Run(files, s', rest)
      ensures Run(files, s, actions + rest) && After(files, s, actions + rest) == After(files, s', rest)
    {
      InFront(files, s3, Commit(pid), rest);
      InFront(files, s2, Note(pid), [Commit(pid)] + rest);
      InFront(files, s1, Exec(pid), [Note(pid)] + ([Commit(pid)] + rest));
      InFront(files, s, Begin(pid), [Exec(pid)] + ([Note(pid)] + ([Commit(pid)] + rest)));
      assert [Begin(pid)] + ([Exec(pid)] + ([Note(pid)] + ([Commit(pid)] + rest))) == actions + rest;
    }
    assert actions + [] == actions && Run(files, s', []);
  }

  lemma {:induction false} WalkOn(files: seq<string>, s: State, pid: int) returns (actions: seq<Action>)
    requires Distinct(files) && Inv(files, s) && pid in s.procs && s.procs[pid].Walking? && s.procs[pid].i <= |files|
    ensures Finishes(files, s, pid, actions)
    decreases |files| - s.procs[pid].i
  {
    var pc := s.procs[pid];
    if pc.i == |files| {
      InFront(files, s, Unlock(pid, true), []);
      actions := [Unlock(pid, true)] + [];
    } else if files[pc.i] in pc.seen {
      StepKeepsInv(files, s, Skip(pid));
      var rest := WalkOn(files, Next(files, s, Skip(pid)), pid);
      InFront(files, s, Skip(pid), rest);
      actions := [Skip(pid)] + rest;
    } else {
      var s', one := ApplyOne(files, s, pid);
      var rest := WalkOn(files, s', pid);
      actions := one + rest;
    }
  }

  /** MAIN: an instance that nobody disturbs finishes, from any number of files applied, and then all are. */
  lemma LoneInstanceFinishes(files: seq<string>, done: nat, pid: int) returns (actions: seq<Action>)
    requires PrefixesDistinct(files) && done <= |files|
    ensures Finishes(files, Primed(files, done), pid, actions)
    ensures After(files, Primed(files, done), actions).effects == files
  {
    DistinctNames(files);
    var s := Primed(files, done);
    assert Inv(files, s);
    var s1 := Next(files, s, Start(pid));
    var s2 := Next(files, s1, Acquire(pid));
    StepKeepsInv(files, s, Start(pid));
    StepKeepsInv(files, s1, Acquire(pid));
    StepKeepsInv(files, s2, Load(pid));
    var rest := WalkOn(files, Next(files, s2, Load(pid)), pid);
    InFront(files, s2, Load(pid), rest);
    InFront(files, s1, Acquire(pid), [Load(pid)] + rest);
    InFront(files, s, Start(pid), [Acquire(pid)] + ([Load(pid)] + rest));
    actions := [Start(pid)] + ([Acquire(pid)] + ([Load(pid)] + rest));
    MigrationSafety(files, done, actions);
  }
}
