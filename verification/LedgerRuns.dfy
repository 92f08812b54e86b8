/** Whole runs of the four transactions that move videos or bills. */
module LedgerRuns {
  import opened Wrappers
  import opened Ledger

  /**
   Committed transactions; a save or merge that is refused changes nothing and is left out.
   `DeleteLate` is a batch delete whose sums were read before other deletes committed.
   */
  datatype Op =
    | Save(id: int, video: Video, quota: int)
    | SaveUnbilled(id: int, video: Video)
    | Delete(ids: set<int>)
    | DeleteLate(ids: set<int>, seen: Videos)
    | MergeGuest(from: int, to: int)

  datatype Tables = Tables(users: Users, videos: Videos)

  function Size(v: Video): nat { if v.size.Some? then v.size.value else 0 }

  /** What the transaction checked before it committed; a quota of zero or less is no limit. */
  ghost predicate Commits(t: Tables, op: Op) {
    match op
    case Save(id, v, quota) =>
      && id !in t.videos
      && (v.uploader.Some? ==>
            && v.uploader.value in t.users
            && (0 < quota < I64_MAX ==> t.users[v.uploader.value].used + Size(v) <= quota))
    case SaveUnbilled(id, v) => id !in t.videos && (v.uploader.Some? ==> v.uploader.value in t.users)
    case Delete(_) => true
    case DeleteLate(ids, seen) => OnlyDeletedSince(seen, t.videos, ids)
    case MergeGuest(from, to) => from in t.users && to in t.users && from != to && t.users[from].isGuest
  }

  ghost function After(t: Tables, op: Op): Tables
    requires Commits(t, op)
  {
    match op
    case Save(id, v, _) => Tables(UsersAfterSave(t.users, v), WithVideo(t.videos, id, v))
    case SaveUnbilled(id, v) => Tables(t.users, WithVideo(t.videos, id, v))
    case Delete(ids) => Tables(UsersAfterDelete(t.users, t.videos, ids), t.videos - ids)
    case DeleteLate(ids, seen) => Tables(UsersAfterDelete(t.users, seen, ids), t.videos - ids)
    case MergeGuest(from, to) => Tables(UsersAfterMerge(t.users, from), Reowned(t.videos, from, to))
  }

  ghost predicate Run(t: Tables, ops: seq<Op>)
    decreases |ops|
  {
    ops != [] ==> Commits(t, ops[0]) && Run(After(t, ops[0]), ops[1..])
  }

  ghost function End(t: Tables, ops: seq<Op>): Tables
    requires Run(t, ops)
    decreases |ops|
  {
    if ops == [] then t else End(After(t, ops[0]), ops[1..])
  }

  /** Every billed save of the run is made under this one quota. */
  predicate UnderQuota(ops: seq<Op>, quota: int) {
    forall op | op in ops :: op.Save? ==> op.quota == quota
  }

  lemma StepKeepsBills(t: Tables, op: Op)
    requires Commits(t, op) && NeverOverbilled(t.users, t.videos)
    ensures NeverOverbilled(After(t, op).users, After(t, op).videos)
    ensures forall quota | WithinQuota(t.users, quota) && 0 < quota < I64_MAX && (op.Save? ==> op.quota == quota) ::
              WithinQuota(After(t, op).users, quota)
  {
    match op
    case Save(id, v, _) => SaveKeepsBills(t.users, t.videos, id, v);
    case SaveUnbilled(id, v) => UnbilledSaveKeepsBills(t.users, t.videos, id, v);
    case Delete(ids) => DeleteNeverOverbills(t.users, t.videos, ids);
    case DeleteLate(ids, seen) => LateDeleteNeverOverbills(t.users, t.videos, seen, ids);
    case MergeGuest(from, to) => MergeNeverOverbillsExactly(t.users, t.videos, from, to);
  }

  /**
   MAIN: through any run of saves, deletes and guest merges nobody is ever billed for more than they
   store; and under one positive quota nobody's bill ever passes it.
   */
  lemma {:induction false} RunNeverOverbills(t: Tables, ops: seq<Op>, quota: int)
    requires Run(t, ops) && NeverOverbilled(t.users, t.videos)
    ensures NeverOverbilled(End(t, ops).users, End(t, ops).videos)
    ensures 0 < quota < I64_MAX && UnderQuota(ops, quota) && WithinQuota(t.users, quota) ==>
              WithinQuota(End(t, ops).users, quota)
    decreases |ops|
  {
    if ops != [] {
      StepKeepsBills(t, ops[0]);
      assert ops[0] in ops && forall op | op in ops[1..] :: op in ops;
      RunNeverOverbills(After(t, ops[0]), ops[1..], quota);
    }
  }

  /** Billed saves of known size, and deletes. */
  predicate Measured(ops: seq<Op>) {
    forall op | op in ops :: op.Delete? || (op.Save? && op.video.size.Some?)
  }

  /** MAIN: through any run of measured saves and deletes every bill stays exactly what is stored. */
  lemma {:induction false} RunStaysExact(t: Tables, ops: seq<Op>)
    requires Run(t, ops) && Measured(ops) && Exact(t.users, t.videos) && SizesKnown(t.videos)
    ensures Exact(End(t, ops).users, End(t, ops).videos) && SizesKnown(End(t, ops).videos)
    decreases |ops|
  {
    if ops != [] {
      var op := ops[0];
      assert op in ops && forall o | o in ops[1..] :: o in ops;
      match op {
        case Save(id, v, _) => SaveKeepsBills(t.users, t.videos, id, v);
        case Delete(ids) =>
          KnownSizesTouchKnown(t.videos, ids);
          DeleteKeepsExactly(t.users, t.videos, ids);
      }
      RunStaysExact(After(t, op), ops[1..]);
    }
  }
}
