/**
 Any number of gateway sign-ins at once, interleaved call by call with each other, with people
 registering, logging in and changing their address, with administrators, failed calls and crashes.
 */
module GatewaySignIn {
  import opened Wrappers
  import opened UniqueUsername
  import opened GatewayCalls

  datatype Proc = Proc(req: Request, pc: Pc)

  datatype State = State(db: Db, procs: map<int, Proc>, faulted: bool, intervened: bool)

  datatype Action =
    | Spawn(pid: int, req: Request)
    | Go(pid: int)
    | Fault(pid: int, applied: bool)
    | Crash(pid: int)
    | Register(name: string, approved: bool, role: int)
    | LogIn(uid: int)
    | LogOut(uid: int)
    | ChangeEmail(uid: int, mail: string)
    | SetStanding(uid: int, approved: bool, role: int)
    | DeleteUser(uid: int)

  predicate Calm(s: State) { !s.faulted && !s.intervened }

  predicate Busy(s: State, pid: int) { pid in s.procs && !Settled(s.procs[pid].pc) }

  ghost predicate LoggedIn(db: Db, uid: int) {
    exists t :: t in db.tokens && db.tokens[t].uid == uid && !db.tokens[t].revoked
  }

  /**
   An account a sign-in created has a random password nobody knows, so a password login needs a reset
   through its address first; and only somebody logged in changes an address.
   */
  ghost predicate Enabled(s: State, a: Action) {
    match a
    case Spawn(pid, _) => pid !in s.procs
    case Go(pid) => Busy(s, pid)
    case Fault(pid, _) => Busy(s, pid)
    case Crash(pid) => Busy(s, pid)
    case Register(name, _, _) => !NameTaken(s.db, name)
    case LogIn(uid) => uid in s.db.users && (uid in s.db.made ==> s.db.users[uid].email.Some?)
    case LogOut(_) => true
    case ChangeEmail(uid, _) => LoggedIn(s.db, uid)
    case SetStanding(_, _, _) => true
    case DeleteUser(_) => true
  }

  function Moved(s: State, pid: int, db: Db, pc: Pc): State
    requires pid in s.procs
  {
    s.(db := db, procs := s.procs[pid := s.procs[pid].(pc := pc)])
  }

  ghost function Next(s: State, a: Action): State
    requires Enabled(s, a)
  {
    match a
    case Spawn(pid, req) => s.(procs := s.procs[pid := Proc(req, FindSub)])
    case Go(pid) =>
      var (db', pc') := Call(s.db, s.procs[pid].req, s.procs[pid].pc);
      Moved(s, pid, db', pc')
    case Fault(pid, applied) =>
      var p := s.procs[pid];
      Moved(s, pid, if applied then Call(s.db, p.req, p.pc).0 else s.db, OnError(p.req, p.pc)).(faulted := true)
    case Crash(pid) => Moved(s, pid, s.db, Crashed).(faulted := true)
    case Register(name, approved, role) => s.(db := Inserted(s.db, name, approved, role, false))
    case LogIn(uid) => s.(db := Minted(s.db, uid))
    case LogOut(uid) => s.(db := RevokedOf(s.db, uid))
    case ChangeEmail(uid, mail) => s.(db := WithEmail(s.db, uid, mail))
    case SetStanding(uid, approved, role) => s.(db := WithStanding(s.db, uid, approved, role), intervened := true)
    case DeleteUser(uid) => s.(db := WithoutUser(s.db, uid), intervened := true)
  }

  /** Any sound tables, before the first sign-in. */
  ghost predicate Initial(s: State) {
    DbOk(s.db) && s.db.made == {} && s.procs == map[] && !s.faulted && !s.intervened
  }

  /***** What every reachable state satisfies *****/

  predicate InCharge(s: State, pid: int, u: int) {
    pid in s.procs && Charge(s.procs[pid].pc) == Some(u)
  }

  predicate Approving(s: State, pid: int, u: int) {
    pid in s.procs && s.procs[pid].pc == Approve(u)
  }

  ghost predicate ProcsOk(s: State) {
    && (forall pid | pid in s.procs :: PcOk(s.db, Calm(s), s.procs[pid].req, s.procs[pid].pc))
    && (forall p, q, u | InCharge(s, p, u) && InCharge(s, q, u) :: p == q)
  }

  ghost predicate Covered(s: State) {
    && (!s.faulted ==> forall u | Unlinked(s.db, u) :: exists pid :: InCharge(s, pid, u))
    && (Calm(s) ==> forall u | Waiting(s.db, u) :: exists pid :: Approving(s, pid, u))
  }

  ghost predicate Inv(s: State) { DbOk(s.db) && ProcsOk(s) && Covered(s) }

  /** The account the step's own sign-in is creating. */
  function Mine(s: State, a: Action): Option<int> {
    match a
    case Go(pid) => if pid in s.procs then Charge(s.procs[pid].pc) else None
    case Fault(pid, _) => if pid in s.procs then Charge(s.procs[pid].pc) else None
    case Crash(pid) => if pid in s.procs then Charge(s.procs[pid].pc) else None
    case _ => None
  }

  lemma StepEvolves(s: State, a: Action)
    requires Inv(s) && Enabled(s, a)
    ensures var s' := Next(s, a);
            DbOk(s'.db) && Evolves(s.db, s'.db, Mine(s, a), Calm(s')) && (Calm(s') ==> Calm(s))
  {
    match a
    case Go(pid) => CallKeepsDb(s.db, Calm(s), s.procs[pid].req, s.procs[pid].pc);
    case Fault(pid, _) =>
      assert PcOk(s.db, false, s.procs[pid].req, s.procs[pid].pc);
      CallKeepsDb(s.db, false, s.procs[pid].req, s.procs[pid].pc);
    case Spawn(_, _) =>
    case Crash(_) =>
    case _ => OutsideEvolves(s, a);
  }

  /** What people and administrators do. */
  lemma OutsideEvolves(s: State, a: Action)
    requires Inv(s) && Enabled(s, a)
    requires !a.Spawn? && !a.Go? && !a.Fault? && !a.Crash?
    ensures var s' := Next(s, a); DbOk(s'.db) && Evolves(s.db, s'.db, None, Calm(s')) && (Calm(s') ==> Calm(s))
  {
    match a
    case Register(name, approved, role) => InsertedKeeps(s.db, name, approved, role, false, Calm(s));
    case LogIn(uid) => assert Unlinked(s.db, uid) ==> Untouched(s.db, uid); MintedKeeps(s.db, uid, None, Calm(s));
    case LogOut(uid) => RevokedKeeps(s.db, uid, None, Calm(s));
    case ChangeEmail(uid, mail) =>
      assert Unlinked(s.db, uid) ==> Untouched(s.db, uid);
      EmailKeeps(s.db, uid, mail, None, Calm(s));
    case SetStanding(uid, approved, role) => StandingKeeps(s.db, uid, approved, role, None, false);
    case DeleteUser(uid) => UserDroppedKeeps(s.db, uid, None, false);
  }

  lemma StepKeepsProcs(s: State, a: Action)
    requires Inv(s) && Enabled(s, a)
    ensures ProcsOk(Next(s, a))
  {
    var s' := Next(s, a);
    StepEvolves(s, a);
    forall pid | pid in s'.procs ensures PcOk(s'.db, Calm(s'), s'.procs[pid].req, s'.procs[pid].pc) {
      if a.Go? && pid == a.pid {
        CallKeepsPc(s.db, Calm(s), s.procs[pid].req, s.procs[pid].pc);
      } else if a.Fault? && pid == a.pid {
        ErrorKeepsPc(s.db, s'.db, s.procs[pid].req, s.procs[pid].pc);
      } else if pid in s.procs && s.procs[pid] == s'.procs[pid] {
        ChargesDiffer(s, a, pid);
        OthersKeepPc(s.db, s'.db, Mine(s, a), Calm(s'), s.procs[pid].req, s.procs[pid].pc);
      }
    }
    forall p, q, u | InCharge(s', p, u) && InCharge(s', q, u) ensures p == q {
      ChargeKept(s, a, p, u);
      ChargeKept(s, a, q, u);
    }
  }

  lemma ChargesDiffer(s: State, a: Action, pid: int)
    requires Inv(s) && Enabled(s, a) && pid in s.procs
    requires (a.Go? || a.Fault? || a.Crash?) ==> a.pid != pid
    ensures Charge(s.procs[pid].pc).Some? ==> Charge(s.procs[pid].pc) != Mine(s, a)
  {
    var c := Charge(s.procs[pid].pc);
    if c.Some? && c == Mine(s, a) {
      assert InCharge(s, pid, c.value) && InCharge(s, a.pid, c.value);
    }
  }

  /** A sign-in in charge of an account was so before, or has just created it. */
  lemma ChargeKept(s: State, a: Action, pid: int, u: int)
    requires Inv(s) && Enabled(s, a) && InCharge(Next(s, a), pid, u)
    ensures if u < s.db.nextId then InCharge(s, pid, u) else a == Go(pid)
  {
    if pid in s.procs {
      var p := s.procs[pid];
      CallCharge(s.db, p.req, p.pc);
      assert Charge(p.pc).Some? ==> PcOk(s.db, Calm(s), p.req, p.pc) && Charge(p.pc).value < s.db.nextId;
    }
  }

  lemma StepKeepsCover(s: State, a: Action)
    requires Inv(s) && Enabled(s, a)
    ensures Covered(Next(s, a))
  {
    var s' := Next(s, a);
    if !s'.faulted {
      forall u | Unlinked(s'.db, u) ensures exists pid :: InCharge(s', pid, u) {
        if u in s.db.users {
          UnlinkedBefore(s, a, u);
          var pid :| InCharge(s, pid, u);
          ChargeStays(s, a, pid, u);
          assert InCharge(s', pid, u);
        } else {
          assert a.Go? && InCharge(s', a.pid, u);
        }
      }
    }
    if Calm(s') {
      forall u | Waiting(s'.db, u) ensures exists pid :: Approving(s', pid, u) {
        if Waiting(s.db, u) {
          var pid :| Approving(s, pid, u);
          StillApproving(s, a, pid, u);
          assert Approving(s', pid, u);
        } else {
          NewlyWaiting(s, a, u);
          assert Approving(s', a.pid, u);
        }
      }
    }
  }

  lemma UnlinkedBefore(s: State, a: Action, u: int)
    requires Inv(s) && Enabled(s, a) && u in s.db.users && Unlinked(Next(s, a).db, u)
    ensures Unlinked(s.db, u)
  {
    StepEvolves(s, a);
  }

  lemma ChargeStays(s: State, a: Action, pid: int, u: int)
    requires Inv(s) && Enabled(s, a) && !Next(s, a).faulted
    requires InCharge(s, pid, u) && Unlinked(s.db, u) && Unlinked(Next(s, a).db, u)
    ensures InCharge(Next(s, a), pid, u)
  {
    assert PcOk(s.db, Calm(s), s.procs[pid].req, s.procs[pid].pc);
  }

  lemma StillApproving(s: State, a: Action, pid: int, u: int)
    requires Inv(s) && Enabled(s, a) && Calm(Next(s, a)) && Approving(s, pid, u) && Waiting(Next(s, a).db, u)
    ensures Approving(Next(s, a), pid, u)
  {
  }

  lemma NewlyWaiting(s: State, a: Action, u: int)
    requires Inv(s) && Enabled(s, a) && Calm(Next(s, a)) && !Waiting(s.db, u) && Waiting(Next(s, a).db, u)
    ensures a.Go? && Approving(Next(s, a), a.pid, u)
  {
    StepEvolves(s, a);
  }

  lemma StepKeepsInv(s: State, a: Action)
    requires Inv(s) && Enabled(s, a)
    ensures Inv(Next(s, a))
  {
    StepEvolves(s, a);
    StepKeepsProcs(s, a);
    StepKeepsCover(s, a);
  }

  /***** Whole runs *****/

  ghost predicate Run(s: State, actions: seq<Action>)
    decreases |actions|
  {
    actions != [] ==> Enabled(s, actions[0]) && Run(Next(s, actions[0]), actions[1..])
  }

  ghost function End(s: State, actions: seq<Action>): State
    requires Run(s, actions)
    decreases |actions|
  {
    if actions == [] then s else End(Next(s, actions[0]), actions[1..])
  }

  lemma {:induction false} RunKeepsInv(s: State, actions: seq<Action>)
    requires Run(s, actions) && Inv(s)
    ensures Inv(End(s, actions)) && (Calm(End(s, actions)) ==> Calm(s))
    decreases |actions|
  {
    if actions != [] {
      StepKeepsInv(s, actions[0]);
      StepEvolves(s, actions[0]);
      RunKeepsInv(Next(s, actions[0]), actions[1..]);
    }
  }

  /**
   MAIN: once an account is bound to a sub it is never bound to another, through any run; and as long
   as no call fails and no administrator steps in it does not disappear either.
   */
  lemma {:induction false} SubIsFinal(s: State, actions: seq<Action>, u: int, sub: string)
    requires Run(s, actions) && Inv(s) && Holds(s.db, u, sub)
    ensures var e := End(s, actions).db; u in e.users ==> Holds(e, u, sub)
    ensures Calm(End(s, actions)) ==> Holds(End(s, actions).db, u, sub)
    decreases |actions|
  {
    if actions != [] {
      var s' := Next(s, actions[0]);
      StepKeepsInv(s, actions[0]);
      StepEvolves(s, actions[0]);
      RunKeepsInv(s', actions[1..]);
      if Holds(s'.db, u, sub) {
        SubIsFinal(s', actions[1..], u, sub);
      } else {
        GoneForGood(s', actions[1..], u);
      }
    }
  }

  /** Ids are not used twice. */
  lemma {:induction false} GoneForGood(s: State, actions: seq<Action>, u: int)
    requires Run(s, actions) && Inv(s) && u < s.db.nextId && u !in s.db.users
    ensures u !in End(s, actions).db.users
    decreases |actions|
  {
    if actions != [] {
      StepKeepsInv(s, actions[0]);
      StepEvolves(s, actions[0]);
      GoneForGood(Next(s, actions[0]), actions[1..], u);
    }
  }

  /**
   MAIN: through any run, failures and crashes included, a sub belongs to at most one account, every
   token a sign-in returned belongs to the account holding its sub, and so all successful sign-ins
   for one sub hold tokens of one account.  (A token outlives neither its account nor a logout.)
   */
  lemma OneAccountPerSub(s: State, actions: seq<Action>, p: int, q: int)
    requires Initial(s) && Run(s, actions)
    ensures var e := End(s, actions);
            && (forall u, v, sub | Holds(e.db, u, sub) && Holds(e.db, v, sub) :: u == v)
            && (HasToken(e, p) ==> Holds(e.db, e.db.tokens[e.procs[p].pc.token].uid, e.procs[p].req.sub))
            && (HasToken(e, p) && HasToken(e, q) && e.procs[p].req.sub == e.procs[q].req.sub ==>
                  e.db.tokens[e.procs[p].pc.token].uid == e.db.tokens[e.procs[q].pc.token].uid)
  {
    RunKeepsInv(s, actions);
  }

  /** The sign-in succeeded and its token has not been deleted since. */
  predicate HasToken(s: State, pid: int) {
    pid in s.procs && s.procs[pid].pc.SignedIn? && s.procs[pid].pc.token in s.db.tokens
  }

  /**
   MAIN: when every sign-in has ended and no call failed and none crashed, whatever administrators
   did, each account a sign-in created and that still exists is bound to a sub; and if no
   administrator stepped in, it is approved.
   */
  lemma NoOrphans(s: State, actions: seq<Action>, u: int)
    requires Initial(s) && Run(s, actions) && !End(s, actions).faulted
    requires forall pid | pid in End(s, actions).procs :: Settled(End(s, actions).procs[pid].pc)
    requires u in End(s, actions).db.made && u in End(s, actions).db.users
    ensures End(s, actions).db.users[u].sub.Some?
    ensures Calm(End(s, actions)) ==> End(s, actions).db.users[u].approved
  {
    RunKeepsInv(s, actions);
    var e := End(s, actions);
    assert forall pid :: !InCharge(e, pid, u) && !Approving(e, pid, u);
    assert !Unlinked(e.db, u);
    assert Calm(e) ==> !Waiting(e.db, u);
  }

  /**
   MAIN: a sign-in that lost the race for its sub finds the winner.  "gateway sub conflict" is the
   answer exactly when nobody holds the sub, and in a calm run that happens only to a sign-in whose
   verified address led to an account bound to somebody else.
   */
  lemma RacedFindsOwner(s: State, actions: seq<Action>, pid: int)
    requires Initial(s) && Run(s, actions) && Busy(End(s, actions), pid)
    ensures var e := End(s, actions); var p := e.procs[pid];
            && (Next(e, Go(pid)).procs[pid].pc == Failed(SubConflict) <==> p.pc.FindOwner? && !Held(e.db, p.req.sub))
            && (Next(e, Go(pid)).procs[pid].pc == Failed(SubConflict) && Calm(e) ==> p.pc == FindOwner(BoundElsewhere))
  {
    RunKeepsInv(s, actions);
  }

  /**
   MAIN: no takeover.  An account that no sign-in created is bound to a sub only by a sign-in for
   that sub whose address the identity provider verified, and which read that address in the account's row.
   */
  lemma NoTakeover(s: State, actions: seq<Action>, a: Action, u: int, sub: string)
    requires Initial(s) && Run(s, actions) && Enabled(End(s, actions), a)
    requires var e := End(s, actions);
             u in e.db.users && u !in e.db.made && !Holds(e.db, u, sub) && Holds(Next(e, a).db, u, sub)
    ensures var e := End(s, actions);
            && (a.Go? || a.Fault?) && e.procs[a.pid].pc.LinkExisting?
            && e.procs[a.pid].pc.uid == u && e.procs[a.pid].req.sub == sub && e.procs[a.pid].req.emailVerified
            && Mail(e.procs[a.pid].req).Some? && e.procs[a.pid].pc.row.email == Mail(e.procs[a.pid].req)
            && e.db.users[u].sub == None
  {
    RunKeepsInv(s, actions);
    var e := End(s, actions);
    if a.Go? || a.Fault? {
      assert PcOk(e.db, Calm(e), e.procs[a.pid].req, e.procs[a.pid].pc);
    }
  }

  /** "username exhausted" means that all thousand candidate names have been taken at some time. */
  lemma ExhaustedMeansTaken(s: State, actions: seq<Action>, pid: int)
    requires Initial(s) && Run(s, actions)
    requires pid in End(s, actions).procs && End(s, actions).procs[pid].pc == Failed(UsernameExhausted)
    ensures var e := End(s, actions); TakenBelow(e.db, e.procs[pid].req.base, MAX_SUFFIX + 1)
  {
    RunKeepsInv(s, actions);
  }
}
