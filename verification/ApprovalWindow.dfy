/**
 The window between binding a new gateway account and approving it: who is refused in it, and what
 happens to an account whose sign-in dies there.
 */
module ApprovalWindow {
  import opened Wrappers
  import opened UniqueUsername
  import opened GatewayCalls
  import opened GatewaySignIn

  /** A sign-in about to read the row of the account holding its sub. */
  predicate AtLookup(s: State, pid: int) {
    pid in s.procs && (s.procs[pid].pc.FindSub? || s.procs[pid].pc.FindOwner?)
  }

  /** Bound, not approved, and the sign-in that was to approve it is gone. */
  ghost predicate Stranded(s: State, u: int) {
    Waiting(s.db, u) && forall q :: !InCharge(s, q, u)
  }

  /** A sign-in whose binding call reported a failure is about to remove the account. */
  predicate CleaningUp(s: State, pid: int, u: int) {
    pid in s.procs && (s.procs[pid].pc.DropTokens? || s.procs[pid].pc.DropRow?) && s.procs[pid].pc.id == u
  }

  /***** Without administrators, nobody approves an account but its own sign-in *****/

  ghost predicate ChargedUnapproved(s: State) {
    forall q, u | InCharge(s, q, u) && u in s.db.users :: !s.db.users[u].approved
  }

  lemma StepKeepsUnapproved(s: State, a: Action)
    requires Inv(s) && Enabled(s, a) && ChargedUnapproved(s) && !Next(s, a).intervened
    ensures ChargedUnapproved(Next(s, a))
  {
    var s' := Next(s, a);
    forall q, u | InCharge(s', q, u) && u in s'.db.users ensures !s'.db.users[u].approved {
      ChargeKept(s, a, q, u);
      if u < s.db.nextId {
        ApprovalKept(s, a, q, u);
      }
    }
  }

  /** The account stays unapproved while its sign-in is still in charge of it. */
  lemma ApprovalKept(s: State, a: Action, q: int, u: int)
    requires Inv(s) && Enabled(s, a) && !Next(s, a).intervened
    requires InCharge(s, q, u) && InCharge(Next(s, a), q, u) && u in Next(s, a).db.users
    ensures u in s.db.users && Next(s, a).db.users[u].approved == s.db.users[u].approved
  {
    StepEvolves(s, a);
    assert PcOk(s.db, Calm(s), s.procs[q].req, s.procs[q].pc);
    if a.Go? || a.Fault? {
      assert a.pid != q ==> !InCharge(s, a.pid, u);
      CallKeepsApproval(s.db, s.procs[a.pid].req, s.procs[a.pid].pc, u);
    }
  }

  lemma {:induction false} RunKeepsUnapproved(s: State, actions: seq<Action>)
    requires Inv(s) && Run(s, actions) && ChargedUnapproved(s) && !End(s, actions).intervened
    ensures ChargedUnapproved(End(s, actions))
    decreases |actions|
  {
    if actions != [] {
      StepKeepsInv(s, actions[0]);
      Uninterrupted(Next(s, actions[0]), actions[1..]);
      StepKeepsUnapproved(s, actions[0]);
      RunKeepsUnapproved(Next(s, actions[0]), actions[1..]);
    }
  }

  lemma {:induction false} Uninterrupted(s: State, actions: seq<Action>)
    requires Run(s, actions) && !End(s, actions).intervened
    ensures !s.intervened
    decreases |actions|
  {
    if actions != [] {
      Uninterrupted(Next(s, actions[0]), actions[1..]);
    }
  }

  /** What a sign-in reads when it looks up a sub somebody holds. */
  lemma ReadsHolder(s: State, pid: int, u: int)
    requires Inv(s) && AtLookup(s, pid) && Holds(s.db, u, s.procs[pid].req.sub)
    ensures Next(s, Go(pid)).procs[pid].pc == Admit(u, s.db.users[u])
  {
    var sub := s.procs[pid].req.sub;
    assert Held(s.db, sub);
    assert Holds(s.db, FindBySub(s.db, sub).value, sub);
  }

  /**
   MAIN: gateway accounts are meant to pass without approval.  With failed calls and crashes anywhere,
   but no administrator, a sign-in for an account a sign-in created is refused as not approved
   exactly while another sign-in stands between binding the sub and approving the account, or is
   removing the account again, or the account is stranded; in a calm run, exactly in the first case.
   */
  lemma RefusedExactly(s: State, actions: seq<Action>, pid: int, u: int)
    requires Initial(s) && Run(s, actions) && !End(s, actions).intervened
    requires AtLookup(End(s, actions), pid) && u in End(s, actions).db.made
    requires Holds(End(s, actions).db, u, End(s, actions).procs[pid].req.sub)
    ensures var e := End(s, actions);
            && (Next(e, Go(pid)).procs[pid].pc == Failed(NotApproved)
                <==> (exists q :: Approving(e, q, u)) || (exists q :: CleaningUp(e, q, u)) || Stranded(e, u))
            && (Calm(e) ==> (Next(e, Go(pid)).procs[pid].pc == Failed(NotApproved)
                             <==> exists q :: Approving(e, q, u)))
  {
    RunKeepsInv(s, actions);
    RunKeepsUnapproved(s, actions);
    var e := End(s, actions);
    ReadsHolder(e, pid, u);
    forall q | InCharge(e, q, u) ensures Approving(e, q, u) || CleaningUp(e, q, u) {
      assert PcOk(e.db, Calm(e), e.procs[q].req, e.procs[q].pc);
    }
    assert forall q | Approving(e, q, u) || CleaningUp(e, q, u) :: InCharge(e, q, u);
    assert Calm(e) && Waiting(e.db, u) ==> exists q :: Approving(e, q, u);
  }

  /***** Stranded accounts *****/

  /** A crash, or a failed call that did not take effect, between binding and approval strands the account. */
  lemma WindowStrands(s: State, pid: int, u: int)
    requires Inv(s) && Approving(s, pid, u) && Waiting(s.db, u)
    ensures Stranded(Next(s, Crash(pid)), u) && Stranded(Next(s, Fault(pid, false)), u)
  {
    assert PcOk(s.db, Calm(s), s.procs[pid].req, s.procs[pid].pc);
    FailureStrands(s, Crash(pid), u);
    FailureStrands(s, Fault(pid, false), u);
  }

  /** The failures that take the last sign-in in charge of a bound, unapproved account away from it. */
  predicate Strands(s: State, a: Action, u: int) {
    match a
    case Crash(pid) => Approving(s, pid, u) || CleaningUp(s, pid, u)
    case Fault(pid, applied) =>
      || (Approving(s, pid, u) && !applied)
      || (CleaningUp(s, pid, u) && (s.procs[pid].pc.DropTokens? || !applied))
    case _ => false
  }

  /** MAIN: without administrators an account becomes stranded exactly by one of these failures while it is waiting. */
  lemma StrandedExactly(s: State, a: Action, u: int)
    requires Inv(s) && Enabled(s, a) && !Next(s, a).intervened && !Stranded(s, u)
    ensures Stranded(Next(s, a), u) <==> Waiting(s.db, u) && Strands(s, a, u)
  {
    var s' := Next(s, a);
    if Waiting(s.db, u) && Strands(s, a, u) {
      FailureStrands(s, a, u);
    } else if Stranded(s', u) {
      StrandedSource(s, a, u);
    }
  }

  lemma FailureStrands(s: State, a: Action, u: int)
    requires Inv(s) && Enabled(s, a) && Waiting(s.db, u) && Strands(s, a, u)
    ensures Stranded(Next(s, a), u)
  {
    var s' := Next(s, a);
    forall q | InCharge(s, q, u) ensures q == a.pid {
      assert InCharge(s, a.pid, u);
    }
    assert forall q :: InCharge(s', q, u) ==> q != a.pid && InCharge(s, q, u);
  }

  /** A stranded account was waiting before, and a failure took its sign-in away. */
  lemma StrandedSource(s: State, a: Action, u: int)
    requires Inv(s) && Enabled(s, a) && !Next(s, a).intervened && !Stranded(s, u) && Stranded(Next(s, a), u)
    ensures Waiting(s.db, u) && Strands(s, a, u)
  {
    var s' := Next(s, a);
    StepEvolves(s, a);
    if Waiting(s.db, u) {
      assert exists q :: InCharge(s, q, u);
      var q :| InCharge(s, q, u);
      assert PcOk(s.db, Calm(s), s.procs[q].req, s.procs[q].pc);
      assert !InCharge(s', q, u);
    } else {
      BindingKeepsCharge(s, a, u);
    }
  }

  /** An account starts waiting only when its own sign-in binds it, and then that sign-in is in charge. */
  lemma BindingKeepsCharge(s: State, a: Action, u: int)
    requires Inv(s) && Enabled(s, a) && !Next(s, a).intervened && !Waiting(s.db, u) && Waiting(Next(s, a).db, u)
    ensures (a.Go? || a.Fault?) && InCharge(Next(s, a), a.pid, u)
  {
    if a.Go? || a.Fault? {
      assert PcOk(s.db, false, s.procs[a.pid].req, s.procs[a.pid].pc);
      CallBinds(s.db, s.procs[a.pid].req, s.procs[a.pid].pc, u);
    }
  }

  /**
   MAIN: a stranded account stays so: whatever people and sign-ins do, until an administrator sets its
   standing or deletes it, every sign-in for its sub is refused.
   */
  lemma {:induction false} StrandedStays(s: State, actions: seq<Action>, u: int, sub: string)
    requires Run(s, actions) && Inv(s) && Stranded(s, u) && Holds(s.db, u, sub)
    requires forall a | a in actions :: (a.SetStanding? || a.DeleteUser?) ==> a.uid != u
    ensures var e := End(s, actions);
            && Stranded(e, u) && Holds(e.db, u, sub)
            && forall pid | AtLookup(e, pid) && e.procs[pid].req.sub == sub ::
                 Next(e, Go(pid)).procs[pid].pc == Failed(NotApproved)
    decreases |actions|
  {
    if actions == [] {
      forall pid | AtLookup(s, pid) && s.procs[pid].req.sub == sub
        ensures Next(s, Go(pid)).procs[pid].pc == Failed(NotApproved)
      {
        ReadsHolder(s, pid, u);
      }
    } else {
      assert actions[0] in actions;
      StrandedStep(s, actions[0], u, sub);
      StepKeepsInv(s, actions[0]);
      assert forall a | a in actions[1..] :: a in actions;
      StrandedStays(Next(s, actions[0]), actions[1..], u, sub);
    }
  }

  lemma StrandedStep(s: State, a: Action, u: int, sub: string)
    requires Enabled(s, a) && Inv(s) && Stranded(s, u) && Holds(s.db, u, sub)
    requires (a.SetStanding? || a.DeleteUser?) ==> a.uid != u
    ensures Stranded(Next(s, a), u) && Holds(Next(s, a).db, u, sub)
  {
    var s' := Next(s, a);
    StepEvolves(s, a);
    RowKept(s, a, u);
    forall q ensures !InCharge(s', q, u) {
      if InCharge(s', q, u) {
        ChargeKept(s, a, q, u);
        assert false;
      }
    }
  }

  /** Only the sign-in creating an account, or an administrator, removes or approves it. */
  lemma RowKept(s: State, a: Action, u: int)
    requires Enabled(s, a) && u in s.db.users && forall q :: !InCharge(s, q, u)
    requires (a.SetStanding? || a.DeleteUser?) ==> a.uid != u
    requires u < s.db.nextId
    ensures u in Next(s, a).db.users && Next(s, a).db.users[u].approved == s.db.users[u].approved
  {
    assert (a.Go? || a.Fault?) ==> !InCharge(s, a.pid, u);
  }

  /***** Runs that get there *****/

  const NOBODY := Db(map[], map[], 0, 0, {}, {})

  /** The tables after a first sign-in's insert, and after its binding. */
  function FirstRow(req: Request, sub: Option<string>): Db {
    Db(map[0 := Account(req.base, None, sub, false, VIEWER_ROLE)], map[], 1, 0, {0}, {req.base})
  }

  /** The calls of a first sign-in without a verified address, up to the window. */
  lemma FirstCalls(req: Request)
    requires !req.emailVerified
    ensures Call(NOBODY, req, FindSub) == (NOBODY, ProbeName(1))
    ensures Call(NOBODY, req, ProbeName(1)) == (NOBODY, InsertName(1))
    ensures Call(NOBODY, req, InsertName(1)) == (FirstRow(req, None), LinkFresh(0))
    ensures Call(FirstRow(req, None), req, LinkFresh(0)) == (FirstRow(req, Some(req.sub)), Approve(0))
  {
    var row, bound := FirstRow(req, None), FirstRow(req, Some(req.sub));
    assert Inserted(NOBODY, req.base, false, VIEWER_ROLE, true) == row;
    assert Linked(row, 0, req.sub) == bound;
  }

  lemma SecondCall(req: Request)
    ensures Call(FirstRow(req, Some(req.sub)), req, FindSub) == (FirstRow(req, Some(req.sub)), Failed(NotApproved))
  {
    var bound := FirstRow(req, Some(req.sub));
    assert Holds(bound, 0, req.sub);
    assert FindBySub(bound, req.sub) == Some(0);
  }

  function Sole(db: Db, procs: map<int, Proc>): State { State(db, procs, false, false) }

  /** The actions lead from `s` to `end`. */
  ghost predicate Leads(s: State, actions: seq<Action>, end: State) {
    Run(s, actions) && End(s, actions) == end
  }

  lemma Prepend(s: State, a: Action, next: State, rest: seq<Action>, end: State)
    requires Enabled(s, a) && Next(s, a) == next && Leads(next, rest, end)
    ensures Leads(s, [a] + rest, end)
  {
    assert ([a] + rest)[1..] == rest;
  }

  /** One call of the only sign-in there is. */
  lemma PrependCall(db: Db, req: Request, pc: Pc, db': Db, pc': Pc, rest: seq<Action>, end: State)
    requires !Settled(pc) && Call(db, req, pc) == (db', pc')
    requires Leads(Sole(db', map[0 := Proc(req, pc')]), rest, end)
    ensures Leads(Sole(db, map[0 := Proc(req, pc)]), [Go(0)] + rest, end)
  {
    assert Next(Sole(db, map[0 := Proc(req, pc)]), Go(0)) == Sole(db', map[0 := Proc(req, pc')]);
    Prepend(Sole(db, map[0 := Proc(req, pc)]), Go(0), Sole(db', map[0 := Proc(req, pc')]), rest, end);
  }

  /** A second sign-in arrives in the window and is refused. */
  lemma SecondInWindow(req: Request, end: State)
    requires end.db == FirstRow(req, Some(req.sub)) && Calm(end)
    requires end.procs == map[0 := Proc(req, Approve(0)), 1 := Proc(req, Failed(NotApproved))]
    ensures Leads(Sole(end.db, map[0 := Proc(req, Approve(0))]), [Spawn(1, req)] + [Go(1)], end)
  {
    SecondCall(req);
    var arrived := Sole(end.db, map[0 := Proc(req, Approve(0)), 1 := Proc(req, FindSub)]);
    assert Next(arrived, Go(1)) == end;
    Prepend(arrived, Go(1), end, [], end);
    assert [Go(1)] + [] == [Go(1)];
    Prepend(Sole(end.db, map[0 := Proc(req, Approve(0))]), Spawn(1, req), arrived, [Go(1)], end);
  }

  /** A first sign-in comes as far as the window; whatever leads on from there is led to from empty tables. */
  lemma FirstSignIn(req: Request, rest: seq<Action>, e: State)
    requires !req.emailVerified
    requires Leads(Sole(FirstRow(req, Some(req.sub)), map[0 := Proc(req, Approve(0))]), rest, e)
    ensures Leads(Sole(NOBODY, map[]), [Spawn(0, req)] + ([Go(0)] + ([Go(0)] + ([Go(0)] + ([Go(0)] + rest)))), e)
  {
    FirstCalls(req);
    PrependCall(FirstRow(req, None), req, LinkFresh(0), FirstRow(req, Some(req.sub)), Approve(0), rest, e);
    PrependCall(NOBODY, req, InsertName(1), FirstRow(req, None), LinkFresh(0), [Go(0)] + rest, e);
    PrependCall(NOBODY, req, ProbeName(1), NOBODY, InsertName(1), [Go(0)] + ([Go(0)] + rest), e);
    PrependCall(NOBODY, req, FindSub, NOBODY, ProbeName(1), [Go(0)] + ([Go(0)] + ([Go(0)] + rest)), e);
    Prepend(Sole(NOBODY, map[]), Spawn(0, req), Sole(NOBODY, map[0 := Proc(req, FindSub)]),
            [Go(0)] + ([Go(0)] + ([Go(0)] + ([Go(0)] + rest))), e);
  }

  /** Two first sign-ins of one person, from empty tables: the second is refused for want of approval. */
  lemma SecondIsRefused(req: Request)
    requires !req.emailVerified
    ensures exists actions, s, e :: Initial(s) && Leads(s, actions, e) && Calm(e)
              && e.procs == map[0 := Proc(req, Approve(0)), 1 := Proc(req, Failed(NotApproved))]
  {
    var db := FirstRow(req, Some(req.sub));
    var e := Sole(db, map[0 := Proc(req, Approve(0)), 1 := Proc(req, Failed(NotApproved))]);
    SecondInWindow(req, e);
    FirstSignIn(req, [Spawn(1, req)] + [Go(1)], e);
  }

  /** From empty tables, a first sign-in and one crash strand its account. */
  lemma CrashReachesStranded(req: Request)
    requires !req.emailVerified
    ensures exists actions, s, e :: Initial(s) && Leads(s, actions, e) && Stranded(e, 0) && Holds(e.db, 0, req.sub)
  {
    var db := FirstRow(req, Some(req.sub));
    var window := Sole(db, map[0 := Proc(req, Approve(0))]);
    var e := Next(window, Crash(0));
    Prepend(window, Crash(0), e, [], e);
    FirstSignIn(req, [Crash(0)] + [], e);
    assert Stranded(e, 0) && Holds(e.db, 0, req.sub);
  }
}
