/**
 What an undisturbed gateway sign-in ends with: whose token, bound how, and what else it changes.
 */
module GatewayOutcomes {
  import opened Wrappers
  import opened UniqueUsername
  import opened GatewayCalls
  import GatewaySignIn

  /** The first `n` calls of the sign-in for `req` from `pc` on, with nobody else at work. */
  ghost function Calls(db: Db, req: Request, pc: Pc, n: nat): (Db, Pc)
    decreases n
  {
    if n == 0 then (db, pc) else
      var (db', pc') := Call(db, req, pc);
      Calls(db', req, pc', n - 1)
  }

  ghost predicate Leads(db: Db, req: Request, pc: Pc, db': Db, pc': Pc) {
    exists n: nat :: Calls(db, req, pc, n) == (db', pc')
  }

  lemma Here(db: Db, req: Request, pc: Pc)
    ensures Leads(db, req, pc, db, pc)
  {
    assert Calls(db, req, pc, 0) == (db, pc);
  }

  /** One more call in front. */
  lemma First(db: Db, req: Request, pc: Pc, next: (Db, Pc), db': Db, pc': Pc)
    requires Call(db, req, pc) == next && Leads(next.0, req, next.1, db', pc')
    ensures Leads(db, req, pc, db', pc')
  {
    var n: nat :| Calls(next.0, req, next.1, n) == (db', pc');
    assert Calls(db, req, pc, n + 1) == (db', pc');
  }

  /***** The token *****/

  /** A stored, unrevoked token of the account. */
  predicate Usable(db: Db, t: int, uid: int) { t in db.tokens && db.tokens[t] == Token(uid, false) }

  /** Token `t` is new; all others are as they were, but those of `uid` are revoked where `ends` says so. */
  ghost predicate OnlyAdds(db: Db, db': Db, t: int, uid: int, ends: bool) {
    && t !in db.tokens && db'.tokens.Keys == db.tokens.Keys + {t}
    && forall o | o in db.tokens ::
         && db'.tokens[o].uid == db.tokens[o].uid
         && (db'.tokens[o].revoked <==> db.tokens[o].revoked || (ends && db.tokens[o].uid == uid))
  }

  /** MAIN: minting for an account that exists stores a new usable token of that account, and nothing else. */
  lemma MintStores(db: Db, req: Request, uid: int)
    requires DbOk(db) && uid in db.users
    ensures var (db', pc') := Call(db, req, Mint(uid));
            && pc'.SignedIn? && Usable(db', pc'.token, uid) && OnlyAdds(db, db', pc'.token, uid, false)
            && db'.users == db.users
  {}

  /** MAIN: amid everybody else's steps, a sign-in that mints for an existing account ends with such a token. */
  lemma GoStores(s: GatewaySignIn.State, pid: int)
    requires GatewaySignIn.Inv(s) && pid in s.procs && s.procs[pid].pc.Mint? && s.procs[pid].pc.uid in s.db.users
    ensures GatewaySignIn.Enabled(s, GatewaySignIn.Go(pid))
    ensures var s' := GatewaySignIn.Next(s, GatewaySignIn.Go(pid)); var uid := s.procs[pid].pc.uid;
            && GatewaySignIn.HasToken(s', pid) && Usable(s'.db, s'.procs[pid].pc.token, uid)
            && OnlyAdds(s.db, s'.db, s'.procs[pid].pc.token, uid, false)
  {
    MintStores(s.db, s.procs[pid].req, s.procs[pid].pc.uid);
  }

  /** Signed in with a usable token of `uid`, whose earlier sessions are over unless it is an administrator's. */
  ghost predicate SignsIn(db: Db, db': Db, pc': Pc, uid: int, role: int) {
    pc'.SignedIn? && Usable(db', pc'.token, uid) && OnlyAdds(db, db', pc'.token, uid, role < 3)
  }

  lemma AdmittedSignsIn(db: Db, req: Request, uid: int, row: Account) returns (db': Db, pc': Pc)
    requires DbOk(db) && uid in db.users && row.approved
    ensures Leads(db, req, Admit(uid, row), db', pc')
    ensures SignsIn(db, db', pc', uid, row.role) && db'.users == db.users
  {
    var before := if row.role < 3 then RevokedOf(db, uid) else db;
    var last := Call(before, req, Mint(uid));
    db', pc' := last.0, last.1;
    Here(db', req, pc');
    First(before, req, Mint(uid), last, db', pc');
    if row.role < 3 {
      First(db, req, Revoke(uid), (before, Mint(uid)), db', pc');
    }
  }

  /***** Somebody who has been here before *****/

  lemma Finds(db: Db, u: int, sub: string)
    requires DbOk(db) && Holds(db, u, sub)
    ensures FindBySub(db, sub) == Some(u)
  {
    assert Held(db, sub);
    assert Holds(db, FindBySub(db, sub).value, sub);
  }

  /** MAIN: the approved holder of the sub ends up with a usable token of the account, and nobody's row changes. */
  lemma HolderSignsIn(db: Db, req: Request, u: int) returns (db': Db, pc': Pc)
    requires DbOk(db) && Holds(db, u, req.sub) && db.users[u].approved
    ensures Leads(db, req, FindSub, db', pc')
    ensures SignsIn(db, db', pc', u, db.users[u].role) && db'.users == db.users
  {
    Finds(db, u, req.sub);
    db', pc' := AdmittedSignsIn(db, req, u, db.users[u]);
    First(db, req, FindSub, (db, Admit(u, db.users[u])), db', pc');
  }

  /** A holder without approval is refused, and nothing changes. */
  lemma HolderRefused(db: Db, req: Request, u: int)
    requires DbOk(db) && Holds(db, u, req.sub) && !db.users[u].approved
    ensures Leads(db, req, FindSub, db, Failed(NotApproved))
  {
    Finds(db, u, req.sub);
    Here(db, req, Failed(NotApproved));
    First(db, req, FindSub, (db, Failed(NotApproved)), db, Failed(NotApproved));
  }

  /***** Somebody whose verified address belongs to an account *****/

  /** Nobody holds the sub, and the verified address is account `u`'s. */
  ghost predicate AddressOf(db: Db, req: Request, u: int) {
    && !Held(db, req.sub) && req.emailVerified
    && req.email.Some? && req.email.value != "" && HasEmail(db, u, req.email.value)
  }

  lemma AddressFinds(db: Db, req: Request, u: int, db': Db, pc': Pc)
    requires DbOk(db) && AddressOf(db, req, u)
    requires Leads(db, req, LinkExisting(u, db.users[u]), db', pc')
    ensures Leads(db, req, FindSub, db', pc')
  {
    var mail := req.email.value;
    assert FindBySub(db, req.sub).None?;
    assert FindByEmail(db, mail) == Some(u) by {
      assert HasEmail(db, u, mail);
      assert HasEmail(db, FindByEmail(db, mail).value, mail);
    }
    First(db, req, FindEmail(mail), (db, LinkExisting(u, db.users[u])), db', pc');
    First(db, req, FindSub, (db, FindEmail(mail)), db', pc');
  }

  /** The account is bound to the sub; nothing else about any account changes. */
  function Bind(users: map<int, Account>, u: int, sub: string): map<int, Account>
    requires u in users
  {
    users[u := users[u].(sub := Some(sub))]
  }

  /** MAIN: if that account has no sub and is approved, it is bound, and the person gets a usable token of it. */
  lemma AddressSignsIn(db: Db, req: Request, u: int) returns (db': Db, pc': Pc)
    requires DbOk(db) && AddressOf(db, req, u) && db.users[u].sub.None? && db.users[u].approved
    ensures Leads(db, req, FindSub, db', pc')
    ensures SignsIn(db, db', pc', u, db.users[u].role) && db'.users == Bind(db.users, u, req.sub)
  {
    var row, bound := db.users[u], Linked(db, u, req.sub);
    assert !SubClash(db, u, req.sub);
    FoundIsSettled(db, u, req.email.value);
    LinkedKeeps(db, u, req.sub, None, true);
    db', pc' := AdmittedSignsIn(bound, req, u, row);
    First(db, req, LinkExisting(u, row), (bound, Admit(u, row)), db', pc');
    AddressFinds(db, req, u, db', pc');
  }

  /** If it is bound to another sub already, the sign-in is refused and nothing changes. */
  lemma AddressTaken(db: Db, req: Request, u: int)
    requires DbOk(db) && AddressOf(db, req, u) && db.users[u].sub.Some?
    ensures Leads(db, req, FindSub, db, Failed(SubConflict))
  {
    assert db.users[u].sub != Some(req.sub) by {
      assert !Holds(db, u, req.sub);
    }
    Here(db, req, Failed(SubConflict));
    First(db, req, FindOwner(BoundElsewhere), (db, Failed(SubConflict)), db, Failed(SubConflict));
    First(db, req, LinkExisting(u, db.users[u]), (db, FindOwner(BoundElsewhere)), db, Failed(SubConflict));
    AddressFinds(db, req, u, db, Failed(SubConflict));
  }

  /***** Somebody new *****/

  /** Nobody holds the sub, and no account is to be found by a verified address. */
  ghost predicate Newcomer(db: Db, req: Request) {
    && !Held(db, req.sub)
    && (req.emailVerified && req.email.Some? && req.email.value != "" ==> forall u :: !HasEmail(db, u, req.email.value))
  }

  lemma NewcomerProbes(db: Db, req: Request, db': Db, pc': Pc)
    requires Newcomer(db, req) && Leads(db, req, ProbeName(1), db', pc')
    ensures Leads(db, req, FindSub, db', pc')
  {
    assert FindBySub(db, req.sub).None?;
    if req.emailVerified && Mail(req).Some? {
      var mail := Mail(req).value;
      assert FindByEmail(db, mail).None?;
      First(db, req, FindEmail(mail), (db, ProbeName(1)), db', pc');
      First(db, req, FindSub, (db, FindEmail(mail)), db', pc');
    } else {
      First(db, req, FindSub, (db, ProbeName(1)), db', pc');
    }
  }

  ghost predicate AllTaken(db: Db, base: string, j: nat, k: nat) {
    forall i | j <= i < k :: NameTaken(db, Candidate(base, i))
  }

  /** Taken names are passed over. */
  lemma {:induction false} ProbesOn(db: Db, req: Request, j: nat, k: nat, db': Db, pc': Pc)
    requires 1 <= j <= k <= 1000 && AllTaken(db, req.base, j, k)
    requires Leads(db, req, ProbeName(k), db', pc')
    ensures Leads(db, req, ProbeName(j), db', pc')
    decreases k - j
  {
    if j < k {
      ProbesOn(db, req, j + 1, k, db', pc');
      First(db, req, ProbeName(j), (db, ProbeName(j + 1)), db', pc');
    }
  }

  /** MAIN: with all thousand names taken the newcomer is refused, and nothing changes. */
  lemma NewcomerExhausted(db: Db, req: Request)
    requires Newcomer(db, req) && AllTaken(db, req.base, 1, 1001)
    ensures Leads(db, req, FindSub, db, Failed(UsernameExhausted))
  {
    Here(db, req, Failed(UsernameExhausted));
    First(db, req, ProbeName(1000), (db, Failed(UsernameExhausted)), db, Failed(UsernameExhausted));
    ProbesOn(db, req, 1, 1000, db, Failed(UsernameExhausted));
    NewcomerProbes(db, req, db, Failed(UsernameExhausted));
  }

  /** The address is written only if it is given and nobody has it. */
  ghost predicate FreeAddress(db: Db, req: Request) {
    req.email.Some? && req.email.value != "" && forall u :: !HasEmail(db, u, req.email.value)
  }

  /** The account a newcomer gets: a viewer's, approved, bound to the sub. */
  ghost function NewAccount(db: Db, req: Request, k: nat): Account {
    Account(Candidate(req.base, k), if FreeAddress(db, req) then req.email else None, Some(req.sub), true, 1)
  }

  /**
   MAIN: otherwise the newcomer gets a new account under the first free name, and a usable token of it;
   no other account and no other token changes.
   */
  lemma NewcomerSignsIn(db: Db, req: Request, k: nat) returns (db': Db, pc': Pc)
    requires DbOk(db) && Newcomer(db, req)
    requires 1 <= k <= 1000 && AllTaken(db, req.base, 1, k) && !NameTaken(db, Candidate(req.base, k))
    ensures Leads(db, req, FindSub, db', pc')
    ensures pc'.SignedIn? && Usable(db', pc'.token, db.nextId) && OnlyAdds(db, db', pc'.token, db.nextId, false)
    ensures db.nextId !in db.users && db'.users == db.users[db.nextId := NewAccount(db, req, k)]
  {
    var id := db.nextId;
    var made := Inserted(db, Candidate(req.base, k), false, 1, true);
    InsertedKeeps(db, Candidate(req.base, k), false, 1, true, true);
    var bound := Linked(made, id, req.sub);
    assert !SubClash(made, id, req.sub) by {
      forall v | v != id ensures !Holds(made, v, req.sub) {
        assert !Holds(db, v, req.sub);
      }
    }
    var approved := WithStanding(bound, id, true, 1);
    db', pc' := ApprovedSignsIn(db, approved, req, k);
    var next := if Mail(req).Some? then LookEmail(id, Mail(req).value) else Mint(id);
    First(bound, req, Approve(id), (approved, next), db', pc');
    First(made, req, LinkFresh(id), (bound, Approve(id)), db', pc');
    First(db, req, InsertName(k), (made, LinkFresh(id)), db', pc');
    First(db, req, ProbeName(k), (db, InsertName(k)), db', pc');
    ProbesOn(db, req, 1, k, db', pc');
    NewcomerProbes(db, req, db', pc');
  }

  /** From the approved account on: the address, if it is free, and the token. */
  lemma ApprovedSignsIn(db: Db, approved: Db, req: Request, k: nat) returns (db': Db, pc': Pc)
    requires DbOk(db) && approved.tokens == db.tokens && approved.nextToken == db.nextToken
    requires approved.users == db.users[db.nextId := Account(Candidate(req.base, k), None, Some(req.sub), true, 1)]
    ensures var mail := Mail(req); var id := db.nextId;
            Leads(approved, req, if mail.Some? then LookEmail(id, mail.value) else Mint(id), db', pc')
    ensures pc'.SignedIn? && Usable(db', pc'.token, db.nextId) && OnlyAdds(db, db', pc'.token, db.nextId, false)
    ensures db'.users == db.users[db.nextId := NewAccount(db, req, k)]
  {
    var id := db.nextId;
    var addressed := if FreeAddress(db, req) then WithEmail(approved, id, req.email.value) else approved;
    var last := Call(addressed, req, Mint(id));
    db', pc' := last.0, last.1;
    Here(db', req, pc');
    First(addressed, req, Mint(id), last, db', pc');
    if Mail(req).Some? {
      var mail := Mail(req).value;
      assert forall u :: HasEmail(approved, u, mail) <==> HasEmail(db, u, mail);
      if FreeAddress(db, req) {
        assert FindByEmail(approved, mail).None?;
        First(approved, req, SetEmail(id, mail), (addressed, Mint(id)), db', pc');
        First(approved, req, LookEmail(id, mail), (approved, SetEmail(id, mail)), db', pc');
      } else {
        assert FindByEmail(approved, mail).Some?;
        First(approved, req, LookEmail(id, mail), (approved, Mint(id)), db', pc');
      }
    }
  }
}
