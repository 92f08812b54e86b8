/**
 The database calls of a gateway sign-in, one at a time: what each does to the tables, and which call
 the sign-in makes next.
 */
module GatewayCalls {
  import opened Wrappers
  import opened UniqueUsername

  const VIEWER_ROLE: int := 1
  const ADMIN_ROLE: int := 3

  datatype Account = Account(username: string, email: Option<string>, sub: Option<string>, approved: bool, role: int)

  datatype Token = Token(uid: int, revoked: bool)

  /**
   The tables, and three records of the past: the accounts sign-ins created (`made`), every username
   ever taken (`names`), and the next unused id and token.
   */
  datatype Db = Db(users: map<int, Account>, tokens: map<int, Token>, nextId: int, nextToken: int,
                   made: set<int>, names: set<string>)

  /** What the identity provider says about the person; `base` is the cleaned username. */
  datatype Request = Request(sub: string, base: string, email: Option<string>, emailVerified: bool)

  datatype Failure = NotApproved | SubConflict | UsernameExhausted | DatabaseError

  /** Why a sign-in goes back to look for the owner of its sub. */
  datatype Why = Raced | BoundElsewhere

  datatype After = ToOwner | ToError

  /** The call a sign-in is about to make. */
  datatype Pc =
    | FindSub
    | FindEmail(mail: string)
    | LinkExisting(uid: int, row: Account)
    | FindOwner(why: Why)
    | ProbeName(suffix: nat)
    | InsertName(suffix: nat)
    | LinkFresh(id: int)
    | DropTokens(id: int, after: After)
    | DropRow(id: int, after: After)
    | Approve(id: int)
    | LookEmail(id: int, mail: string)
    | SetEmail(id: int, mail: string)
    | Revoke(uid: int)
    | Mint(uid: int)
    | SignedIn(token: int)
    | Failed(failure: Failure)
    | Crashed

  function Mail(req: Request): Option<string> {
    if req.email.Some? && req.email.value != "" then req.email else None
  }

  predicate Holds(db: Db, u: int, sub: string) { u in db.users && db.users[u].sub == Some(sub) }

  predicate HasEmail(db: Db, u: int, mail: string) { u in db.users && db.users[u].email == Some(mail) }

  ghost predicate Held(db: Db, sub: string) { exists u :: Holds(db, u, sub) }

  predicate HasName(db: Db, u: int, name: string) { u in db.users && db.users[u].username == name }

  ghost predicate NameTaken(db: Db, name: string) { exists u :: HasName(db, u, name) }

  ghost function FindBySub(db: Db, sub: string): (r: Option<int>)
    ensures r.Some? ==> Holds(db, r.value, sub)
    ensures r.None? ==> !Held(db, sub)
  {
    if Held(db, sub) then var u :| Holds(db, u, sub); Some(u) else None
  }

  ghost function FindByEmail(db: Db, mail: string): (r: Option<int>)
    ensures r.Some? ==> HasEmail(db, r.value, mail)
    ensures r.None? ==> forall u :: !HasEmail(db, u, mail)
  {
    if exists u :: HasEmail(db, u, mail) then var u :| HasEmail(db, u, mail); Some(u) else None
  }

  /** The approval check is made on the row as it was read. */
  function Admit(uid: int, row: Account): Pc {
    if !row.approved then Failed(NotApproved)
    else if row.role < ADMIN_ROLE then Revoke(uid)
    else Mint(uid)
  }

  function NextName(suffix: nat): Pc {
    if suffix + 1 > MAX_SUFFIX then Failed(UsernameExhausted) else ProbeName(suffix + 1)
  }

  function Dropped(after: After): Pc {
    if after == ToOwner then FindOwner(Raced) else Failed(DatabaseError)
  }

  /** The conditional update only touches an account without a sub, or with this very sub. */
  predicate Linkable(db: Db, u: int, sub: string) {
    u in db.users && (db.users[u].sub == None || db.users[u].sub == Some(sub))
  }

  ghost predicate SubClash(db: Db, u: int, sub: string) { exists v :: v != u && Holds(db, v, sub) }

  function Linked(db: Db, u: int, sub: string): Db
    requires u in db.users
  {
    db.(users := db.users[u := db.users[u].(sub := Some(sub))])
  }

  function Inserted(db: Db, name: string, approved: bool, role: int, bySignIn: bool): Db {
    db.(users := db.users[db.nextId := Account(name, None, None, approved, role)], nextId := db.nextId + 1,
        made := if bySignIn then db.made + {db.nextId} else db.made, names := db.names + {name})
  }

  function WithoutTokensOf(db: Db, u: int): Db {
    db.(tokens := map t | t in db.tokens && db.tokens[t].uid != u :: db.tokens[t])
  }

  /** Deleting a row cascades to its tokens. */
  function WithoutUser(db: Db, u: int): Db {
    WithoutTokensOf(db, u).(users := db.users - {u})
  }

  function RevokedOf(db: Db, u: int): Db {
    db.(tokens := map t | t in db.tokens ::
          if db.tokens[t].uid == u then db.tokens[t].(revoked := true) else db.tokens[t])
  }

  /** A token is drawn either way; the row is inserted only if the account still exists. */
  function Minted(db: Db, u: int): Db {
    db.(tokens := if u in db.users then db.tokens[db.nextToken := Token(u, false)] else db.tokens,
        nextToken := db.nextToken + 1)
  }

  /** The unique index refuses an address some other account has. */
  ghost function WithEmail(db: Db, u: int, mail: string): Db {
    if u in db.users && forall v | v != u :: !HasEmail(db, v, mail)
    then db.(users := db.users[u := db.users[u].(email := Some(mail))]) else db
  }

  function WithStanding(db: Db, u: int, approved: bool, role: int): Db {
    if u in db.users then db.(users := db.users[u := db.users[u].(approved := approved, role := role)]) else db
  }

  predicate Settled(pc: Pc) { pc.SignedIn? || pc.Failed? || pc.Crashed? }

  /** One successful database call of the sign-in for `req` standing at `pc`. */
  ghost function Call(db: Db, req: Request, pc: Pc): (Db, Pc) {
    match pc
    case FindSub =>
      var owner := FindBySub(db, req.sub);
      (db, if owner.Some? then Admit(owner.value, db.users[owner.value])
           else if req.emailVerified && Mail(req).Some? then FindEmail(Mail(req).value)
           else ProbeName(1))
    case FindEmail(mail) =>
      var found := FindByEmail(db, mail);
      (db, if found.Some? then LinkExisting(found.value, db.users[found.value]) else ProbeName(1))
    case LinkExisting(uid, row) =>
      if !Linkable(db, uid, req.sub) then (db, FindOwner(BoundElsewhere))
      else if SubClash(db, uid, req.sub) then (db, FindOwner(Raced))
      else (Linked(db, uid, req.sub), Admit(uid, row))
    case FindOwner(_) =>
      var owner := FindBySub(db, req.sub);
      (db, if owner.Some? then Admit(owner.value, db.users[owner.value]) else Failed(SubConflict))
    case ProbeName(k) =>
      (db, if NameTaken(db, Candidate(req.base, k)) then NextName(k) else InsertName(k))
    case InsertName(k) =>
      if NameTaken(db, Candidate(req.base, k)) then (db, NextName(k))
      else (Inserted(db, Candidate(req.base, k), false, VIEWER_ROLE, true), LinkFresh(db.nextId))
    case LinkFresh(id) =>
      if !Linkable(db, id, req.sub) || SubClash(db, id, req.sub) then (db, DropTokens(id, ToOwner))
      else (Linked(db, id, req.sub), Approve(id))
    case DropTokens(id, after) => (WithoutTokensOf(db, id), DropRow(id, after))
    case DropRow(id, after) => (WithoutUser(db, id), Dropped(after))
    case Approve(id) =>
      (if id in db.users then WithStanding(db, id, true, db.users[id].role) else db,
       if Mail(req).Some? then LookEmail(id, Mail(req).value) else Mint(id))
    case LookEmail(id, mail) =>
      (db, if FindByEmail(db, mail).None? then SetEmail(id, mail) else Mint(id))
    case SetEmail(id, mail) => (WithEmail(db, id, mail), Mint(id))
    case Revoke(uid) => (RevokedOf(db, uid), Mint(uid))
    case Mint(uid) => (Minted(db, uid), SignedIn(db.nextToken))
    case _ => (db, pc)
  }

  /** Where the sign-in goes when the call at `pc` reports a failure other than a unique violation. */
  function OnError(req: Request, pc: Pc): Pc {
    match pc
    case LinkFresh(id) => DropTokens(id, ToError)
    case DropTokens(_, after) => Dropped(after)
    case DropRow(_, after) => Dropped(after)
    case Approve(id) => if Mail(req).Some? then LookEmail(id, Mail(req).value) else Mint(id)
    case LookEmail(id, _) => Mint(id)
    case SetEmail(id, _) => Mint(id)
    case Revoke(uid) => Mint(uid)
    case _ => if Settled(pc) then pc else Failed(DatabaseError)
  }

  /***** What every call keeps *****/

  /** The unique indexes and foreign keys of the schema, and the meaning of the records. */
  ghost predicate DbOk(db: Db) {
    && (forall u | u in db.users :: u < db.nextId && db.users[u].username in db.names)
    && (forall u | u in db.made :: u < db.nextId)
    && (forall u, v, x | Holds(db, u, x) && Holds(db, v, x) :: u == v)
    && (forall u, v, n | HasName(db, u, n) && HasName(db, v, n) :: u == v)
    && (forall u, v, m | HasEmail(db, u, m) && HasEmail(db, v, m) :: u == v)
    && (forall t | t in db.tokens :: t < db.nextToken && db.tokens[t].uid in db.users)
    && (forall u | Unlinked(db, u) :: Untouched(db, u))
  }

  /** An account a sign-in created and nobody has bound yet. */
  predicate Unlinked(db: Db, u: int) { u in db.made && u in db.users && db.users[u].sub == None }

  /** No way into the account yet: neither an address nor a token. */
  ghost predicate Untouched(db: Db, u: int)
    requires u in db.users
  {
    db.users[u].email == None && forall t | t in db.tokens :: db.tokens[t].uid != u
  }

  predicate Bound(db: Db, uid: int, sub: string) {
    uid < db.nextId && (uid in db.users ==> db.users[uid].sub == Some(sub))
  }

  ghost predicate TakenBelow(db: Db, base: string, suffix: nat) {
    forall j | 1 <= j < suffix :: Candidate(base, j) in db.names
  }

  /** The account a sign-in created and has not yet finished with. */
  function Charge(pc: Pc): Option<int> {
    match pc
    case LinkFresh(id) => Some(id)
    case DropTokens(id, _) => Some(id)
    case DropRow(id, _) => Some(id)
    case Approve(id) => Some(id)
    case _ => None
  }

  /** `calm`: so far no failed call, no crash and no administrator at work. */
  ghost predicate PcOk(db: Db, calm: bool, req: Request, pc: Pc) {
    match pc
    case FindEmail(mail) => req.emailVerified && Mail(req) == Some(mail)
    case LinkExisting(uid, row) =>
      && req.emailVerified && Mail(req).Some? && row.email == Mail(req) && uid < db.nextId && !Unlinked(db, uid)
    case FindOwner(why) => calm && why == Raced ==> Held(db, req.sub)
    case ProbeName(k) => 1 <= k <= MAX_SUFFIX && TakenBelow(db, req.base, k)
    case InsertName(k) => 1 <= k <= MAX_SUFFIX && TakenBelow(db, req.base, k)
    case Failed(failure) => failure == UsernameExhausted ==> TakenBelow(db, req.base, MAX_SUFFIX + 1)
    case LinkFresh(id) =>
      && id in db.made && (id in db.users ==> Unlinked(db, id))
      && (calm ==> id in db.users && !db.users[id].approved)
    case DropTokens(id, after) => id in db.made && (calm ==> Unlinked(db, id) && after == ToOwner && Held(db, req.sub))
    case DropRow(id, after) => id in db.made && (calm ==> Unlinked(db, id) && after == ToOwner && Held(db, req.sub))
    case Approve(id) =>
      && id in db.made && Bound(db, id, req.sub)
      && (calm ==> id in db.users && !db.users[id].approved)
    case LookEmail(id, _) => Bound(db, id, req.sub)
    case SetEmail(id, _) => Bound(db, id, req.sub)
    case Revoke(uid) => Bound(db, uid, req.sub)
    case Mint(uid) => Bound(db, uid, req.sub)
    case SignedIn(t) => t < db.nextToken && (t in db.tokens ==> Holds(db, db.tokens[t].uid, req.sub))
    case _ => true
  }

  /**
   What one step of anybody may do to the tables.  A sub, once bound, is final; ids and tokens are
   never used again; an account somebody is still creating is left alone by everyone else (`mine`
   is the one the step's own sign-in is creating), and while all is calm no bound account disappears.
   */
  ghost predicate Evolves(db: Db, db': Db, mine: Option<int>, calm: bool) {
    && db.nextId <= db'.nextId && db.nextToken <= db'.nextToken && db.names <= db'.names && db.made <= db'.made
    && (forall u | u in db'.made && u < db.nextId :: u in db.made)
    && (forall u | u in db'.users && u < db.nextId :: u in db.users)
    && (forall u | u in db.users && u in db'.users && db.users[u].sub.Some? :: db'.users[u].sub == db.users[u].sub)
    && (forall t | t in db'.tokens && t < db.nextToken :: t in db.tokens && db'.tokens[t].uid == db.tokens[t].uid)
    && (calm ==> forall u | u in db.users && db.users[u].sub.Some? :: u in db'.users)
    && (forall u | u in db.made && mine != Some(u) :: LeftAlone(db, db', u, calm))
  }

  predicate LeftAlone(db: Db, db': Db, u: int, calm: bool) {
    && (Unlinked(db, u) && u in db'.users ==> Unlinked(db', u))
    && (calm && u in db.users ==> u in db'.users && db'.users[u].approved == db.users[u].approved)
  }

  /** Rows only disappear or change standing, and no token appears for an account still being created. */
  ghost predicate Trims(db: Db, db': Db) {
    && db'.nextId == db.nextId && db'.names == db.names && db'.made == db.made
    && (forall u | u in db'.users :: u in db.users && db'.users[u] ==
          db.users[u].(approved := db'.users[u].approved, role := db'.users[u].role))
    && (forall t | t in db'.tokens ::
          t < db'.nextToken && db'.tokens[t].uid in db'.users && !Unlinked(db', db'.tokens[t].uid))
  }

  lemma TrimmedOk(db: Db, db': Db)
    requires DbOk(db) && Trims(db, db')
    ensures DbOk(db')
  {
    assert forall u, x | Holds(db', u, x) :: Holds(db, u, x);
    assert forall u, x | HasName(db', u, x) :: HasName(db, u, x);
    assert forall u, x | HasEmail(db', u, x) :: HasEmail(db, u, x);
    forall u | Unlinked(db', u) ensures Untouched(db', u) {
      assert Unlinked(db, u) && Untouched(db, u);
    }
  }

  /** No token belongs to an account still being created. */
  lemma TokensElsewhere(db: Db)
    requires DbOk(db)
    ensures forall t | t in db.tokens :: !Unlinked(db, db.tokens[t].uid)
  {
    forall t | t in db.tokens ensures !Unlinked(db, db.tokens[t].uid) {
      assert Unlinked(db, db.tokens[t].uid) ==> Untouched(db, db.tokens[t].uid);
    }
  }

  lemma LinkedKeeps(db: Db, u: int, sub: string, mine: Option<int>, calm: bool)
    requires DbOk(db) && Linkable(db, u, sub) && !SubClash(db, u, sub)
    requires Unlinked(db, u) ==> mine == Some(u)
    ensures var db' := Linked(db, u, sub); DbOk(db') && Evolves(db, db', mine, calm) && Holds(db', u, sub)
  {
    var db' := Linked(db, u, sub);
    assert forall v, x | Holds(db', v, x) :: if v == u then x == sub else Holds(db, v, x);
    assert forall v, x | HasName(db', v, x) :: HasName(db, v, x);
    assert forall v, x | HasEmail(db', v, x) :: HasEmail(db, v, x);
    forall v | Unlinked(db', v) ensures Untouched(db', v) {
      assert Unlinked(db, v) && Untouched(db, v);
    }
  }

  lemma InsertedKeeps(db: Db, name: string, approved: bool, role: int, bySignIn: bool, calm: bool)
    requires DbOk(db) && !NameTaken(db, name)
    ensures var db' := Inserted(db, name, approved, role, bySignIn);
            DbOk(db') && Evolves(db, db', None, calm) && name in db'.names
  {
    var db' := Inserted(db, name, approved, role, bySignIn);
    assert db.nextId !in db.users;
    assert forall v, x | Holds(db', v, x) :: Holds(db, v, x);
    assert forall v, x | HasName(db', v, x) :: if v == db.nextId then x == name else HasName(db, v, x);
    assert forall v, x | HasEmail(db', v, x) :: HasEmail(db, v, x);
    forall v | Unlinked(db', v) ensures Untouched(db', v) {
      assert v != db.nextId ==> Unlinked(db, v) && Untouched(db, v);
    }
  }

  lemma TokensDroppedKeeps(db: Db, u: int, mine: Option<int>, calm: bool)
    requires DbOk(db)
    ensures DbOk(WithoutTokensOf(db, u)) && Evolves(db, WithoutTokensOf(db, u), mine, calm)
  {
    TokensElsewhere(db);
    TrimmedOk(db, WithoutTokensOf(db, u));
  }

  lemma UserDroppedKeeps(db: Db, u: int, mine: Option<int>, calm: bool)
    requires DbOk(db)
    requires calm ==> mine == Some(u) && Unlinked(db, u)
    ensures DbOk(WithoutUser(db, u)) && Evolves(db, WithoutUser(db, u), mine, calm)
  {
    TokensElsewhere(db);
    TrimmedOk(db, WithoutUser(db, u));
  }

  lemma StandingKeeps(db: Db, u: int, approved: bool, role: int, mine: Option<int>, calm: bool)
    requires DbOk(db)
    requires calm && u in db.made ==> mine == Some(u)
    ensures var db' := WithStanding(db, u, approved, role); DbOk(db') && Evolves(db, db', mine, calm)
  {
    TokensElsewhere(db);
    TrimmedOk(db, WithStanding(db, u, approved, role));
  }

  lemma RevokedKeeps(db: Db, u: int, mine: Option<int>, calm: bool)
    requires DbOk(db)
    ensures DbOk(RevokedOf(db, u)) && Evolves(db, RevokedOf(db, u), mine, calm)
  {
    TokensElsewhere(db);
    TrimmedOk(db, RevokedOf(db, u));
  }

  lemma MintedKeeps(db: Db, u: int, mine: Option<int>, calm: bool)
    requires DbOk(db) && !Unlinked(db, u)
    ensures DbOk(Minted(db, u)) && Evolves(db, Minted(db, u), mine, calm)
  {
    TokensElsewhere(db);
    TrimmedOk(db, Minted(db, u));
  }

  lemma EmailKeeps(db: Db, u: int, mail: string, mine: Option<int>, calm: bool)
    requires DbOk(db) && !Unlinked(db, u)
    ensures var db' := WithEmail(db, u, mail); DbOk(db') && Evolves(db, db', mine, calm)
  {
    var db' := WithEmail(db, u, mail);
    if db' != db {
      assert forall v, x | Holds(db', v, x) :: Holds(db, v, x);
      assert forall v, x | HasName(db', v, x) :: HasName(db, v, x);
      assert forall v, x | HasEmail(db', v, x) :: if v == u then x == mail else HasEmail(db, v, x);
      forall v | Unlinked(db', v) ensures Untouched(db', v) {
        assert Unlinked(db, v) && Untouched(db, v);
      }
    }
  }

  /** A successful call keeps the tables sound and disturbs nobody else. */
  lemma CallKeepsDb(db: Db, calm: bool, req: Request, pc: Pc)
    requires DbOk(db) && PcOk(db, calm, req, pc)
    ensures DbOk(Call(db, req, pc).0) && Evolves(db, Call(db, req, pc).0, Charge(pc), calm)
  {
    match pc
    case LinkExisting(uid, _) =>
      if Linkable(db, uid, req.sub) && !SubClash(db, uid, req.sub) { LinkedKeeps(db, uid, req.sub, None, calm); }
    case LinkFresh(id) =>
      if Linkable(db, id, req.sub) && !SubClash(db, id, req.sub) { LinkedKeeps(db, id, req.sub, Some(id), calm); }
    case InsertName(k) =>
      var name := Candidate(req.base, k);
      if !NameTaken(db, name) { InsertedKeeps(db, name, false, VIEWER_ROLE, true, calm); }
    case DropTokens(id, _) => TokensDroppedKeeps(db, id, Some(id), calm);
    case DropRow(id, _) => UserDroppedKeeps(db, id, Some(id), calm);
    case Approve(id) => if id in db.users { StandingKeeps(db, id, true, db.users[id].role, Some(id), calm); }
    case SetEmail(id, mail) => EmailKeeps(db, id, mail, None, calm);
    case Revoke(uid) => RevokedKeeps(db, uid, None, calm);
    case Mint(uid) => MintedKeeps(db, uid, None, calm);
    case _ =>
  }

  /** A row found by an unused address or a sub is not one still being created. */
  lemma FoundIsSettled(db: Db, u: int, mail: string)
    requires DbOk(db) && HasEmail(db, u, mail)
    ensures !Unlinked(db, u) && u < db.nextId
  {
    assert Unlinked(db, u) ==> Untouched(db, u);
  }

  /** Calls that create, bind or remove the fresh account of a sign-in. */
  predicate FreshCall(pc: Pc) {
    pc.ProbeName? || pc.InsertName? || pc.LinkFresh? || pc.DropTokens? || pc.DropRow?
  }

  lemma FreshCallKeepsPc(db: Db, calm: bool, req: Request, pc: Pc)
    requires DbOk(db) && PcOk(db, calm, req, pc) && FreshCall(pc)
    ensures var (db', pc') := Call(db, req, pc); PcOk(db', calm, req, pc')
  {
    var (db', pc') := Call(db, req, pc);
    match pc
    case LinkFresh(id) => assert id in db.users ==> Untouched(db, id);
    case DropTokens(id, _) => CleanupKeepsPc(db, calm, req, pc, id);
    case DropRow(id, _) => CleanupKeepsPc(db, calm, req, pc, id);
    case InsertName(k) => assert NameTaken(db, Candidate(req.base, k)) ==> Candidate(req.base, k) in db.names;
    case ProbeName(k) => assert NameTaken(db, Candidate(req.base, k)) ==> Candidate(req.base, k) in db.names;
  }

  lemma CleanupKeepsPc(db: Db, calm: bool, req: Request, pc: Pc, id: int)
    requires DbOk(db) && PcOk(db, calm, req, pc)
    requires (pc.DropTokens? || pc.DropRow?) && pc.id == id
    ensures var (db', pc') := Call(db, req, pc); PcOk(db', calm, req, pc')
  {
    if calm {
      TokensDroppedKeeps(db, id, Some(id), true);
      UserDroppedKeeps(db, id, Some(id), true);
      StillHeld(db, WithoutTokensOf(db, id), Some(id), req.sub);
      StillHeld(db, WithoutUser(db, id), Some(id), req.sub);
    }
  }

  /** A successful call leaves the sign-in itself on firm ground. */
  lemma CallKeepsPc(db: Db, calm: bool, req: Request, pc: Pc)
    requires DbOk(db) && PcOk(db, calm, req, pc)
    ensures var (db', pc') := Call(db, req, pc); PcOk(db', calm, req, pc')
  {
    if FreshCall(pc) {
      FreshCallKeepsPc(db, calm, req, pc);
    } else if pc.FindEmail? && FindByEmail(db, pc.mail).Some? {
      FoundIsSettled(db, FindByEmail(db, pc.mail).value, pc.mail);
    }
  }

  lemma StillHeld(db: Db, db': Db, mine: Option<int>, sub: string)
    requires Evolves(db, db', mine, true) && Held(db, sub)
    ensures Held(db', sub)
  {
    var u :| Holds(db, u, sub);
    assert Holds(db', u, sub);
  }

  /** A sign-in that waits keeps its footing, whatever anybody else does. */
  lemma OthersKeepPc(db: Db, db': Db, mine: Option<int>, calm: bool, req: Request, pc: Pc)
    requires DbOk(db) && DbOk(db') && Evolves(db, db', mine, calm) && PcOk(db, calm, req, pc)
    requires Charge(pc).Some? ==> Charge(pc) != mine
    ensures PcOk(db', calm, req, pc)
  {
    if calm && Held(db, req.sub) {
      StillHeld(db, db', mine, req.sub);
    }
  }

  /** A call keeps its sign-in in charge of the account it was, or puts it in charge of a new one. */
  lemma CallCharge(db: Db, req: Request, pc: Pc)
    ensures var c := Charge(Call(db, req, pc).1);
            c == None || c == Charge(pc) || (c == Some(db.nextId) && pc.InsertName?)
    ensures Charge(OnError(req, pc)) == None || Charge(OnError(req, pc)) == Charge(pc)
  {}

  /** Bound to a sub by the sign-in that created it, and not approved. */
  predicate Waiting(db: Db, u: int) {
    u in db.made && u in db.users && db.users[u].sub.Some? && !db.users[u].approved
  }

  /** Only the sign-in in charge of an account makes it one that is bound and waits for its approval. */
  lemma CallBinds(db: Db, req: Request, pc: Pc, u: int)
    requires DbOk(db) && PcOk(db, false, req, pc) && !Waiting(db, u) && Waiting(Call(db, req, pc).0, u)
    ensures pc == LinkFresh(u) && Charge(Call(db, req, pc).1) == Some(u) && Charge(OnError(req, pc)) == Some(u)
  {}

  /** Only the sign-in in charge of an account changes its approval. */
  lemma CallKeepsApproval(db: Db, req: Request, pc: Pc, u: int)
    requires u in db.users && u in Call(db, req, pc).0.users && u < db.nextId && pc != Approve(u)
    ensures Call(db, req, pc).0.users[u].approved == db.users[u].approved
  {}

  /** A call that failed, whether or not it took effect, leaves the sign-in on its weaker footing. */
  lemma ErrorKeepsPc(db: Db, db': Db, req: Request, pc: Pc)
    requires DbOk(db) && PcOk(db, false, req, pc) && !Settled(pc) && Evolves(db, db', Charge(pc), false)
    ensures PcOk(db', false, req, OnError(req, pc))
  {}
}
