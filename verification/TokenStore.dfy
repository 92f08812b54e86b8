/**
 Session tokens: the user and token tables, the in-process cache in front of them, and every
 operation that creates, revokes or deletes a token, each run without interference.
 */
module TokenStore {
  import opened Wrappers

  const TOKEN_CACHE_TTL: nat := 10 * SECOND
  const TOKEN_LIFETIME: nat := 7 * 24 * 3600 * SECOND
  const ADMIN_ROLE: int := 3

  datatype User = User(role: int, approved: bool, isGuest: bool)

  datatype TokenRow = TokenRow(uid: int, expires: nat, revoked: bool)

  /** A cached lookup: only valid tokens are ever cached. */
  datatype Cached = Cached(uid: int, at: nat)

  type Tokens = map<string, TokenRow>

  predicate WellFormed(token: string) {
    |token| == 64 && forall c | c in token :: 'a' <= c <= 'z' || 'A' <= c <= 'Z' || '0' <= c <= '9'
  }

  /** What the database query selects. */
  predicate Active(tokens: Tokens, token: string, now: nat) {
    token in tokens && !tokens[token].revoked && now < tokens[token].expires
  }

  predicate Fresh(c: Cached, now: nat) { now < c.at + TOKEN_CACHE_TTL }

  function Revoked(tokens: Tokens, uid: int, now: nat): Tokens {
    map t | t in tokens ::
      if tokens[t].uid == uid && Active(tokens, t, now) then tokens[t].(revoked := true) else tokens[t]
  }

  function Dropped(tokens: Tokens, uid: int): Tokens {
    map t | t in tokens && tokens[t].uid != uid :: tokens[t]
  }

  /** At most one usable token for every user who is not an administrator. */
  ghost predicate SingleSession(users: map<int, User>, tokens: Tokens, now: nat) {
    forall s, t | Active(tokens, s, now) && Active(tokens, t, now) && tokens[s].uid == tokens[t].uid
               && tokens[s].uid in users && users[tokens[s].uid].role < ADMIN_ROLE :: s == t
  }

  /** All rows are kept; those of `uid` that had not run out are revoked, and nothing else changes. */
  ghost predicate SessionsEnded(before: Tokens, after: Tokens, uid: int, now: nat) {
    && after.Keys == before.Keys
    && forall t | t in before ::
         && after[t].uid == before[t].uid && after[t].expires == before[t].expires
         && (after[t].revoked <==> before[t].revoked || (before[t].uid == uid && now < before[t].expires))
  }

  /** One new row, a token of `uid` good for seven days; the others as they were, or with `uid`'s sessions ended. */
  ghost predicate SessionOpened(before: Tokens, after: Tokens, token: string, uid: int, now: nat, ends: bool) {
    && token !in before && token in after
    && after[token] == TokenRow(uid, now + 7 * 24 * 3600 * 1000, false)
    && if ends then SessionsEnded(before, after - {token}, uid, now) else after - {token} == before
  }

  /** Tokens only run out, so a single session stays single as time passes. */
  lemma SingleSessionLasts(users: map<int, User>, tokens: Tokens, now: nat, later: nat)
    requires SingleSession(users, tokens, now) && now <= later
    ensures SingleSession(users, tokens, later)
  {
    forall s, t | Active(tokens, s, later) && Active(tokens, t, later) && tokens[s].uid == tokens[t].uid
               && tokens[s].uid in users && users[tokens[s].uid].role < ADMIN_ROLE
      ensures s == t
    {
      assert Active(tokens, s, now) && Active(tokens, t, now);
    }
  }

  lemma RevokedHasNone(tokens: Tokens, uid: int, now: nat)
    ensures forall t :: Active(Revoked(tokens, uid, now), t, now) <==> Active(tokens, t, now) && tokens[t].uid != uid
  {}

  class AuthStore {
    var users: map<int, User>
    var tokens: Tokens
    var cache: map<string, Cached>
    var nextUser: int
    /** The latest clock reading any operation has used. */
    ghost var clock: nat
    /** Random tokens never repeat. */
    ghost var issued: set<string>

    ghost predicate Valid()
      reads this
    {
      && (forall t | t in tokens :: t in issued && tokens[t].uid in users)
      && (forall u | u in users :: u < nextUser)
      && (forall t | t in cache && Fresh(cache[t], clock) :: CacheSound(t))
      && (forall t | t in cache :: cache[t].at <= clock)
    }

    /** Whatever the cache would answer is unrevoked and undeleted, and was unexpired when it was read. */
    ghost predicate CacheSound(t: string)
      reads this
      requires t in cache
    {
      t in tokens && !tokens[t].revoked && tokens[t].uid == cache[t].uid && cache[t].at < tokens[t].expires
    }

    constructor ()
      ensures Valid() && users == map[] && tokens == map[] && cache == map[] && clock == 0
    {
      users, tokens, cache, nextUser := map[], map[], map[], 0;
      clock, issued := 0, {};
    }

    /**
     Resolves a token.  Sound: never a revoked or deleted token, and an expired one for less than
     the cache's time to live.  Complete: every token the database accepts is accepted.
     */
    method FindUserByToken(token: string, now: nat) returns (uid: Option<int>)
      requires Valid() && clock <= now
      modifies this`cache, this`clock
      ensures Valid() && clock == now
      ensures uid.Some? ==>
                && WellFormed(token) && token in tokens && !tokens[token].revoked
                && tokens[token].uid == uid.value && uid.value in users
                && now < tokens[token].expires + TOKEN_CACHE_TTL
      ensures WellFormed(token) && Active(tokens, token, now) ==> uid == Some(tokens[token].uid)
      ensures old(SingleSession(users, tokens, clock)) ==> SingleSession(users, tokens, clock)
    {
      clock := now;
      if !WellFormed(token) {
        return None;
      }
      if token in cache && Fresh(cache[token], now) {
        return Some(cache[token].uid);
      }
      if !Active(tokens, token, now) {
        return None;
      }
      cache := cache[token := Cached(tokens[token].uid, now)];
      uid := Some(tokens[token].uid);
    }

    /** Enumerates the cached users and evicts every token of one of them. */
    method InvalidateCachedTokensForUser(uid: int, now: nat)
      requires forall t | t in cache :: cache[t].at <= now
      modifies this`cache
      ensures forall t | t in cache :: t in old(cache) && cache[t] == old(cache)[t]
      ensures forall t | t in cache && Fresh(cache[t], now) :: cache[t].uid != uid
      ensures forall t | t in old(cache) && old(cache)[t].uid != uid :: t in cache
    {
      var found := set t | t in cache && Fresh(cache[t], now) && cache[t].uid == uid;
      var todo := found;
      while todo != {}
        invariant todo <= found
        invariant cache == old(cache) - (found - todo)
        decreases todo
      {
        var token :| token in todo;
        cache := cache - {token};
        todo := todo - {token};
      }
    }

    /** The cache may evict entries at any time, for its capacity or their age. */
    method Evict(keys: set<string>)
      requires Valid()
      modifies this`cache
      ensures Valid() && cache == old(cache) - keys
      ensures old(SingleSession(users, tokens, clock)) ==> SingleSession(users, tokens, clock)
    {
      cache := cache - keys;
    }

    method RevokeTokensByUserId(uid: int, now: nat)
      requires Valid() && clock <= now
      modifies this`tokens, this`cache, this`clock
      ensures Valid() && clock == now
      ensures tokens == Revoked(old(tokens), uid, now) && SessionsEnded(old(tokens), tokens, uid, now)
      ensures old(SingleSession(users, tokens, clock)) ==> SingleSession(users, tokens, clock)
    {
      clock := now;
      tokens := Revoked(tokens, uid, now);
      InvalidateCachedTokensForUser(uid, now);
    }

    method DeleteTokensByUserId(uid: int, now: nat)
      requires Valid() && clock <= now
      modifies this`tokens, this`cache, this`clock
      ensures Valid() && clock == now
      ensures tokens == Dropped(old(tokens), uid)
      ensures forall t :: t in tokens <==> t in old(tokens) && old(tokens)[t].uid != uid
      ensures forall t | t in tokens :: tokens[t] == old(tokens)[t]
      ensures old(SingleSession(users, tokens, clock)) ==> SingleSession(users, tokens, clock)
    {
      clock := now;
      tokens := Dropped(tokens, uid);
      InvalidateCachedTokensForUser(uid, now);
    }

    method DeleteUser(uid: int, now: nat) returns (deleted: bool)
      requires Valid() && clock <= now
      modifies this
      ensures Valid() && clock == now && issued == old(issued) && nextUser == old(nextUser)
      ensures tokens == Dropped(old(tokens), uid) && users == old(users) - {uid}
      ensures deleted <==> uid in old(users)
      ensures old(SingleSession(users, tokens, clock)) ==> SingleSession(users, tokens, clock)
    {
      clock := now;
      tokens := Dropped(tokens, uid);
      deleted := uid in users;
      users := users - {uid};
      InvalidateCachedTokensForUser(uid, now);
    }

    /** Logout: the cache entry goes first, then the row. */
    method DeleteToken(token: string, now: nat) returns (deleted: bool)
      requires Valid() && clock <= now
      modifies this`tokens, this`cache, this`clock
      ensures Valid() && clock == now
      ensures deleted <==> WellFormed(token) && token in old(tokens)
      ensures tokens == if WellFormed(token) then old(tokens) - {token} else old(tokens)
      ensures old(SingleSession(users, tokens, clock)) ==> SingleSession(users, tokens, clock)
    {
      clock := now;
      if !WellFormed(token) {
        return false;
      }
      cache := cache - {token};
      deleted := token in tokens;
      tokens := tokens - {token};
    }

    /** Nothing happens when the account no longer exists. */
    method ResetPasswordAndRevokeTokens(uid: int, now: nat) returns (found: bool)
      requires Valid() && clock <= now
      modifies this`tokens, this`cache, this`clock
      ensures Valid() && clock == now
      ensures found <==> uid in users
      ensures tokens == if found then Revoked(old(tokens), uid, now) else old(tokens)
      ensures old(SingleSession(users, tokens, clock)) ==> SingleSession(users, tokens, clock)
    {
      clock := now;
      found := uid in users;
      if found {
        tokens := Revoked(tokens, uid, now);
        InvalidateCachedTokensForUser(uid, now);
      }
    }

    /** The token side of a guest merge: the guest's sessions go, and the row if it is a guest's. */
    method MergeGuestIntoUser(guest: int, target: int, now: nat) returns (merged: bool)
      requires Valid() && clock <= now
      modifies this
      ensures Valid() && clock == now && issued == old(issued) && nextUser == old(nextUser)
      ensures merged <==> guest in old(users) && target in old(users)
      ensures merged && guest != target ==>
                && tokens == Dropped(old(tokens), guest)
                && users == (if old(users)[guest].isGuest then old(users) - {guest} else old(users))
      ensures !merged || guest == target ==> tokens == old(tokens) && users == old(users)
      ensures old(SingleSession(users, tokens, clock)) ==> SingleSession(users, tokens, clock)
    {
      clock := now;
      merged := guest in users && target in users;
      if merged && guest != target {
        tokens := Dropped(tokens, guest);
        if users[guest].isGuest {
          users := users - {guest};
        }
        InvalidateCachedTokensForUser(guest, now);
      }
    }

    /** A token is returned even when the account is gone; then no row was inserted. */
    method CreateToken(uid: int, random: string, now: nat) returns (token: string)
      requires Valid() && clock <= now && random !in issued && WellFormed(random)
      modifies this`tokens, this`issued, this`clock
      ensures Valid() && clock == now && issued == old(issued) + {random} && token == random
      ensures tokens ==
              if uid in users then old(tokens)[random := TokenRow(uid, now + TOKEN_LIFETIME, false)] else old(tokens)
    {
      clock := now;
      issued := issued + {random};
      if uid in users {
        tokens := tokens[random := TokenRow(uid, now + TOKEN_LIFETIME, false)];
      }
      token := random;
    }

    method NewUser(user: User) returns (uid: int)
      requires Valid()
      modifies this`users, this`nextUser
      ensures Valid() && uid !in old(users) && users == old(users)[uid := user]
      ensures forall t | t in tokens :: tokens[t].uid != uid
    {
      uid := nextUser;
      users := users[uid := user];
      nextUser := nextUser + 1;
    }

    /***** The paths that open a session *****/

    /** The revocation in front of a new session: administrators are spared unless `always`, and it may fail. */
    method EndSessions(uid: int, always: bool, revokeFails: bool, now: nat)
      requires Valid() && clock <= now && uid in users
      requires SingleSession(users, tokens, clock)
      modifies this`tokens, this`cache, this`clock
      ensures Valid() && SingleSession(users, tokens, now) && clock <= now
      ensures var ends := !revokeFails && (always || users[uid].role < 3);
              if ends then SessionsEnded(old(tokens), tokens, uid, now) else tokens == old(tokens)
    {
      SingleSessionLasts(users, tokens, clock, now);
      if (always || users[uid].role < ADMIN_ROLE) && !revokeFails {
        RevokeTokensByUserId(uid, now);
      }
    }

    /** Revoke, then create: the step the password login, the gateway and an e-mail change share. */
    method Supersede(uid: int, always: bool, revokeFails: bool, random: string, now: nat) returns (token: string)
      requires Valid() && clock <= now && random !in issued && WellFormed(random) && uid in users
      requires SingleSession(users, tokens, clock)
      modifies this`tokens, this`cache, this`issued, this`clock
      ensures Valid() && clock == now && issued == old(issued) + {random} && token == random
      ensures Active(tokens, random, now) && tokens[random].uid == uid
      ensures !revokeFails ==> SingleSession(users, tokens, now)
      ensures !revokeFails && (always || users[uid].role < ADMIN_ROLE) ==>
                forall t | Active(tokens, t, now) && tokens[t].uid == uid :: t == random
      // Administrators keep their other sessions, and so does everybody if the revocation fails.
      ensures var ends := !revokeFails && (always || users[uid].role < 3);
              SessionOpened(old(tokens), tokens, random, uid, now, ends)
    {
      EndSessions(uid, always, revokeFails, now);
      ghost var before := tokens;
      assert random !in before;
      token := CreateToken(uid, random, now);
      assert tokens - {random} == before;
    }

    /** After the password was accepted: an unapproved account is refused like a wrong password. */
    method Login(uid: int, random: string, now: nat) returns (token: Option<string>)
      requires Valid() && clock <= now && random !in issued && WellFormed(random) && uid in users
      requires SingleSession(users, tokens, clock)
      modifies this`tokens, this`cache, this`issued, this`clock
      ensures Valid() && SingleSession(users, tokens, clock)
      ensures token.Some? <==> users[uid].approved
      ensures token.Some? ==> Active(tokens, token.value, now) && tokens[token.value].uid == uid
      ensures token.Some? && users[uid].role < ADMIN_ROLE ==>
                forall t | Active(tokens, t, now) && tokens[t].uid == uid :: t == token.value
      ensures token.None? ==> tokens == old(tokens)
      ensures token.Some? ==> SessionOpened(old(tokens), tokens, token.value, uid, now, users[uid].role < 3)
    {
      if !users[uid].approved {
        return None;
      }
      var t := Supersede(uid, false, false, random, now);
      token := Some(t);
    }

    /** The gateway goes on when the revocation fails; then, and only then, old sessions may survive. */
    method GatewayIssue(uid: int, revokeFails: bool, random: string, now: nat) returns (token: Option<string>)
      requires Valid() && clock <= now && random !in issued && WellFormed(random) && uid in users
      requires SingleSession(users, tokens, clock)
      modifies this`tokens, this`cache, this`issued, this`clock
      ensures Valid() && (!revokeFails ==> SingleSession(users, tokens, clock))
      ensures token.Some? <==> users[uid].approved
      ensures token.Some? ==> Active(tokens, token.value, now) && tokens[token.value].uid == uid
      ensures token.None? ==> tokens == old(tokens)
      ensures token.Some? ==>
                SessionOpened(old(tokens), tokens, token.value, uid, now, !revokeFails && users[uid].role < 3)
    {
      if !users[uid].approved {
        return None;
      }
      var t := Supersede(uid, false, revokeFails, random, now);
      token := Some(t);
    }

    /** A changed e-mail address signs every device out, administrators' too, and this one in again. */
    method UpdateEmail(uid: int, random: string, now: nat) returns (token: string)
      requires Valid() && clock <= now && random !in issued && WellFormed(random) && uid in users
      requires SingleSession(users, tokens, clock)
      modifies this`tokens, this`cache, this`issued, this`clock
      ensures Valid() && SingleSession(users, tokens, clock)
      ensures forall t :: Active(tokens, t, now) && tokens[t].uid == uid <==> t == token
      ensures SessionOpened(old(tokens), tokens, token, uid, now, true)
    {
      token := Supersede(uid, true, false, random, now);
    }

    /** Guests, a first administrator and new gateway users get their first token with their account. */
    method FirstSession(user: User, random: string, now: nat) returns (uid: int, token: string)
      requires Valid() && clock <= now && random !in issued && WellFormed(random)
      requires SingleSession(users, tokens, clock)
      modifies this
      ensures Valid() && SingleSession(users, tokens, clock)
      ensures uid !in old(users) && users == old(users)[uid := user]
      ensures forall t :: Active(tokens, t, now) && tokens[t].uid == uid <==> t == token
      ensures SessionOpened(old(tokens), tokens, token, uid, now, false)
    {
      SingleSessionLasts(users, tokens, clock, now);
      uid := NewUser(user);
      token := CreateToken(uid, random, now);
    }
  }
}
