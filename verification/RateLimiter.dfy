/**
 The rate limiter: an in-memory map, a Lua script run by Redis, a choice between them on
 every call, and a sweeper.  Every method is proved to move the reference phases of its key
 the way `LimiterRuns.Do` says, and to leave every other key alone.
 */
module RateLimiter {
  import opened Wrappers
  import opened LimiterSpec
  import opened LimiterRuns
  import opened RedisStore
  import opened SharedRedis

  datatype Entry = Entry(expiresAt: nat, count: nat, blockedUntil: Option<nat>) {
    /** Counts are unsigned 32-bit, and only a blocked entry can have reached the top. */
    ghost predicate Valid() {
      count <= U32_MAX && (blockedUntil.None? ==> 1 <= count < U32_MAX)
    }

    /** Still inside its window or its block. */
    predicate Open(now: nat) {
      now < expiresAt || (blockedUntil.Some? && now < blockedUntil.value)
    }

    ghost function View(): Phase {
      if blockedUntil.Some? then Blocked(blockedUntil.value) else Counting(count, expiresAt)
    }
  }

  function SaturatingIncr(count: nat): nat {
    if count >= U32_MAX then U32_MAX else count + 1
  }

  ghost function MemoryPhase(e: Option<Entry>): Phase {
    if e.Some? then e.value.View() else Fresh
  }

  /** The phase two Redis keys stand for: the block key wins, the counter key counts. */
  ghost function RedisPhase(counter: Option<Item>, block: Option<Item>, now: nat): Phase {
    if Live(block, now) && block.value.expiry.Some? then Blocked(block.value.expiry.value)
    else if Live(counter, now) && counter.value.expiry.Some? && counter.value.value >= 0
    then Counting(counter.value.value, counter.value.expiry.value)
    else Fresh
  }

  /** What the script leaves behind: both keys expire, and a live block has no counter beside it. */
  ghost predicate RedisOk(counter: Option<Item>, block: Option<Item>, now: nat) {
    && (counter.Some? ==> counter.value.value >= 1 && counter.value.expiry.Some?)
    && (block.Some? ==> block.value.expiry.Some?)
    && (Live(block, now) ==> counter.None?)
  }

  lemma RedisPhaseAges(counter: Option<Item>, block: Option<Item>, now: nat, later: nat)
    requires RedisOk(counter, block, now) && now <= later
    ensures RedisOk(counter, block, later)
    ensures RedisPhase(counter, block, later) == At(RedisPhase(counter, block, now), later)
  {}

  function CounterKey(key: string): string { "rl:c:" + key }

  function BlockKey(key: string): string { "rl:b:" + key }

  lemma KeysApart(a: string, b: string)
    ensures CounterKey(a) != BlockKey(b)
    ensures a != b ==> CounterKey(a) != CounterKey(b) && BlockKey(a) != BlockKey(b)
  {
    assert CounterKey(a)[3] == 'c' && BlockKey(b)[3] == 'b';
    assert CounterKey(a)[5..] == a && CounterKey(b)[5..] == b;
    assert BlockKey(a)[5..] == a && BlockKey(b)[5..] == b;
  }

  ghost predicate ServerOk(data: map<string, Item>, key: string, now: nat) {
    RedisOk(Lookup(data, CounterKey(key)), Lookup(data, BlockKey(key)), now)
  }

  ghost function ServerPhase(data: map<string, Item>, key: string, now: nat): Phase {
    RedisPhase(Lookup(data, CounterKey(key)), Lookup(data, BlockKey(key)), now)
  }

  ghost predicate SameOffKey(before: map<string, Item>, after: map<string, Item>, key: string) {
    forall k | k != CounterKey(key) && k != BlockKey(key) :: Lookup(before, k) == Lookup(after, k)
  }

  lemma OtherKeysUntouched(before: map<string, Item>, after: map<string, Item>, key: string, now: nat)
    requires SameOffKey(before, after, key)
    requires ServerOk(after, key, now) && forall k :: ServerOk(before, k, now)
    ensures forall k :: ServerOk(after, k, now)
    ensures forall k | k != key ::
              && Lookup(before, CounterKey(k)) == Lookup(after, CounterKey(k))
              && Lookup(before, BlockKey(k)) == Lookup(after, BlockKey(k))
  {
    forall k | k != key
      ensures Lookup(before, CounterKey(k)) == Lookup(after, CounterKey(k))
      ensures Lookup(before, BlockKey(k)) == Lookup(after, BlockKey(k))
    {
      KeysApart(k, key);
      KeysApart(key, k);
    }
    forall k ensures ServerOk(after, k, now) {
      assert ServerOk(before, k, now);
    }
  }

  /** RATE_LIMIT_SCRIPT, run atomically by the server: the count, -1 while blocked, -2 on reaching the limit. */
  method EvalScript(server: Redis, key: string, p: Params, now: nat) returns (reply: int)
    requires ServerOk(server.data, key, now)
    modifies server
    ensures ServerOk(server.data, key, now) && SameOffKey(old(server.data), server.data, key)
    ensures SameFrom(ServerPhase(server.data, key, now), Step(old(ServerPhase(server.data, key, now)), now, p).0, now)
    ensures Step(old(ServerPhase(server.data, key, now)), now, p).1 <==> reply >= 1
    ensures reply >= 1 || reply == (if old(ServerPhase(server.data, key, now)).Blocked? then -1 else -2)
  {
    KeysApart(key, key);
    var blocked := server.Exists(BlockKey(key), now);
    if blocked == 1 {
      return -1;
    }
    var count := server.Incr(CounterKey(key), now);
    if count == 1 {
      server.Expire(CounterKey(key), p.window, now);
    }
    if count >= p.max {
      if p.block > 0 {
        server.SetEx(BlockKey(key), p.block, 1, now);
      }
      server.Del(CounterKey(key));
      return -2;
    }
    return count;
  }

  /** What became of a request sent to Redis. */
  datatype Wire = Answered | RequestLost | ReplyLost

  class RateLimiter {
    var cache: map<string, Entry>
    const redis: Slot
    /** The one server a connection in the slot can reach. */
    ghost const server: Redis

    ghost predicate Valid(now: nat)
      reads this, redis.cell, server
    {
      && (redis.Resolve().Some? ==> redis.Resolve().value == server)
      && (forall k | k in cache :: cache[k].Valid())
      && (forall k :: ServerOk(server.data, k, now))
    }

    ghost function View(key: string, now: nat): Backends
      reads this, server
    {
      Backends(MemoryPhase(Lookup(cache, key)), ServerPhase(server.data, key, now))
    }

    /** Between calls only the clock moves: the object stays valid and its phases only run out. */
    lemma Ages(key: string, now: nat, later: nat)
      requires Valid(now) && now <= later
      ensures Valid(later)
      ensures View(key, later).memory == View(key, now).memory
      ensures SameFrom(View(key, later).redis, View(key, now).redis, later)
    {
      forall k ensures ServerOk(server.data, k, later) {
        assert ServerOk(server.data, k, now);
        RedisPhaseAges(Lookup(server.data, CounterKey(k)), Lookup(server.data, BlockKey(k)), now, later);
      }
      assert ServerOk(server.data, key, now);
      RedisPhaseAges(Lookup(server.data, CounterKey(key)), Lookup(server.data, BlockKey(key)), now, later);
    }

    constructor (slot: Slot, ghost store: Redis)
      requires slot.Resolve().Some? ==> slot.Resolve().value == store
      requires forall k :: ServerOk(store.data, k, 0)
      ensures redis == slot && server == store && cache == map[]
      ensures Valid(0)
    {
      cache := map[];
      redis := slot;
      server := store;
    }

    method CheckMemory(key: string, p: Params, now: nat) returns (ok: bool)
      requires p.Valid() && forall k | k in cache :: cache[k].Valid()
      modifies this`cache
      ensures forall k | k in cache :: cache[k].Valid()
      ensures forall k | k != key :: Lookup(cache, k) == old(Lookup(cache, k))
      ensures (MemoryPhase(Lookup(cache, key)), ok) == Step(old(MemoryPhase(Lookup(cache, key))), now, p)
    {
      var entry := if key in cache then cache[key] else Entry(now + p.Window(), 0, None);
      if entry.blockedUntil.Some? {
        if now < entry.blockedUntil.value {
          return false;
        }
        entry := Entry(now + p.Window(), 0, None);
      }
      if now >= entry.expiresAt {
        entry := entry.(count := 0, expiresAt := now + p.Window());
      }
      entry := entry.(count := SaturatingIncr(entry.count));
      ok := entry.count < p.max;
      if !ok {
        entry := entry.(blockedUntil := Some(now + p.Block()));
      }
      cache := cache[key := entry];
    }

    /** None when the network failed; otherwise whether the server allowed the call. */
    method CheckRedis(conn: Redis, key: string, p: Params, now: nat, wire: Wire) returns (answer: Option<bool>)
      requires forall k :: ServerOk(conn.data, k, now)
      modifies conn
      ensures forall k :: ServerOk(conn.data, k, now)
      ensures forall k | k != key :: ServerPhase(conn.data, k, now) == old(ServerPhase(conn.data, k, now))
      ensures wire.RequestLost? ==> conn.data == old(conn.data)
      ensures !wire.RequestLost? ==>
                SameFrom(ServerPhase(conn.data, key, now), Step(old(ServerPhase(conn.data, key, now)), now, p).0, now)
      ensures answer == if wire.Answered? then Some(Step(old(ServerPhase(conn.data, key, now)), now, p).1) else None
    {
      if wire.RequestLost? {
        return None;
      }
      var reply := EvalScript(conn, key, p, now);
      OtherKeysUntouched(old(conn.data), conn.data, key, now);
      return if wire.Answered? then Some(reply != -1 && reply != -2) else None;
    }

    /** Which route a call takes: the slot is read again on every call. */
    ghost function RouteNow(wire: Wire): Route
      reads redis.cell
    {
      if redis.Resolve().None? then Memory
      else if wire.Answered? then Route.Redis
      else MemoryAfterError(wire.ReplyLost?)
    }

    method CheckWith(key: string, p: Params, now: nat, wire: Wire) returns (ok: bool)
      requires Valid(now) && p.Valid()
      modifies this, server
      ensures Valid(now)
      ensures Follows(old(View(key, now)), Check(now, p, RouteNow(wire)), View(key, now), ok)
      ensures forall k | k != key :: View(k, now) == old(View(k, now))
    {
      var conn := redis.Resolve();
      if conn.Some? {
        var answer := CheckRedis(conn.value, key, p, now, wire);
        if answer.Some? {
          return answer.value;
        }
      }
      ok := CheckMemory(key, p, now);
    }

    method Reset(key: string, now: nat, wire: Wire)
      requires Valid(now)
      modifies this, server
      ensures Valid(now)
      ensures var reached := redis.Resolve().Some? && !wire.RequestLost?;
              Follows(old(View(key, now)), Event.Reset(now, reached), View(key, now), true)
      ensures cache == old(cache) - {key}
      ensures redis.Resolve().Some? && !wire.RequestLost? ==>
                CounterKey(key) !in server.data && BlockKey(key) !in server.data
      ensures forall k | k != key :: View(k, now) == old(View(k, now))
    {
      var conn := redis.Resolve();
      if conn.Some? && !wire.RequestLost? {
        conn.value.Del(CounterKey(key));
        conn.value.Del(BlockKey(key));
        OtherKeysUntouched(old(server.data), server.data, key, now);
      }
      cache := cache - {key};
    }

    /** Drops entries whose window and block are both over; no key can tell. */
    method CleanupExpired(now: nat)
      requires Valid(now)
      modifies this`cache
      ensures Valid(now)
      ensures forall k :: k in cache <==> k in old(cache) && old(cache)[k].Open(now)
      ensures forall k | k in cache :: cache[k] == old(cache)[k]
      ensures forall k :: Follows(old(View(k, now)), Sweep(now), View(k, now), true)
    {
      cache := map k | k in cache && cache[k].Open(now) :: cache[k];
    }
  }
}
