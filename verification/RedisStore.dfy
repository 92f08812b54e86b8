/**
 The part of Redis the limiter uses: string keys holding integers, with a time to live.
 A key whose time has run out does not exist, whether or not the server has reclaimed it.
 */
module RedisStore {
  import opened Wrappers

  datatype Item = Item(value: int, expiry: Option<nat>)

  predicate Live(o: Option<Item>, now: nat) {
    o.Some? && (o.value.expiry.Some? ==> now < o.value.expiry.value)
  }

  class Redis {
    var data: map<string, Item>

    constructor ()
      ensures data == map[]
    {
      data := map[];
    }

    method Exists(key: string, now: nat) returns (n: int)
      ensures n == if Live(Lookup(data, key), now) then 1 else 0
    {
      n := if Live(Lookup(data, key), now) then 1 else 0;
    }

    method Incr(key: string, now: nat) returns (n: int)
      modifies this
      ensures key in data && forall k | k != key :: Lookup(data, k) == old(Lookup(data, k))
      ensures n == data[key].value
      ensures data[key] == if Live(old(Lookup(data, key)), now)
                           then Item(old(data)[key].value + 1, old(data)[key].expiry)
                           else Item(1, None)
    {
      var item := if Live(Lookup(data, key), now)
                  then Item(data[key].value + 1, data[key].expiry) else Item(1, None);
      data := data[key := item];
      n := item.value;
    }

    /** EXPIRE with a time that is already over deletes the key. */
    method Expire(key: string, secs: nat, now: nat)
      modifies this
      ensures forall k | k != key :: Lookup(data, k) == old(Lookup(data, k))
      ensures !Live(old(Lookup(data, key)), now) ==> data == old(data)
      ensures Live(old(Lookup(data, key)), now) ==>
                Lookup(data, key) == if secs == 0 then None
                                     else Some(Item(old(data)[key].value, Some(now + secs * SECOND)))
    {
      if Live(Lookup(data, key), now) {
        if secs == 0 {
          data := data - {key};
        } else {
          data := data[key := data[key].(expiry := Some(now + secs * SECOND))];
        }
      }
    }

    /** SETEX refuses a time to live of zero. */
    method SetEx(key: string, secs: nat, value: int, now: nat)
      requires secs > 0
      modifies this
      ensures forall k ::
                Lookup(data, k) == if k != key then old(Lookup(data, k))
                                   else Some(Item(value, Some(now + secs * SECOND)))
    {
      data := data[key := Item(value, Some(now + secs * SECOND))];
    }

    method Del(key: string)
      modifies this
      ensures forall k :: Lookup(data, k) == if k == key then None else old(Lookup(data, k))
    {
      data := data - {key};
    }
  }
}
