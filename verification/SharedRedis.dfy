/** The process-wide slot for the Redis connection, which may be filled after it was handed out. */
module SharedRedis {
  import opened Wrappers
  import opened RedisStore

  /** A cell written at most once; every holder sees the first value published. */
  class LateCell<T> {
    var inner: Option<T>

    constructor ()
      ensures inner == None
    {
      inner := None;
    }

    method Publish(value: T) returns (won: bool)
      modifies this
      ensures won <==> old(inner).None?
      ensures inner == if won then Some(value) else old(inner)
    {
      won := inner.None?;
      if won {
        inner := Some(value);
      }
    }
  }

  class Slot {
    const cell: LateCell<Option<Redis>>
    const configured: bool

    /** No or malformed URL: the cell is seeded, so no connection can ever land in it. */
    constructor Disabled()
      ensures !configured && fresh(cell) && cell.inner == Some(None)
    {
      configured := false;
      var c := new LateCell<Option<Redis>>();
      cell := c;
      new;
      var _ := cell.Publish(None);
    }

    constructor Pending()
      ensures configured && fresh(cell) && cell.inner == None
    {
      configured := true;
      var c := new LateCell<Option<Redis>>();
      cell := c;
    }

    function Resolve(): Option<Redis>
      reads cell
    {
      match cell.inner
      case None => None
      case Some(conn) => conn
    }

    method Install(conn: Redis) returns (won: bool)
      modifies cell
      ensures won <==> old(cell.inner).None?
      ensures old(Resolve()).Some? ==> Resolve() == old(Resolve()) && !won
      ensures won ==> Resolve() == Some(conn)
      ensures !won ==> cell.inner == old(cell.inner)
    {
      won := cell.Publish(Some(conn));
    }
  }

  /** The cell after a whole history of attempts to publish. */
  function AfterPublishing<T>(inner: Option<T>, values: seq<T>): Option<T>
    decreases |values|
  {
    if values == [] then inner
    else AfterPublishing(if inner.None? then Some(values[0]) else inner, values[1..])
  }

  /** Whatever racing reconnects do, the first published value is the one every holder reads for ever. */
  lemma {:induction false} FirstPublishedWins<T>(inner: Option<T>, values: seq<T>)
    ensures AfterPublishing(inner, values)
         == if inner.Some? then inner else if values == [] then None else Some(values[0])
    decreases |values|
  {
    if values != [] {
      FirstPublishedWins(if inner.None? then Some(values[0]) else inner, values[1..]);
    }
  }
}
