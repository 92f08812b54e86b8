/**
 One playlist's rows, changed under its advisory lock, and the list of videos they stand for.
 */
module Playlist {
  import opened Wrappers

  /** `(playlist_id, video_id)` is unique, so rows are keyed by video. */
  datatype Row = Row(position: int, addedAt: nat)

  type Rows = map<int, Row>

  /** ORDER BY position, added_at */
  predicate Precedes(a: Row, b: Row) {
    a.position < b.position || (a.position == b.position && a.addedAt < b.addedAt)
  }

  /** `list` is the playlist as it is shown. */
  ghost predicate Lists(rows: Rows, list: seq<int>) {
    InOrder(rows, list) && forall v | v in rows :: v in list
  }

  ghost predicate InOrder(rows: Rows, list: seq<int>) {
    && (forall i :: 0 <= i < |list| ==> list[i] in rows)
    && (forall i, j :: 0 <= i < j < |list| ==> Precedes(rows[list[i]], rows[list[j]]))
  }

  function Members(list: seq<int>): set<int> { set v | v in list }

  /** Positions are exactly 0, 1, 2, ... in list order. */
  ghost predicate Dense(rows: Rows, list: seq<int>) {
    && Lists(rows, list)
    && forall i :: 0 <= i < |list| ==> rows[list[i]].position == i
  }

  /** No two rows share a position. */
  ghost predicate PositionsDistinct(rows: Rows) {
    forall a, b | a in rows && b in rows && a != b :: rows[a].position != rows[b].position
  }

  /** ROW_NUMBER() - 1: how many rows come before this one. */
  ghost function Rank(rows: Rows, v: int): nat
    requires v in rows
  {
    |set u | u in rows && Precedes(rows[u], rows[v])|
  }

  ghost function Renumbered(rows: Rows): Rows {
    map v | v in rows :: rows[v].(position := Rank(rows, v))
  }

  /***** Listings *****/

  lemma NoRepeats(rows: Rows, list: seq<int>)
    requires Lists(rows, list)
    ensures forall i, j :: 0 <= i < j < |list| ==> list[i] != list[j]
  {}

  lemma {:induction false} PrefixSize(list: seq<int>, n: nat)
    requires n <= |list| && forall i, j :: 0 <= i < j < |list| ==> list[i] != list[j]
    ensures |Members(list[..n])| == n
  {
    if n > 0 {
      PrefixSize(list, n - 1);
      assert list[..n] == list[..n - 1] + [list[n - 1]];
      assert Members(list[..n]) == Members(list[..n - 1]) + {list[n - 1]};
      assert list[n - 1] !in list[..n - 1];
    }
  }

  /** In a listing, the row number of a row is its index. */
  lemma RankIsIndex(rows: Rows, list: seq<int>, i: nat)
    requires Lists(rows, list) && i < |list|
    ensures list[i] in rows && Rank(rows, list[i]) == i
  {
    NoRepeats(rows, list);
    PrefixSize(list, i);
    assert list[i] in list;
    forall u
      ensures u in rows && Precedes(rows[u], rows[list[i]]) <==> u in list[..i]
    {
      if u in rows && Precedes(rows[u], rows[list[i]]) {
        var j :| 0 <= j < |list| && list[j] == u;
        assert j < i;
      }
      if u in list[..i] {
        assert u in list;
      }
    }
    assert (set u | u in rows && Precedes(rows[u], rows[list[i]])) == Members(list[..i]);
  }

  /** MAIN: renumbering closes every gap and keeps the order. */
  lemma RenumberingDense(rows: Rows, list: seq<int>)
    requires Lists(rows, list)
    ensures Dense(Renumbered(rows), list)
  {
    forall i | 0 <= i < |list| ensures Renumbered(rows)[list[i]].position == i {
      RankIsIndex(rows, list, i);
    }
    assert forall i | 0 <= i < |list| :: list[i] in list;
  }

  function Without(list: seq<int>, v: int): seq<int> {
    if list == [] then [] else if list[0] == v then Without(list[1..], v) else [list[0]] + Without(list[1..], v)
  }

  lemma {:induction false} WithoutLists(rows: Rows, list: seq<int>, v: int)
    requires InOrder(rows, list)
    ensures forall u :: u in Without(list, v) <==> u in list && u != v
    ensures InOrder(rows, Without(list, v))
  {
    if list != [] {
      var rest := Without(list[1..], v);
      WithoutLists(rows, list[1..], v);
      forall j | 0 <= j < |rest| ensures Precedes(rows[list[0]], rows[rest[j]]) {
        assert rest[j] in rest;
        var k :| 0 <= k < |list[1..]| && list[1..][k] == rest[j];
        assert list[k + 1] == rest[j];
      }
    }
  }

  lemma RemovedLists(rows: Rows, list: seq<int>, gone: int)
    requires Lists(rows, list)
    ensures Lists(rows - {gone}, Without(list, gone))
  {
    WithoutLists(rows, list, gone);
    var left := Without(list, gone);
    forall i | 0 <= i < |left| ensures left[i] in rows - {gone} {
      assert left[i] in left;
    }
  }

  lemma DenseDistinct(rows: Rows, list: seq<int>)
    requires Dense(rows, list)
    ensures PositionsDistinct(rows)
  {
    forall a, b | a in rows && b in rows && a != b ensures rows[a].position != rows[b].position {
      var i :| 0 <= i < |list| && list[i] == a;
      var j :| 0 <= j < |list| && list[j] == b;
    }
  }

  /** In a dense playlist the largest position is one less than its length. */
  lemma DenseTop(rows: Rows, list: seq<int>, top: int)
    requires rows == map[] ==> top == -1
    requires rows != map[] ==> exists v | v in rows :: rows[v].position == top
    requires forall v | v in rows :: rows[v].position <= top
    ensures Dense(rows, list) ==> top == |list| - 1
  {
    if Dense(rows, list) {
      if rows != map[] {
        var v :| v in rows && rows[v].position == top;
        var i :| 0 <= i < |list| && list[i] == v;
        assert rows[list[i]].position == i;
        var last := list[|list| - 1];
        assert last in rows && rows[last].position == |list| - 1;
      }
    }
  }

  /***** The repository's transactions *****/

  class PlaylistItems {
    var rows: Rows
    /** The videos in order; positions may have gaps after videos are deleted elsewhere. */
    ghost var list: seq<int>

    ghost predicate Valid()
      reads this
    {
      Lists(rows, list) && PositionsDistinct(rows)
    }

    constructor ()
      ensures Valid() && rows == map[] && list == [] && Dense(rows, list)
    {
      rows, list := map[], [];
    }

    /** MAX(position), or -1 for an empty playlist. */
    method MaxPosition() returns (top: int)
      ensures rows == map[] ==> top == -1
      ensures rows != map[] ==> exists v | v in rows :: rows[v].position == top
      ensures forall v | v in rows :: rows[v].position <= top || rows == map[]
    {
      top := -1;
      var todo := rows.Keys;
      while todo != {}
        invariant todo <= rows.Keys
        invariant todo == rows.Keys ==> top == -1
        invariant todo != rows.Keys ==> exists v | v in rows :: rows[v].position == top
        invariant forall v | v in rows && v !in todo :: rows[v].position <= top
        decreases todo
      {
        ghost var some := Pick(todo);
        assert some in todo;
        var v :| v in todo;
        if todo == rows.Keys || rows[v].position > top {
          top := rows[v].position;
        }
        todo := todo - {v};
      }
      assert rows.Keys == {} ==> rows == map[];
    }

    /** Appends, or does nothing when the video is already in the playlist. */
    method AddVideo(video: int, now: nat) returns (added: Option<Row>)
      requires Valid()
      modifies this
      ensures Valid()
      ensures added.Some? <==> video !in old(rows)
      ensures added.None? ==> rows == old(rows) && list == old(list)
      ensures added.Some? ==> list == old(list) + [video] && rows == old(rows)[video := added.value]
      ensures added.Some? && old(rows) == map[] ==> added.value == Row(0, now)
      ensures added.Some? && old(rows) != map[] ==>
                && added.value.addedAt == now
                && (forall v | v in old(rows) :: old(rows)[v].position < added.value.position)
                && exists v | v in old(rows) :: old(rows)[v].position + 1 == added.value.position
      ensures old(Dense(rows, list)) ==> Dense(rows, list)
    {
      var top := MaxPosition();
      if video in rows {
        return None;
      }
      assert forall i | 0 <= i < |list| :: list[i] in list;
      assert forall v | v in rows :: rows[v].position < top + 1;
      added := Some(Row(top + 1, now));
      DenseTop(rows, list, top);
      ghost var before := list;
      rows := rows[video := added.value];
      list := list + [video];
      forall v ensures v in list <==> v in rows {
        assert v in list <==> v in before || v == video;
      }
    }

    /** Deletes, and renumbers the rest when something was deleted. */
    method RemoveVideo(video: int) returns (removed: bool)
      requires Valid()
      modifies this
      ensures Valid()
      ensures removed <==> video in old(rows)
      ensures !removed ==> rows == old(rows) && list == old(list)
      ensures removed ==> list == Without(old(list), video) && Dense(rows, list)
      ensures forall v | v in rows :: v in old(rows) && rows[v].addedAt == old(rows)[v].addedAt
      ensures old(Dense(rows, list)) ==> Dense(rows, list)
    {
      removed := video in rows;
      if removed {
        RemovedLists(rows, list, video);
        RenumberingDense(rows - {video}, Without(list, video));
        DenseDistinct(Renumbered(rows - {video}), Without(list, video));
        rows := rows - {video};
        list := Without(list, video);
        Renumber();
      }
    }

    /** The window-function UPDATE: every row gets its row number. */
    method Renumber()
      requires Lists(rows, list)
      modifies this`rows
      ensures rows == Renumbered(old(rows))
    {
      ghost var before := rows;
      var todo := rows.Keys;
      var numbered: Rows := map[];
      while todo != {}
        invariant todo <= rows.Keys && rows == before
        invariant numbered.Keys == rows.Keys - todo
        invariant forall v | v in numbered :: numbered[v] == Renumbered(before)[v]
        decreases todo
      {
        ghost var some := Pick(todo);
        assert some in todo;
        var v :| v in todo;
        var ahead := set u | u in rows && Precedes(rows[u], rows[v]);
        numbered := numbered[v := rows[v].(position := |ahead|)];
        todo := todo - {v};
      }
      rows := numbered;
    }

    /** A video deleted elsewhere takes its row with it and leaves a gap. */
    method CascadeDelete(video: int)
      requires Valid()
      modifies this
      ensures Valid()
      ensures rows == old(rows) - {video} && list == Without(old(list), video)
    {
      RemovedLists(rows, list, video);
      rows := rows - {video};
      list := Without(list, video);
    }
  }
}
