/**
 Storage accounting: what a user is billed against the sizes of the videos they own.

 Each repository call is one transaction.  The arithmetic of the bill is stated on the two
 tables as values; `VideoStore` updates the tables in place.
 */
module Ledger {
  import opened Wrappers

  /** A file's size is unknown for some rows; a known one is a length. */
  datatype Video = Video(uploader: Option<int>, size: Option<nat>, hash: Option<string>)

  datatype User = User(used: int, isGuest: bool)

  type Users = map<int, User>
  type Videos = map<int, Video>

  const I64_MAX: int := 0x7FFF_FFFF_FFFF_FFFF

  /** Known bytes one row contributes to one user. */
  function Weight(videos: Videos, id: int, uid: int): nat {
    if id in videos && videos[id].uploader == Some(uid) && videos[id].size.Some? then videos[id].size.value else 0
  }

  /** Sum of the known sizes, over the rows in `ids`, of one user's videos. */
  ghost function Bytes(videos: Videos, ids: set<int>, uid: int): nat {
    if ids == {} then 0 else
      var id := Pick(ids);
      Weight(videos, id, uid) + Bytes(videos, ids - {id}, uid)
  }

  ghost function Stored(videos: Videos, uid: int): nat { Bytes(videos, videos.Keys, uid) }

  lemma {:induction false} BytesPick(videos: Videos, ids: set<int>, uid: int, id: int)
    requires id in ids
    ensures Bytes(videos, ids, uid) == Weight(videos, id, uid) + Bytes(videos, ids - {id}, uid)
    decreases ids
  {
    var first := Pick(ids);
    if first != id {
      BytesPick(videos, ids - {first}, uid, id);
      BytesPick(videos, ids - {id}, uid, first);
      assert ids - {first} - {id} == ids - {id} - {first};
    }
  }

  lemma {:induction false} BytesSplit(videos: Videos, a: set<int>, b: set<int>, uid: int)
    requires a !! b
    ensures Bytes(videos, a + b, uid) == Bytes(videos, a, uid) + Bytes(videos, b, uid)
    decreases a
  {
    if a == {} {
      assert a + b == b;
    } else {
      var id := Pick(a);
      BytesPick(videos, a, uid, id);
      BytesPick(videos, a + b, uid, id);
      assert a + b - {id} == (a - {id}) + b;
      BytesSplit(videos, a - {id}, b, uid);
    }
  }

  /** Rows that weigh no less make no smaller sum. */
  lemma {:induction false} BytesMonotone(a: Videos, b: Videos, ids: set<int>, uid: int, wid: int)
    requires forall id | id in ids :: Weight(a, id, uid) <= Weight(b, id, wid)
    ensures Bytes(a, ids, uid) <= Bytes(b, ids, wid)
    decreases ids
  {
    if ids != {} {
      var id := Pick(ids);
      BytesPick(a, ids, uid, id);
      BytesPick(b, ids, wid, id);
      BytesMonotone(a, b, ids - {id}, uid, wid);
    }
  }

  /***** The invariants *****/

  /** Nobody is billed for more than they store. */
  ghost predicate NeverOverbilled(users: Users, videos: Videos) {
    forall uid | uid in users :: 0 <= users[uid].used <= Stored(videos, uid)
  }

  /** Everybody is billed for exactly what they store. */
  ghost predicate Exact(users: Users, videos: Videos) {
    forall uid | uid in users :: users[uid].used == Stored(videos, uid)
  }

  ghost predicate WithinQuota(users: Users, quota: int) {
    forall uid | uid in users :: users[uid].used <= quota
  }

  ghost predicate SizesKnown(videos: Videos) {
    forall id | id in videos :: videos[id].size.Some?
  }

  /***** Saving *****/

  function WithVideo(videos: Videos, id: int, v: Video): Videos { videos[id := v] }

  lemma SavedBytes(videos: Videos, id: int, v: Video, uid: int)
    requires id !in videos
    ensures Stored(WithVideo(videos, id, v), uid)
         == Stored(videos, uid) + (if v.uploader == Some(uid) && v.size.Some? then v.size.value else 0)
  {
    var after := WithVideo(videos, id, v);
    assert after.Keys - {id} == videos.Keys;
    BytesPick(after, after.Keys, uid, id);
    BytesMonotone(after, videos, videos.Keys, uid, uid);
    BytesMonotone(videos, after, videos.Keys, uid, uid);
  }

  /** The uploader is billed for a known size. */
  function UsersAfterSave(users: Users, v: Video): Users
    requires v.uploader.Some? ==> v.uploader.value in users
  {
    if v.uploader.Some? && v.size.Some?
    then users[v.uploader.value := users[v.uploader.value].(used := users[v.uploader.value].used + v.size.value)]
    else users
  }

  /** MAIN: a billed save keeps bills within what is stored; it keeps exact bills exact. */
  lemma SaveKeepsBills(users: Users, videos: Videos, id: int, v: Video)
    requires id !in videos && (v.uploader.Some? ==> v.uploader.value in users)
    ensures NeverOverbilled(users, videos) ==> NeverOverbilled(UsersAfterSave(users, v), WithVideo(videos, id, v))
    ensures Exact(users, videos) <==> Exact(UsersAfterSave(users, v), WithVideo(videos, id, v))
  {
    var after := UsersAfterSave(users, v);
    forall uid | uid in users
      ensures Stored(WithVideo(videos, id, v), uid) - Stored(videos, uid) == after[uid].used - users[uid].used >= 0
    {
      SavedBytes(videos, id, v, uid);
    }
  }

  lemma SaveWithinQuota(users: Users, v: Video, quota: int)
    requires v.uploader.Some? ==> v.uploader.value in users
    requires v.uploader.Some? && v.size.Some? ==> users[v.uploader.value].used + v.size.value <= quota
    ensures WithinQuota(users, quota) ==> WithinQuota(UsersAfterSave(users, v), quota)
  {}

  /** An unbilled save can only widen the gap. */
  lemma UnbilledSaveKeepsBills(users: Users, videos: Videos, id: int, v: Video)
    requires id !in videos && NeverOverbilled(users, videos)
    ensures NeverOverbilled(users, WithVideo(videos, id, v))
  {
    forall uid | uid in users ensures Stored(videos, uid) <= Stored(WithVideo(videos, id, v), uid) {
      SavedBytes(videos, id, v, uid);
    }
  }

  /***** Deleting a batch *****/

  ghost predicate Touched(videos: Videos, ids: set<int>, uid: int) {
    exists id | id in ids :: id in videos && videos[id].uploader == Some(uid)
  }

  ghost predicate TouchedKnown(videos: Videos, ids: set<int>, uid: int) {
    exists id | id in ids :: id in videos && videos[id].uploader == Some(uid) && videos[id].size.Some?
  }

  /**
   The bill after GREATEST(0, used - SUM(file_size)) per uploader.  SUM over sizes that are all
   unknown is null, and GREATEST ignores a null, so such a batch sets the bill to zero.
   */
  ghost function UsedAfterDelete(users: Users, videos: Videos, ids: set<int>, uid: int): int
    requires uid in users
  {
    var used := users[uid].used;
    if !Touched(videos, ids, uid) then used
    else if !TouchedKnown(videos, ids, uid) then 0
    else if used > Bytes(videos, ids, uid) then used - Bytes(videos, ids, uid) else 0
  }

  ghost function UsersAfterDelete(users: Users, videos: Videos, ids: set<int>): Users {
    map uid | uid in users :: users[uid].(used := UsedAfterDelete(users, videos, ids, uid))
  }

  lemma DeletedBytes(videos: Videos, ids: set<int>, uid: int)
    ensures Stored(videos, uid) == Stored(videos - ids, uid) + Bytes(videos, ids, uid)
    ensures !TouchedKnown(videos, ids, uid) ==> Bytes(videos, ids, uid) == 0
  {
    var gone, kept := videos.Keys * ids, videos.Keys - ids;
    assert gone + kept == videos.Keys;
    BytesSplit(videos, gone, kept, uid);
    assert gone + (ids - videos.Keys) == ids;
    BytesSplit(videos, gone, ids - videos.Keys, uid);
    BytesMonotone(videos, map[], ids - videos.Keys, uid, uid);
    EmptyTableWeighsNothing(ids - videos.Keys, uid);
    assert (videos - ids).Keys == kept;
    BytesMonotone(videos, videos - ids, kept, uid, uid);
    BytesMonotone(videos - ids, videos, kept, uid, uid);
    if !TouchedKnown(videos, ids, uid) {
      BytesMonotone(videos, map[], ids, uid, uid);
      EmptyTableWeighsNothing(ids, uid);
    }
  }

  lemma {:induction false} EmptyTableWeighsNothing(ids: set<int>, uid: int)
    ensures Bytes(map[], ids, uid) == 0
  {
    if ids != {} {
      var id := Pick(ids);
      BytesPick(map[], ids, uid, id);
      EmptyTableWeighsNothing(ids - {id}, uid);
    }
  }

  /** MAIN: deleting a batch never leaves anyone billed for more than they store, and never raises a bill. */
  lemma DeleteNeverOverbills(users: Users, videos: Videos, ids: set<int>)
    requires NeverOverbilled(users, videos)
    ensures NeverOverbilled(UsersAfterDelete(users, videos, ids), videos - ids)
    ensures forall uid | uid in users :: UsersAfterDelete(users, videos, ids)[uid].used <= users[uid].used
  {
    forall uid | uid in users
      ensures 0 <= UsedAfterDelete(users, videos, ids, uid) <= Stored(videos - ids, uid)
    {
      DeletedBytes(videos, ids, uid);
    }
  }

  /**
   MAIN: from exact bills, a batch delete keeps them exact if and only if every uploader it touches had
   a known size in the batch or owed nothing.
   */
  lemma DeleteKeepsExactly(users: Users, videos: Videos, ids: set<int>)
    requires Exact(users, videos)
    ensures Exact(UsersAfterDelete(users, videos, ids), videos - ids)
       <==> forall uid | uid in users && Touched(videos, ids, uid) ::
              TouchedKnown(videos, ids, uid) || users[uid].used == 0
  {
    forall uid | uid in users
      ensures UsedAfterDelete(users, videos, ids, uid) == Stored(videos - ids, uid)
         <==> (Touched(videos, ids, uid) ==> TouchedKnown(videos, ids, uid) || users[uid].used == 0)
    {
      DeletedBytes(videos, ids, uid);
    }
    var after := UsersAfterDelete(users, videos, ids);
    assert forall uid | uid in users :: after[uid].used == UsedAfterDelete(users, videos, ids, uid);
  }

  lemma KnownSizesTouchKnown(videos: Videos, ids: set<int>)
    requires SizesKnown(videos)
    ensures forall uid | Touched(videos, ids, uid) :: TouchedKnown(videos, ids, uid)
  {
    forall uid | Touched(videos, ids, uid) ensures TouchedKnown(videos, ids, uid) {
      var id :| id in ids && id in videos && videos[id].uploader == Some(uid);
      assert videos[id].size.Some?;
    }
  }

  /** With known sizes the clamp at zero never acts: the bill drops by what was deleted. */
  lemma ClampNeverActs(users: Users, videos: Videos, ids: set<int>, uid: int)
    requires Exact(users, videos) && SizesKnown(videos) && uid in users
    ensures UsedAfterDelete(users, videos, ids, uid) == users[uid].used - Bytes(videos, ids, uid)
  {
    DeletedBytes(videos, ids, uid);
  }

  /** One user, one measured video and one of unknown size: deleting the latter erases the bill. */
  lemma UnknownSizeErasesBill()
    ensures var videos := map[1 := Video(Some(7), Some(100), None), 2 := Video(Some(7), None, None)];
            UsersAfterDelete(map[7 := User(100, false)], videos, {2})[7].used == 0 && Stored(videos - {2}, 7) == 100
  {
    var videos := map[1 := Video(Some(7), Some(100), None), 2 := Video(Some(7), None, None)];
    var ids := {2};
    assert Touched(videos, ids, 7) by { assert 2 in ids; }
    assert (videos - ids).Keys == {1};
    BytesPick(videos - ids, {1}, 7, 1);
  }

  /***** A delete whose sums were read too early *****/

  /**
   `seen` is the video table as the bill's subquery read it; since then rows were only deleted, and
   the batch gained none.  A bill waits for other transactions' row locks, its subquery does not.
   */
  ghost predicate OnlyDeletedSince(seen: Videos, videos: Videos, ids: set<int>) {
    && (forall id | id in videos && id in seen :: videos[id] == seen[id])
    && (forall id | id in ids && id in videos :: id in seen)
  }

  lemma SeenWeighsMore(seen: Videos, videos: Videos, ids: set<int>, uid: int)
    requires OnlyDeletedSince(seen, videos, ids)
    ensures Bytes(videos, ids, uid) <= Bytes(seen, ids, uid)
  {
    BytesMonotone(videos, seen, ids, uid, uid);
  }

  /** Sums read early never overbill anyone: they only give back too much. */
  lemma LateDeleteNeverOverbills(users: Users, videos: Videos, seen: Videos, ids: set<int>)
    requires NeverOverbilled(users, videos) && OnlyDeletedSince(seen, videos, ids)
    ensures NeverOverbilled(UsersAfterDelete(users, seen, ids), videos - ids)
    ensures forall uid | uid in users :: UsersAfterDelete(users, seen, ids)[uid].used <= users[uid].used
  {
    forall uid | uid in users
      ensures 0 <= UsedAfterDelete(users, seen, ids, uid) <= Stored(videos - ids, uid)
    {
      DeletedBytes(videos, ids, uid);
      DeletedBytes(seen, ids, uid);
      SeenWeighsMore(seen, videos, ids, uid);
    }
  }

  /** What the early sums take off the bill is what the delete takes out of the table. */
  ghost predicate SumsStillRight(videos: Videos, seen: Videos, ids: set<int>, uid: int) {
    TouchedKnown(seen, ids, uid) && Bytes(seen, ids, uid) == Bytes(videos, ids, uid)
  }

  /**
   MAIN: from exact bills, a delete whose sums were read early keeps them exact if and only if, for every
   uploader it bills, nothing of the batch was deleted in between, or nothing is left.
   */
  lemma LateDeleteKeepsExactly(users: Users, videos: Videos, seen: Videos, ids: set<int>)
    requires Exact(users, videos) && OnlyDeletedSince(seen, videos, ids)
    ensures Exact(UsersAfterDelete(users, seen, ids), videos - ids)
       <==> forall uid | uid in users && Touched(seen, ids, uid) ::
              SumsStillRight(videos, seen, ids, uid) || Stored(videos - ids, uid) == 0
  {
    forall uid | uid in users
      ensures UsedAfterDelete(users, seen, ids, uid) == Stored(videos - ids, uid)
         <==> (Touched(seen, ids, uid) ==> SumsStillRight(videos, seen, ids, uid) || Stored(videos - ids, uid) == 0)
    {
      LateBill(users, videos, seen, ids, uid);
    }
    var after := UsersAfterDelete(users, seen, ids);
    assert forall uid | uid in users :: after[uid].used == UsedAfterDelete(users, seen, ids, uid);
  }

  lemma LateBill(users: Users, videos: Videos, seen: Videos, ids: set<int>, uid: int)
    requires Exact(users, videos) && OnlyDeletedSince(seen, videos, ids) && uid in users
    ensures UsedAfterDelete(users, seen, ids, uid) == Stored(videos - ids, uid)
       <==> (Touched(seen, ids, uid) ==> SumsStillRight(videos, seen, ids, uid) || Stored(videos - ids, uid) == 0)
  {
    DeletedBytes(videos, ids, uid);
    DeletedBytes(seen, ids, uid);
    SeenWeighsMore(seen, videos, ids, uid);
  }

  /** Two overlapping deletes of one 5-byte video: both give its bytes back, and 10 stored bytes are billed as 5. */
  lemma DeletedTwice()
    ensures var seen := map[1 := Video(Some(7), Some(5), None), 2 := Video(Some(7), Some(10), None)];
            var first := UsersAfterDelete(map[7 := User(15, false)], seen, {1});
            && Exact(map[7 := User(15, false)], seen) && Exact(first, seen - {1})
            && UsersAfterDelete(first, seen, {1})[7].used == 5 && Stored(seen - {1}, 7) == 10
  {
    var seen := map[1 := Video(Some(7), Some(5), None), 2 := Video(Some(7), Some(10), None)];
    var ids := {1};
    assert TouchedKnown(seen, ids, 7) && Touched(seen, ids, 7) by { assert 1 in ids; }
    assert seen.Keys == {1, 2} && (seen - ids).Keys == {2} && {1, 2} - {1} == {2};
    BytesPick(seen, {1, 2}, 7, 1);
    BytesPick(seen, {2}, 7, 2);
    BytesPick(seen - ids, {2}, 7, 2);
    BytesPick(seen, ids, 7, 1);
  }

  /***** Merging a guest *****/

  function Reowned(videos: Videos, from: int, to: int): Videos {
    map id | id in videos ::
      if videos[id].uploader == Some(from) then videos[id].(uploader := Some(to)) else videos[id]
  }

  /** The source row is only dropped when it is a guest's. */
  function UsersAfterMerge(users: Users, from: int): Users
    requires from in users
  {
    if users[from].isGuest then users - {from} else users
  }

  /** The target's bytes are what both accounts had. */
  lemma {:induction false} ReownedSum(videos: Videos, ids: set<int>, from: int, to: int)
    requires from != to && ids <= videos.Keys
    ensures Bytes(Reowned(videos, from, to), ids, to) == Bytes(videos, ids, to) + Bytes(videos, ids, from)
    decreases ids
  {
    if ids != {} {
      var id := Pick(ids);
      ReownedSum(videos, ids - {id}, from, to);
    }
  }

  /** MAIN: everything the source stored is the target's afterwards, and nobody else stores more or less. */
  lemma ReownedBytes(videos: Videos, from: int, to: int, uid: int)
    requires from != to
    ensures Stored(Reowned(videos, from, to), uid)
         == if uid == from then 0
            else if uid == to then Stored(videos, to) + Stored(videos, from)
            else Stored(videos, uid)
  {
    var after := Reowned(videos, from, to);
    assert after.Keys == videos.Keys;
    if uid == from {
      BytesMonotone(after, map[], after.Keys, uid, uid);
      EmptyTableWeighsNothing(after.Keys, uid);
    } else if uid == to {
      ReownedSum(videos, videos.Keys, from, to);
    } else {
      BytesMonotone(videos, after, videos.Keys, uid, uid);
      BytesMonotone(after, videos, videos.Keys, uid, uid);
    }
  }

  /** MAIN: moving one account's videos to another keeps bills safe exactly if the source is a guest or owes nothing. */
  lemma MergeNeverOverbillsExactly(users: Users, videos: Videos, from: int, to: int)
    requires NeverOverbilled(users, videos) && from in users && to in users && from != to
    ensures NeverOverbilled(UsersAfterMerge(users, from), Reowned(videos, from, to))
       <==> users[from].isGuest || users[from].used == 0
  {
    forall uid | uid in users
      ensures uid == from ==> Stored(Reowned(videos, from, to), uid) == 0
      ensures uid != from ==> Stored(videos, uid) <= Stored(Reowned(videos, from, to), uid)
    {
      ReownedBytes(videos, from, to, uid);
    }
  }
}
