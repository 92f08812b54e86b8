/** The video repository's transactions over the user and video tables. */
module VideoStore {
  import opened Wrappers
  import opened Ledger

  datatype SaveOutcome = Saved(id: int) | Duplicate | UserNotFound | QuotaExceeded | DbError

  class VideoRepository {
    var users: Users
    var videos: Videos
    var nextId: int

    /** Sound tables, and nobody billed for more than they store. */
    ghost predicate Valid()
      reads this
    {
      TablesSound() && NeverOverbilled(users, videos)
    }

    /** Foreign key, fresh ids, 64-bit bills, one row per uploader and hash. */
    ghost predicate TablesSound()
      reads this
    {
      Sound(users, videos, nextId)
    }

    static ghost predicate Sound(users: Users, videos: Videos, nextId: int) {
      && (forall id | id in videos :: id < nextId)
      && (forall id | id in videos && videos[id].uploader.Some? :: videos[id].uploader.value in users)
      && (forall uid | uid in users :: users[uid].used <= I64_MAX)
      && HashesUnique(videos)
    }

    static ghost predicate HashesUnique(videos: Videos) {
      forall a, b | a in videos && b in videos && a != b :: !Clashes(videos[a], videos[b])
    }

    /** The partial unique index on (uploader, file hash). */
    static predicate Clashes(v: Video, w: Video) {
      v.hash.Some? && v.uploader.Some? && v.hash == w.hash && v.uploader == w.uploader
    }

    static predicate ClashesWithAny(videos: Videos, v: Video) {
      exists id | id in videos :: Clashes(videos[id], v)
    }

    constructor ()
      ensures Valid() && users == map[] && videos == map[]
    {
      users, videos, nextId := map[], map[], 0;
    }

    /** The bill the save would leave the uploader with; an upload without one is billed to nobody. */
    static function Billed(users: Users, uploader: Option<int>, size: Option<nat>): int {
      if uploader.Some? && uploader.value in users
      then users[uploader.value].used + (if size.Some? then size.value else 0) else 0
    }

    static lemma SaveKeepsSound(users: Users, videos: Videos, nextId: int, v: Video)
      requires Sound(users, videos, nextId) && !ClashesWithAny(videos, v)
      requires v.uploader.Some? ==> v.uploader.value in users && Billed(users, v.uploader, v.size) <= I64_MAX
      ensures Sound(UsersAfterSave(users, v), WithVideo(videos, nextId, v), nextId + 1)
    {
      var after := WithVideo(videos, nextId, v);
      forall a, b | a in after && b in after && a != b ensures !Clashes(after[a], after[b]) {
        if a != nextId && b != nextId {
          assert !Clashes(videos[a], videos[b]);
        }
      }
    }

    /** A quota of zero or less means no limit; an unknown size counts as zero. */
    method SaveLocalVideoWithQuota(uploader: Option<int>, size: Option<nat>, hash: Option<string>, quota: int)
      returns (outcome: SaveOutcome)
      requires Valid()
      modifies this
      ensures Valid()
      ensures !outcome.Saved? ==> users == old(users) && videos == old(videos)
      ensures outcome.UserNotFound? <==> uploader.Some? && uploader.value !in old(users)
      ensures outcome.QuotaExceeded? <==>
                !outcome.UserNotFound? && 0 < quota < I64_MAX && quota < Billed(old(users), uploader, size)
      ensures outcome.Duplicate? <==>
                && !outcome.UserNotFound? && !outcome.QuotaExceeded?
                && ClashesWithAny(old(videos), Video(uploader, size, hash))
      // The bill is a 64-bit integer; overflowing it fails the whole transaction.
      ensures outcome.DbError? <==>
                && !outcome.UserNotFound? && !outcome.QuotaExceeded? && !outcome.Duplicate?
                && I64_MAX < Billed(old(users), uploader, size)
      ensures outcome.Saved? ==>
                && outcome.id !in old(videos) && videos == old(videos)[outcome.id := Video(uploader, size, hash)]
                && users == UsersAfterSave(old(users), Video(uploader, size, hash))
      ensures outcome.Saved? ==>
                && users.Keys == old(users).Keys
                && forall uid | uid in users ::
                     && users[uid].isGuest == old(users)[uid].isGuest
                     && users[uid].used == old(users)[uid].used
                          + (if uploader == Some(uid) && size.Some? then size.value else 0)
      // A save is paid for in full, and no bill passes a fixed positive quota.
      ensures Exact(old(users), old(videos)) ==> Exact(users, videos)
      ensures 0 < quota && WithinQuota(old(users), quota) ==> WithinQuota(users, quota)
    {
      var video := Video(uploader, size, hash);
      var bytes := if size.Some? then size.value else 0;
      if uploader.Some? {
        if uploader.value !in users {
          return UserNotFound;
        }
        var wanted := users[uploader.value].used + bytes;
        var saturated := if wanted > I64_MAX then I64_MAX else wanted;
        if quota > 0 && saturated > quota {
          return QuotaExceeded;
        }
      }
      if ClashesWithAny(videos, video) {
        return Duplicate;
      }
      if uploader.Some? && users[uploader.value].used + bytes > I64_MAX {
        return DbError;
      }
      SaveKeepsBills(users, videos, nextId, video);
      SaveKeepsSound(users, videos, nextId, video);
      if 0 < quota { SaveWithinQuota(users, video, quota); }
      outcome := Saved(nextId);
      videos := videos[nextId := video];
      if uploader.Some? && bytes > 0 {
        users := users[uploader.value := users[uploader.value].(used := users[uploader.value].used + bytes)];
      }
      assert users == UsersAfterSave(old(users), video);
      nextId := nextId + 1;
    }

    /** A plain insert: the row is stored but nobody is billed. */
    method SaveLocalVideo(uploader: Option<int>, size: Option<nat>, hash: Option<string>) returns (outcome: SaveOutcome)
      requires Valid()
      modifies this
      ensures Valid() && users == old(users)
      ensures outcome.Saved? || outcome.DbError?
      ensures outcome.DbError? <==>
                || (uploader.Some? && uploader.value !in users)
                || ClashesWithAny(old(videos), Video(uploader, size, hash))
      ensures videos == if outcome.Saved? then old(videos)[outcome.id := Video(uploader, size, hash)] else old(videos)
      ensures outcome.Saved? ==> outcome.id !in old(videos)
    {
      var video := Video(uploader, size, hash);
      if (uploader.Some? && uploader.value !in users) || ClashesWithAny(videos, video) {
        return DbError;
      }
      UnbilledSaveKeepsBills(users, videos, nextId, video);
      outcome := Saved(nextId);
      videos := videos[nextId := video];
      nextId := nextId + 1;
    }

    /** SUM(file_size) over the doomed rows of one uploader: none when no row has a known size. */
    static method SumFileSizes(videos: Videos, doomed: set<int>, uid: int) returns (grouped: bool, total: Option<nat>)
      ensures grouped <==> Touched(videos, doomed, uid)
      ensures total == if TouchedKnown(videos, doomed, uid) then Some(Bytes(videos, doomed, uid)) else None
    {
      grouped, total := false, None;
      var todo := doomed;
      while todo != {}
        invariant todo <= doomed
        invariant grouped <==> Touched(videos, doomed - todo, uid)
        invariant total.Some? <==> TouchedKnown(videos, doomed - todo, uid)
        invariant Bytes(videos, doomed, uid) == (if total.Some? then total.value else 0) + Bytes(videos, todo, uid)
        decreases todo
      {
        ghost var some := Pick(todo);
        assert some in todo;
        var id :| id in todo;
        BytesPick(videos, todo, uid, id);
        assert doomed - (todo - {id}) == doomed - todo + {id};
        if id in videos && videos[id].uploader == Some(uid) {
          grouped := true;
          if videos[id].size.Some? {
            total := Some((if total.Some? then total.value else 0) + videos[id].size.value);
          }
        }
        todo := todo - {id};
      }
      assert doomed - todo == doomed;
    }

    /** The grouped UPDATE that gives back the doomed rows' bytes, run before they are deleted. */
    static method ReclaimQuota(users: Users, videos: Videos, doomed: set<int>) returns (after: Users)
      ensures after == UsersAfterDelete(users, videos, doomed)
    {
      after := map[];
      var todo := users.Keys;
      while todo != {}
        invariant todo <= users.Keys && after.Keys == users.Keys - todo
        invariant forall uid | uid in after :: after[uid] == UsersAfterDelete(users, videos, doomed)[uid]
        decreases todo
      {
        ghost var some := Pick(todo);
        assert some in todo && some in users;
        var uid :| uid in todo;
        var grouped, total := SumFileSizes(videos, doomed, uid);
        var used := users[uid].used;
        if grouped {
          used := if total.None? || used <= total.value then 0 else used - total.value;
        }
        after := after[uid := users[uid].(used := used)];
        todo := todo - {uid};
      }
    }

    /** Bills drop by the known bytes deleted, to zero at most; to zero if no deleted size of the user was known. */
    static ghost predicate Reclaimed(before: Users, after: Users, videos: Videos, doomed: set<int>)
      requires after.Keys == before.Keys
    {
      forall uid | uid in before ::
        var used, gone := before[uid].used, Bytes(videos, doomed, uid);
        && after[uid].isGuest == before[uid].isGuest
        && after[uid].used == if !Touched(videos, doomed, uid) then used
                              else if !TouchedKnown(videos, doomed, uid) then 0
                              else if used - gone < 0 then 0 else used - gone
    }

    static lemma DeleteReclaims(users: Users, videos: Videos, doomed: set<int>)
      ensures Reclaimed(users, UsersAfterDelete(users, videos, doomed), videos, doomed)
    {}

    static lemma DeleteKeepsSound(users: Users, videos: Videos, nextId: int, doomed: set<int>)
      requires Sound(users, videos, nextId) && NeverOverbilled(users, videos)
      ensures Sound(UsersAfterDelete(users, videos, doomed), videos - doomed, nextId)
    {
      DeleteNeverOverbills(users, videos, doomed);
    }

    /** With known sizes, exact bills stay exact. */
    static lemma DeleteStaysExact(users: Users, videos: Videos, doomed: set<int>)
      requires Exact(users, videos) && SizesKnown(videos)
      ensures Exact(UsersAfterDelete(users, videos, doomed), videos - doomed)
      ensures forall uid | uid in users ::
                UsersAfterDelete(users, videos, doomed)[uid].used == users[uid].used - Bytes(videos, doomed, uid)
    {
      KnownSizesTouchKnown(videos, doomed);
      DeleteKeepsExactly(users, videos, doomed);
      forall uid | uid in users
        ensures UsedAfterDelete(users, videos, doomed, uid) == users[uid].used - Bytes(videos, doomed, uid)
      {
        ClampNeverActs(users, videos, doomed, uid);
      }
    }

    method BatchDeleteVideos(ids: seq<int>) returns (deleted: nat)
      requires Valid()
      modifies this
      ensures Valid()
      ensures videos == old(videos) - (set id | id in ids)
      ensures deleted == |(set id | id in ids) * old(videos).Keys|
      ensures users.Keys == old(users).Keys
      ensures Reclaimed(old(users), users, old(videos), set id | id in ids)
      ensures Exact(old(users), old(videos)) && SizesKnown(old(videos)) ==>
                && Exact(users, videos)
                && forall uid | uid in users ::
                     users[uid].used == old(users)[uid].used - Bytes(old(videos), (set id | id in ids), uid)
    {
      var doomed := set id | id in ids;
      if ids == [] {
        assert doomed == {} && videos - doomed == videos;
        return 0;
      }
      DeleteNeverOverbills(users, videos, doomed);
      DeleteReclaims(users, videos, doomed);
      DeleteKeepsSound(users, videos, nextId, doomed);
      if Exact(users, videos) && SizesKnown(videos) { DeleteStaysExact(users, videos, doomed); }
      users := ReclaimQuota(users, videos, doomed);
      deleted := |doomed * videos.Keys|;
      videos := videos - doomed;
    }

    /** Both accounts hold a video of the same content, which one account may not. */
    static predicate HashesMeet(videos: Videos, from: int, to: int) {
      exists a, b | a in videos && b in videos ::
        && videos[a].uploader == Some(from) && videos[b].uploader == Some(to)
        && videos[a].hash.Some? && videos[a].hash == videos[b].hash
    }

    static function Owned(videos: Videos, uid: int): set<int> {
      set id | id in videos && videos[id].uploader == Some(uid)
    }

    static lemma MergeKeepsSound(users: Users, videos: Videos, nextId: int, from: int, to: int)
      requires Sound(users, videos, nextId) && from in users && to in users && from != to
      requires !HashesMeet(videos, from, to)
      ensures Sound(UsersAfterMerge(users, from), Reowned(videos, from, to), nextId)
    {
      var after := Reowned(videos, from, to);
      forall a, b | a in after && b in after && a != b ensures !Clashes(after[a], after[b]) {
        assert !Clashes(videos[a], videos[b]);
      }
    }

    /** The target has both accounts' videos and bytes; nothing but the uploader of the source's videos changed. */
    static ghost predicate AllMoved(before: Videos, after: Videos, from: int, to: int) {
      && Owned(after, to) == Owned(before, to) + Owned(before, from) && Owned(after, from) == {}
      && after.Keys == before.Keys
      && (forall id | id in after ::
            && after[id].size == before[id].size && after[id].hash == before[id].hash
            && (before[id].uploader != Some(from) ==> after[id] == before[id]))
      && Stored(after, to) == Stored(before, to) + Stored(before, from)
      && (forall uid | uid != from && uid != to :: Stored(after, uid) == Stored(before, uid))
    }

    static lemma ReownedMovesAll(videos: Videos, from: int, to: int)
      requires from != to
      ensures AllMoved(videos, Reowned(videos, from, to), from, to)
    {
      ReownedBytes(videos, from, to, to);
      forall uid | uid != from && uid != to ensures Stored(Reowned(videos, from, to), uid) == Stored(videos, uid) {
        ReownedBytes(videos, from, to, uid);
      }
    }

    static predicate Mergeable(users: Users, from: int) {
      from in users && (users[from].isGuest || users[from].used == 0)
    }

    /** Moves one account's videos to another and drops the source row if it is a guest's. */
    method MergeGuestIntoUser(from: int, to: int) returns (moved: Option<nat>)
      requires Valid()
      modifies this
      ensures TablesSound()
      // The sign-in handler merges only guests; for other sources the bills stay safe exactly when nothing is owed.
      ensures Valid() <==> moved.None? || from == to || Mergeable(old(users), from)
      ensures moved.None? <==>
                || from !in old(users) || to !in old(users)
                || (from != to && HashesMeet(old(videos), from, to))
      ensures moved.None? || from == to ==> users == old(users) && videos == old(videos)
      ensures moved.Some? && from == to ==> moved.value == 0
      ensures moved.Some? && from != to ==>
                moved.value == |Owned(old(videos), from)| && AllMoved(old(videos), videos, from, to)
      ensures moved.Some? && from != to ==>
                && (forall uid :: uid in users <==> uid in old(users) && !(uid == from && old(users)[from].isGuest))
                && (forall uid | uid in users :: users[uid] == old(users)[uid])
    {
      if from !in users || to !in users {
        return None;
      }
      if from == to {
        return Some(0);
      }
      var mine := Owned(videos, from);
      // The unique index on (uploader, hash) fails the whole transaction.
      if HashesMeet(videos, from, to) {
        return None;
      }
      MergeNeverOverbillsExactly(users, videos, from, to);
      ReownedMovesAll(videos, from, to);
      MergeKeepsSound(users, videos, nextId, from, to);
      moved := Some(|mine|);
      videos := Reowned(videos, from, to);
      users := UsersAfterMerge(users, from);
    }
  }
}
