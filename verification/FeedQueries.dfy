/**
 The recommendation feed's SQL, over one snapshot of the videos table: filters in three-valued
 logic, ORDER BY as a unique listing of a set, LIMIT as a prefix.
 */
module FeedQueries {
  import opened Wrappers

  datatype Video = Video(id: int, views: int, category: Option<string>, uploader: Option<int>,
                         local: bool, trendingScore: int)

  /** `id` is the primary key. */
  ghost predicate KeyedById(rows: set<Video>) {
    forall a, b | a in rows && b in rows && a.id == b.id :: a == b
  }

  /** What a feed is asked for: the categories watched and the videos already seen come from the user's history. */
  datatype Query = Query(exclude: int, owner: Option<int>, cats: seq<string>, seen: set<int>)

  /***** Three-valued conditions *****/

  datatype Truth = Yes | No | Unknown

  function Is(b: bool): Truth { if b then Yes else No }

  function Not(t: Truth): Truth {
    match t
    case Yes => No
    case No => Yes
    case Unknown => Unknown
  }

  function And(a: Truth, b: Truth): Truth {
    if a.No? || b.No? then No else if a.Yes? && b.Yes? then Yes else Unknown
  }

  /** `x = ANY(list)`: unknown for a null x, unless the list is empty. */
  function EqAny<T(==)>(x: Option<T>, list: seq<T>): Truth {
    if list == [] then No
    else if x.None? then Unknown
    else Is(x.value in list)
  }

  /** `owner IS NULL OR uploader_id = owner` */
  function OwnedBy(v: Video, owner: Option<int>): Truth {
    if owner.None? then Yes
    else if v.uploader.None? then Unknown
    else Is(v.uploader == owner)
  }

  /** Conditions the two feed queries share. */
  function Common(v: Video, q: Query): Truth {
    And(And(Is(v.id != q.exclude), OwnedBy(v, q.owner)), And(Is(v.local), Is(v.id !in q.seen)))
  }

  function PreferredWhere(v: Video, q: Query): Truth {
    And(Common(v, q), EqAny(v.category, q.cats))
  }

  function FillWhere(v: Video, q: Query, ids: seq<int>): Truth {
    And(And(Common(v, q), Not(EqAny(v.category, q.cats))), Not(EqAny(Some(v.id), ids)))
  }

  /***** Ordering *****/

  /** Strictly ahead in the feed: a watched category first (none are when `cats` is empty), then views, then id. */
  predicate Ahead(cats: seq<string>, a: Video, b: Video) {
    var pa, pb := IsPreferred(cats, a), IsPreferred(cats, b);
    (pa && !pb) || (pa == pb && (a.views > b.views || (a.views == b.views && a.id > b.id)))
  }

  predicate IsPreferred(cats: seq<string>, v: Video) {
    v.category.Some? && v.category.value in cats
  }

  /** `list` is `rows` in feed order. */
  ghost predicate Lists(cats: seq<string>, list: seq<Video>, rows: set<Video>) {
    && (forall v :: v in list <==> v in rows)
    && (forall i, j :: 0 <= i < j < |list| ==> Ahead(cats, list[i], list[j]))
  }

  lemma EmptyListing(cats: seq<string>, list: seq<Video>, rows: set<Video>)
    requires Lists(cats, list, rows)
    ensures list == [] <==> rows == {}
  {
    if list != [] {
      assert list[0] in list;
    }
  }

  lemma {:induction false} ListingUnique(cats: seq<string>, a: seq<Video>, b: seq<Video>, rows: set<Video>)
    requires Lists(cats, a, rows) && Lists(cats, b, rows)
    ensures a == b
    decreases |a|
  {
    EmptyListing(cats, a, rows);
    EmptyListing(cats, b, rows);
    if a != [] {
      assert a[0] in b && b[0] in a;
      assert a[0] == b[0];
      var rest := rows - {a[0]};
      TailLists(cats, a, rows);
      TailLists(cats, b, rows);
      ListingUnique(cats, a[1..], b[1..], rest);
    }
  }

  lemma TailLists(cats: seq<string>, list: seq<Video>, rows: set<Video>)
    requires Lists(cats, list, rows) && list != []
    ensures Lists(cats, list[1..], rows - {list[0]})
  {
    forall v ensures v in list[1..] <==> v in rows - {list[0]} {
      if v in list[1..] {
        var i :| 0 <= i < |list[1..]| && list[1..][i] == v;
        assert Ahead(cats, list[0], list[i + 1]);
        assert v in list;
      }
    }
  }

  lemma {:induction false} FirstExists(cats: seq<string>, rows: set<Video>) returns (top: Video)
    requires rows != {} && KeyedById(rows)
    ensures top in rows && forall v | v in rows && v != top :: Ahead(cats, top, v)
  {
    var v :| v in rows;
    var rest := rows - {v};
    if rest == {} {
      top := v;
      assert forall w | w in rows :: w in rest || w == v;
    } else {
      var other := FirstExists(cats, rest);
      assert v.id != other.id;
      top := if Ahead(cats, v, other) then v else other;
      forall w | w in rows && w != top ensures Ahead(cats, top, w) {
        assert w in rest || w == v;
      }
    }
  }

  lemma {:induction false} ListingExists(cats: seq<string>, rows: set<Video>) returns (list: seq<Video>)
    requires KeyedById(rows)
    ensures Lists(cats, list, rows)
  {
    if rows == {} {
      list := [];
    } else {
      var top := FirstExists(cats, rows);
      var rest := ListingExists(cats, rows - {top});
      list := [top] + rest;
      assert forall i :: 0 < i < |list| ==> list[i] == rest[i - 1] && list[i] in rest;
    }
  }

  /** SELECT ... ORDER BY: the one listing of the selected rows. */
  ghost function Ordered(cats: seq<string>, rows: set<Video>): (list: seq<Video>)
    requires KeyedById(rows)
    ensures Lists(cats, list, rows)
  {
    assert exists list :: Lists(cats, list, rows) by {
      var list := ListingExists(cats, rows);
    }
    var list :| Lists(cats, list, rows);
    list
  }

  function Limit(list: seq<Video>, n: nat): seq<Video> {
    if |list| <= n then list else list[..n]
  }

  ghost function PreferredVideos(table: set<Video>, q: Query, limit: nat): seq<Video>
    requires KeyedById(table)
  {
    Limit(Ordered([], set v | v in table && PreferredWhere(v, q).Yes?), limit)
  }

  ghost function FillVideos(table: set<Video>, q: Query, ids: seq<int>, limit: nat): seq<Video>
    requires KeyedById(table)
  {
    Limit(Ordered([], set v | v in table && FillWhere(v, q, ids).Yes?), limit)
  }

  /** A page of the trending list: best scores first, ties in any order. */
  ghost predicate TrendingPage(table: set<Video>, owner: Option<int>, limit: nat, page: seq<Video>) {
    && |page| <= limit
    && (forall v | v in page :: v in table && Trends(v, owner))
    && (forall i, j :: 0 <= i < j < |page| ==> page[i] != page[j] && page[i].trendingScore >= page[j].trendingScore)
    && (|page| < limit ==> forall v | v in table && Trends(v, owner) :: v in page)
    && (forall v, w | v in table && Trends(v, owner) && v !in page && w in page :: w.trendingScore >= v.trendingScore)
  }

  predicate Trends(v: Video, owner: Option<int>) {
    OwnedBy(v, owner).Yes? && v.trendingScore > 0 && v.local
  }
}
