/** The recommendation service's two-phase feed, and the single query it stands for. */
module Feed {
  import opened Wrappers
  import opened FeedQueries

  const MAX_RECOMMENDATION_LIMIT: int := 50

  datatype Item = Item(id: int, category: Option<string>, score: int)

  function Clamp(limit: int): nat {
    if limit < 1 then 1 else if limit > MAX_RECOMMENDATION_LIMIT then 50 else limit
  }

  function Ids(rows: seq<Video>): seq<int> {
    seq(|rows|, i requires 0 <= i < |rows| => rows[i].id)
  }

  function Scored(q: Query, v: Video): Item {
    Item(v.id, v.category, if IsPreferred(q.cats, v) then 2 else 1)
  }

  function Trending(v: Video): Item { Item(v.id, v.category, v.trendingScore) }

  function Items(q: Query, rows: seq<Video>): seq<Item> {
    seq(|rows|, i requires 0 <= i < |rows| => Scored(q, rows[i]))
  }

  ghost predicate ColdStart(table: set<Video>, q: Query, limit: nat)
    requires KeyedById(table)
  {
    q.cats == [] || PreferredVideos(table, q, limit) == []
  }

  /** The rows of a personalised feed: the preferred batch, topped up when short. */
  ghost function TwoPhaseRows(table: set<Video>, q: Query, limit: nat): seq<Video>
    requires KeyedById(table)
  {
    var preferred := PreferredVideos(table, q, limit);
    if limit > |preferred|
    then preferred + FillVideos(table, q, Ids(preferred), limit - |preferred|)
    else preferred
  }

  /** `trending` is the page the trending query would return; it is the whole feed on a cold start. */
  ghost function GetRecommendations(table: set<Video>, q: Query, limit: int, trending: seq<Video>): seq<Item>
    requires KeyedById(table) && TrendingPage(table, q.owner, Clamp(limit), trending)
  {
    if ColdStart(table, q, Clamp(limit))
    then seq(|trending|, i requires 0 <= i < |trending| => Trending(trending[i]))
    else Items(q, TwoPhaseRows(table, q, Clamp(limit)))
  }

  /***** The one query *****/

  /** Videos one combined query would select: those with a category that pass the shared conditions. */
  ghost function Eligible(table: set<Video>, q: Query): set<Video> {
    set v | v in table && Common(v, q).Yes? && v.category.Some?
  }

  ghost function OneQuery(table: set<Video>, q: Query, limit: nat): seq<Video>
    requires KeyedById(table)
  {
    Limit(Ordered(q.cats, Eligible(table, q)), limit)
  }

  lemma LimitKeepsOrder(cats: seq<string>, rows: set<Video>, n: nat)
    requires KeyedById(rows)
    ensures forall i, j :: 0 <= i < j < |Limit(Ordered(cats, rows), n)| ==>
              Ahead(cats, Limit(Ordered(cats, rows), n)[i], Limit(Ordered(cats, rows), n)[j])
    ensures forall v | v in Limit(Ordered(cats, rows), n) :: v in rows
  {
    forall v | v in Limit(Ordered(cats, rows), n) ensures v in rows {
      assert v in Ordered(cats, rows);
    }
  }

  /** A listing with the watched categories first is two plain listings, one after the other. */
  lemma OrderedSplits(cats: seq<string>, rows: set<Video>)
    requires KeyedById(rows)
    ensures Ordered(cats, rows) == Ordered([], set v | v in rows && IsPreferred(cats, v))
                                 + Ordered([], set v | v in rows && !IsPreferred(cats, v))
  {
    var yes, no := set v | v in rows && IsPreferred(cats, v), set v | v in rows && !IsPreferred(cats, v);
    var first, second := Ordered([], yes), Ordered([], no);
    var both := first + second;
    forall i, j | 0 <= i < j < |both| ensures Ahead(cats, both[i], both[j]) {
      assert i < |first| ==> first[i] in yes;
      assert j < |first| ==> first[j] in yes;
      assert i >= |first| ==> second[i - |first|] in no;
      assert j >= |first| ==> second[j - |first|] in no;
    }
    ListingUnique(cats, both, Ordered(cats, rows), rows);
  }

  /** The preferred ids never matter to the second query: it selects no preferred video anyway. */
  lemma ExclusionRedundant(table: set<Video>, q: Query, limit: nat, n: nat)
    requires KeyedById(table) && q.cats != []
    ensures FillVideos(table, q, Ids(PreferredVideos(table, q, limit)), n) == FillVideos(table, q, [], n)
  {
    var preferred := PreferredVideos(table, q, limit);
    LimitKeepsOrder([], (set v | v in table && PreferredWhere(v, q).Yes?), limit);
    forall v | v in table && v.id in Ids(preferred) ensures PreferredWhere(v, q).Yes? {
      var i :| 0 <= i < |preferred| && Ids(preferred)[i] == v.id;
      assert preferred[i] in preferred;
    }
    assert (set v | v in table && FillWhere(v, q, Ids(preferred)).Yes?)
        == (set v | v in table && FillWhere(v, q, []).Yes?);
  }

  /** MAIN: on a feed that is not a cold start, the two queries together are the one ordered query. */
  lemma TwoPhaseIsOneQuery(table: set<Video>, q: Query, limit: nat)
    requires KeyedById(table) && !ColdStart(table, q, limit)
    ensures TwoPhaseRows(table, q, limit) == OneQuery(table, q, limit)
  {
    var rows := Eligible(table, q);
    assert (set v | v in rows && IsPreferred(q.cats, v)) == set v | v in table && PreferredWhere(v, q).Yes?;
    assert (set v | v in rows && !IsPreferred(q.cats, v)) == set v | v in table && FillWhere(v, q, []).Yes?;
    OrderedSplits(q.cats, rows);
    var preferred := PreferredVideos(table, q, limit);
    if |preferred| < limit {
      ExclusionRedundant(table, q, limit, limit - |preferred|);
    }
  }

  /** MAIN: a personalised feed has no id twice, its scores never rise, and it is no longer than asked for. */
  lemma FeedShape(table: set<Video>, q: Query, limit: int, trending: seq<Video>)
    requires KeyedById(table) && TrendingPage(table, q.owner, Clamp(limit), trending)
    requires !ColdStart(table, q, Clamp(limit))
    ensures var feed := GetRecommendations(table, q, limit, trending);
            && 1 <= |feed| <= Clamp(limit)
            && (forall i, j :: 0 <= i < j < |feed| ==> feed[i].id != feed[j].id && feed[i].score >= feed[j].score)
  {
    var n := Clamp(limit);
    TwoPhaseIsOneQuery(table, q, n);
    LimitKeepsOrder(q.cats, Eligible(table, q), n);
    var rows := TwoPhaseRows(table, q, n);
    var feed := GetRecommendations(table, q, limit, trending);
    forall i, j | 0 <= i < j < |feed| ensures feed[i].id != feed[j].id && feed[i].score >= feed[j].score {
      assert feed[i] == Scored(q, rows[i]) && feed[j] == Scored(q, rows[j]);
      assert Ahead(q.cats, rows[i], rows[j]) && rows[i] in Eligible(table, q) && rows[j] in Eligible(table, q);
    }
  }

  /**
   MAIN: "the feed is never empty" holds exactly when some unseen video is in a watched category,
   or some video trends.
   */
  lemma FeedEmptyExactly(table: set<Video>, q: Query, limit: int, trending: seq<Video>)
    requires KeyedById(table) && TrendingPage(table, q.owner, Clamp(limit), trending)
    ensures GetRecommendations(table, q, limit, trending) != []
       <==> (exists v :: v in table && PreferredWhere(v, q).Yes?) || (exists v :: v in table && Trends(v, q.owner))
  {
    var n := Clamp(limit);
    var candidates := set v | v in table && PreferredWhere(v, q).Yes?;
    if ColdStart(table, q, n) {
      if q.cats != [] {
        var all := Ordered([], candidates);
        assert Limit(all, n) == [] && all == [];
        assert forall v :: v !in candidates;
      }
      if trending != [] {
        assert trending[0] in trending;
      }
    } else {
      FeedShape(table, q, limit, trending);
      var first := PreferredVideos(table, q, n)[0];
      assert first in Ordered([], candidates);
    }
  }

  /** A user with a history but nothing unseen and nothing trending gets an empty feed. */
  lemma EmptyFeedExample()
    ensures GetRecommendations({Video(1, 9, Some("music"), None, true, 0)},
                               Query(0, None, ["music"], {1}), 20, []) == []
  {
    var v := Video(1, 9, Some("music"), None, true, 0);
    var q := Query(0, None, ["music"], {1});
    var table := {v};
    assert forall w | w in table :: w == v;
    FeedEmptyExactly(table, q, 20, []);
  }

  /***** What a personalised feed holds *****/

  /** Not the video being watched, not seen before, local, in some category, and the owner's if one is asked for. */
  predicate Recommendable(q: Query, v: Video) {
    && v.id != q.exclude && v.id !in q.seen && v.local && v.category.Some?
    && (q.owner.Some? ==> v.uploader == q.owner)
  }

  lemma EligibleIsRecommendable(table: set<Video>, q: Query, v: Video)
    ensures v in Eligible(table, q) <==> v in table && Recommendable(q, v)
  {}

  /** Two for a watched category, one for any other. */
  predicate ScoredRight(q: Query, v: Video, item: Item) {
    && item.id == v.id && item.category == v.category
    && item.score == if v.category.Some? && v.category.value in q.cats then 2 else 1
  }

  /** The rows behind a personalised feed. */
  ghost predicate Shows(q: Query, rows: seq<Video>, feed: seq<Item>) {
    |rows| == |feed| && forall i :: 0 <= i < |feed| ==> ScoredRight(q, rows[i], feed[i])
  }

  /** Watched categories first, then more views first. */
  predicate Outranks(q: Query, v: Video, w: Video) {
    var pv, pw := v.category.Some? && v.category.value in q.cats, w.category.Some? && w.category.value in q.cats;
    (pv && !pw) || (pv == pw && v.views >= w.views)
  }

  /**
   MAIN: every item of a personalised feed is a recommendable video, in order of rank; and a recommendable
   video is missing only if the feed is full, with 50 or as many as were asked for, of videos that outrank it.
   */
  lemma FeedContents(table: set<Video>, q: Query, limit: int, trending: seq<Video>) returns (rows: seq<Video>)
    requires KeyedById(table) && TrendingPage(table, q.owner, Clamp(limit), trending)
    requires !ColdStart(table, q, Clamp(limit))
    ensures Shows(q, rows, GetRecommendations(table, q, limit, trending))
    ensures forall i :: 0 <= i < |rows| ==> rows[i] in table && Recommendable(q, rows[i])
    ensures forall i, j :: 0 <= i < j < |rows| ==> Outranks(q, rows[i], rows[j])
    ensures forall v | v in table && Recommendable(q, v) && v !in rows ::
              && |rows| == (if limit < 1 then 1 else if limit > 50 then 50 else limit)
              && forall i :: 0 <= i < |rows| ==> Outranks(q, rows[i], v)
  {
    var n := Clamp(limit);
    rows := TwoPhaseRows(table, q, n);
    TwoPhaseIsOneQuery(table, q, n);
    LimitKeepsOrder(q.cats, Eligible(table, q), n);
    var all := Ordered(q.cats, Eligible(table, q));
    forall i | 0 <= i < |rows| ensures rows[i] in table && Recommendable(q, rows[i]) {
      assert rows[i] in rows;
      EligibleIsRecommendable(table, q, rows[i]);
    }
    forall v | v in table && Recommendable(q, v) && v !in rows
      ensures |rows| == n && forall i :: 0 <= i < |rows| ==> Outranks(q, rows[i], v)
    {
      EligibleIsRecommendable(table, q, v);
      assert v in all;
      var k :| 0 <= k < |all| && all[k] == v;
      assert forall i :: 0 <= i < |rows| ==> rows[i] != v && rows[i] == all[i];
    }
  }

  /** On a cold start the feed is the trending page: local videos with a positive score, the owner's if asked for. */
  lemma ColdFeed(table: set<Video>, q: Query, limit: int, trending: seq<Video>)
    requires KeyedById(table) && TrendingPage(table, q.owner, Clamp(limit), trending)
    requires ColdStart(table, q, Clamp(limit))
    ensures var feed := GetRecommendations(table, q, limit, trending);
            && |feed| == |trending|
            && forall i :: 0 <= i < |feed| ==>
                 && feed[i] == Item(trending[i].id, trending[i].category, trending[i].trendingScore)
                 && trending[i].local && trending[i].trendingScore > 0
                 && (q.owner.Some? ==> trending[i].uploader == q.owner)
  {
    forall i | 0 <= i < |trending|
      ensures trending[i].local && trending[i].trendingScore > 0 && (q.owner.Some? ==> trending[i].uploader == q.owner)
    {
      assert trending[i] in trending;
    }
  }
}
