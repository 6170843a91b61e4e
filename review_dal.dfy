/**
 * The review table and its data-access operations: creation behind the
 * 1..5 rating guard, the by-rating query, the rating distribution, the
 * whitelisted update, the two deletions and the "already reviewed" test.
 */
module ReviewDal {
  import opened Common
  import opened PySeq
  import opened Sorting
  import opened Models

  /** The `ValueError`s the review data layer raises. */
  datatype ReviewError = InvalidRating | ReviewNotFound

  // --------------------------------------------------------------- lookup

  predicate HasReview(rows: seq<Review>, id: int) {
    exists k :: 0 <= k < |rows| && rows[k].id == id
  }

  /** `db.session.get(Review, id)`. */
  function FindReview(rows: seq<Review>, id: int): (r: Option<Review>)
    ensures r.Some? <==> HasReview(rows, id)
    ensures r.Some? ==> r.value in rows && r.value.id == id
    decreases |rows|
  {
    if |rows| == 0 then None
    else if rows[0].id == id then Some(rows[0])
    else
      var r := FindReview(rows[1..], id);
      assert HasReview(rows, id) ==> HasReview(rows[1..], id) by {
        if HasReview(rows, id) {
          var k :| 0 <= k < |rows| && rows[k].id == id;
          assert rows[1..][k - 1].id == id;
        }
      }
      assert HasReview(rows[1..], id) ==> HasReview(rows, id) by {
        if HasReview(rows[1..], id) {
          var k :| 0 <= k < |rows[1..]| && rows[1..][k].id == id;
          assert rows[k + 1].id == id;
        }
      }
      r
  }

  /** Primary keys distinct, positive and below the next key; every rating passes the check constraint. */
  predicate ReviewsValid(rows: seq<Review>, nextId: int) {
    nextId >= 1 &&
    (forall k :: 0 <= k < |rows| ==> 1 <= rows[k].id < nextId && ValidRating(rows[k].rating)) &&
    (forall i, j :: 0 <= i < j < |rows| ==> rows[i].id != rows[j].id)
  }

  function ReplaceReview(rows: seq<Review>, id: int, v: Review): (r: seq<Review>)
    ensures |r| == |rows|
    ensures forall k :: 0 <= k < |rows| ==> r[k] == if rows[k].id == id then v else rows[k]
  {
    seq(|rows|, k requires 0 <= k < |rows| => if rows[k].id == id then v else rows[k])
  }

  /** Any filter of a valid table is valid: it keeps a subsequence of the rows. */
  lemma FilterReviewsValid(rows: seq<Review>, nextId: int, p: Review -> bool)
    requires ReviewsValid(rows, nextId)
    ensures ReviewsValid(Filter(rows, p), nextId)
  {
    FilterPairwise(rows, p, (a: Review, b: Review) => a.id != b.id);
    var r := Filter(rows, p);
    forall k | 0 <= k < |r| ensures 1 <= r[k].id < nextId && ValidRating(r[k].rating) {
      assert r[k] in rows;
    }
  }

  // ----------------------------------------------------------- selections

  /** The reviews of one resource (`filter_by(resource_id=...)`). */
  function OfResource(rows: seq<Review>, resourceId: int): (r: seq<Review>)
    ensures forall v :: v in r <==> v in rows && v.resourceId == resourceId
  {
    Filter(rows, (v: Review) => v.resourceId == resourceId)
  }

  /** `COUNT(*) ... WHERE rating = r` over a list of reviews. */
  function RatingCount(rs: seq<Review>, rating: int): (n: nat)
    ensures n == |Filter(rs, (v: Review) => v.rating == rating)|
  {
    CountWhere(rs, (v: Review) => v.rating == rating)
  }

  /** An occurring rating has a positive count, and a rating that does not occur counts 0. */
  lemma RatingCountPositive(rs: seq<Review>, rating: int)
    ensures RatingCount(rs, rating) > 0 <==> exists k :: 0 <= k < |rs| && rs[k].rating == rating
  {
    CountWherePositive(rs, (v: Review) => v.rating == rating);
  }

  /** With every rating in 1..5, the five counts add up to the number of reviews. */
  lemma {:induction false} RatingCountsSum(rs: seq<Review>)
    requires forall k :: 0 <= k < |rs| ==> ValidRating(rs[k].rating)
    ensures RatingCount(rs, 1) + RatingCount(rs, 2) + RatingCount(rs, 3) + RatingCount(rs, 4) + RatingCount(rs, 5) == |rs|
    decreases |rs|
  {
    if |rs| > 0 {
      var init := rs[..|rs| - 1];
      RatingCountsSum(init);
      RatingCountStep(rs, 1);
      RatingCountStep(rs, 2);
      RatingCountStep(rs, 3);
      RatingCountStep(rs, 4);
      RatingCountStep(rs, 5);
    }
  }

  lemma RatingCountStep(rs: seq<Review>, rating: int)
    requires |rs| > 0
    ensures RatingCount(rs, rating) ==
      RatingCount(rs[..|rs| - 1], rating) + (if rs[|rs| - 1].rating == rating then 1 else 0)
  {
  }

  // ------------------------------------------------ get_reviews_by_rating

  function NewestFirst(v: Review): int { -v.createdAt }

  /**
   * `get_reviews_by_rating`: refuses a rating outside 1..5, else the reviews
   * of the resource with that rating, newest first, cut to one page.
   */
  function ByRating(rows: seq<Review>, resourceId: int, rating: int, limit: nat, offset: nat): (r: Result<seq<Review>, ReviewError>)
    ensures r.Err? <==> !ValidRating(rating)
    ensures r.Err? ==> r.error == InvalidRating
    ensures r.Ok? ==> forall k :: 0 <= k < |r.value| ==>
      r.value[k] in rows && r.value[k].resourceId == resourceId && r.value[k].rating == rating
    ensures r.Ok? ==> forall i, j :: 0 <= i < j < |r.value| ==> r.value[i].createdAt >= r.value[j].createdAt
    ensures r.Ok? && limit > 0 ==> |r.value| <= limit
    ensures r.Ok? && limit == 0 && offset == 0 ==>
      multiset(r.value) == multiset(Filter(rows, (v: Review) => v.resourceId == resourceId && v.rating == rating))
  {
    if !ValidRating(rating) then Err(InvalidRating)
    else
      var hits := Filter(rows, (v: Review) => v.resourceId == resourceId && v.rating == rating);
      var page := NewestPageOf(hits, offset, limit);
      forall k | 0 <= k < |page| ensures page[k] in rows && page[k].resourceId == resourceId && page[k].rating == rating {
        assert page[k] in hits;
      }
      Ok(page)
  }

  /** One page of `rows`, newest first: `order_by(created_at.desc()).offset(...).limit(...)`. */
  function NewestPageOf(hits: seq<Review>, offset: nat, limit: nat): (page: seq<Review>)
    ensures forall k :: 0 <= k < |page| ==> page[k] in hits
    ensures forall i, j :: 0 <= i < j < |page| ==> page[i].createdAt >= page[j].createdAt
    ensures limit > 0 ==> |page| <= limit
    ensures limit == 0 && offset == 0 ==> multiset(page) == multiset(hits)
  {
    var sorted := SortBy(hits, NewestFirst);
    var page := Page(sorted, offset, limit);
    forall k | 0 <= k < |page| ensures page[k] in hits {
      assert page[k] == sorted[offset + k];
      SortByMembers(hits, NewestFirst, page[k]);
    }
    forall i, j | 0 <= i < j < |page| ensures page[i].createdAt >= page[j].createdAt {
      assert page[i] == sorted[offset + i] && page[j] == sorted[offset + j];
      assert NewestFirst(sorted[offset + i]) <= NewestFirst(sorted[offset + j]);
    }
    assert limit == 0 && offset == 0 ==> page == sorted;
    page
  }

  // ---------------------------------------------- get_rating_distribution

  const RATINGS: set<int> := {1, 2, 3, 4, 5}

  /** The ratings that occur in `rs`, each once: the groups of `GROUP BY rating`. */
  function DistinctRatings(rs: seq<Review>): (r: seq<int>)
    ensures forall x :: x in r <==> exists k :: 0 <= k < |rs| && rs[k].rating == x
    decreases |rs|
  {
    if |rs| == 0 then []
    else
      var rest := DistinctRatings(rs[..|rs| - 1]);
      assert forall k :: 0 <= k < |rs| - 1 ==> rs[..|rs| - 1][k] == rs[k];
      if rs[|rs| - 1].rating in rest then rest else rest + [rs[|rs| - 1].rating]
  }

  /** The rows of the grouped query: one `(rating, count)` pair per occurring rating. */
  function GroupByRating(rs: seq<Review>): (r: seq<(int, nat)>)
    ensures |r| == |DistinctRatings(rs)|
    ensures forall k :: 0 <= k < |r| ==> r[k] == (DistinctRatings(rs)[k], RatingCount(rs, DistinctRatings(rs)[k]))
  {
    var d := DistinctRatings(rs);
    seq(|d|, k requires 0 <= k < |d| => (d[k], RatingCount(rs, d[k])))
  }

  /** What `get_rating_distribution` promises: every rating 1..5, with its count. */
  function Distribution(rows: seq<Review>, resourceId: int): map<int, nat> {
    map r | r in RATINGS :: RatingCount(OfResource(rows, resourceId), r)
  }

  /** The distribution has exactly the keys 1..5, and its values sum to the resource's review count. */
  lemma DistributionShape(rows: seq<Review>, nextId: int, resourceId: int)
    requires ReviewsValid(rows, nextId)
    ensures Distribution(rows, resourceId).Keys == RATINGS
    ensures forall r :: r in RATINGS ==> Distribution(rows, resourceId)[r] == RatingCount(OfResource(rows, resourceId), r)
    ensures var d := Distribution(rows, resourceId);
      d[1] + d[2] + d[3] + d[4] + d[5] == |OfResource(rows, resourceId)|
  {
    OfResourceValid(rows, nextId, resourceId);
    RatingCountsSum(OfResource(rows, resourceId));
  }

  /** The reviews of a resource in a valid table all have valid ratings. */
  lemma OfResourceValid(rows: seq<Review>, nextId: int, resourceId: int)
    requires ReviewsValid(rows, nextId)
    ensures forall k :: 0 <= k < |OfResource(rows, resourceId)| ==> ValidRating(OfResource(rows, resourceId)[k].rating)
  {
    FilterReviewsValid(rows, nextId, (v: Review) => v.resourceId == resourceId);
  }

  /** With valid ratings, every group of the grouped query is one of the ratings 1..5. */
  lemma {:induction false} GroupsAreRatings(rs: seq<Review>)
    requires forall k :: 0 <= k < |rs| ==> ValidRating(rs[k].rating)
    ensures forall x :: x in DistinctRatings(rs) ==> x in RATINGS
  {
    forall x | x in DistinctRatings(rs) ensures x in RATINGS {
      var k :| 0 <= k < |rs| && rs[k].rating == x;
      assert ValidRating(rs[k].rating);
    }
  }

  const ZERO_DISTRIBUTION: map<int, nat> := map[1 := 0, 2 := 0, 3 := 0, 4 := 0, 5 := 0]

  /** `for rating, count in results: distribution[rating] = count`. */
  function Overwrite(base: map<int, nat>, results: seq<(int, nat)>): map<int, nat>
    decreases |results|
  {
    if |results| == 0 then base
    else Overwrite(base, results[..|results| - 1])[results[|results| - 1].0 := results[|results| - 1].1]
  }

  /**
   * When each pair carries `F` of its key, the overwritten map holds `F(r)`
   * for every key that occurs among the pairs and the base value elsewhere.
   */
  lemma {:induction false} OverwriteConsistent(base: map<int, nat>, results: seq<(int, nat)>, F: int -> nat)
    requires forall k :: 0 <= k < |results| ==> results[k].1 == F(results[k].0)
    ensures forall r :: r in Overwrite(base, results) <==> r in base || exists k :: 0 <= k < |results| && results[k].0 == r
    ensures forall r :: r in Overwrite(base, results) ==>
      Overwrite(base, results)[r] == if exists k :: 0 <= k < |results| && results[k].0 == r then F(r) else base[r]
    decreases |results|
  {
    if |results| > 0 {
      var init := results[..|results| - 1];
      OverwriteConsistent(base, init, F);
      assert forall k :: 0 <= k < |init| ==> init[k] == results[k];
    }
  }

  /** A rating is the key of some pair of the grouped query exactly when it occurs. */
  lemma GroupKeys(rs: seq<Review>, r: int)
    ensures (exists k :: 0 <= k < |GroupByRating(rs)| && GroupByRating(rs)[k].0 == r) <==> r in DistinctRatings(rs)
  {
    var groups := DistinctRatings(rs);
    if r in groups {
      var k :| 0 <= k < |groups| && groups[k] == r;
      assert GroupByRating(rs)[k].0 == r;
    }
  }

  /** Overwriting the zeroes with the groups of valid reviews keeps the keys 1..5 and adds none. */
  lemma {:induction false} OverwriteGroupsKeys(rs: seq<Review>)
    requires forall k :: 0 <= k < |rs| ==> ValidRating(rs[k].rating)
    ensures Overwrite(ZERO_DISTRIBUTION, GroupByRating(rs)).Keys == RATINGS
  {
    var results := GroupByRating(rs);
    var got := Overwrite(ZERO_DISTRIBUTION, results);
    OverwriteConsistent(ZERO_DISTRIBUTION, results, (r: int) => RatingCount(rs, r));
    forall r ensures r in got <==> r in RATINGS {
      GroupKeys(rs, r);
      GroupsAreRatings(rs);
    }
  }

  /** Overwriting the zeroes with the groups gives every rating 1..5 its count. */
  lemma {:induction false} OverwriteGroupsValues(rs: seq<Review>, r: int)
    requires r in RATINGS
    ensures r in Overwrite(ZERO_DISTRIBUTION, GroupByRating(rs))
    ensures Overwrite(ZERO_DISTRIBUTION, GroupByRating(rs))[r] == RatingCount(rs, r)
  {
    var results := GroupByRating(rs);
    var F := (r: int) => RatingCount(rs, r);
    OverwriteConsistent(ZERO_DISTRIBUTION, results, F);
    GroupKeys(rs, r);
    var got := Overwrite(ZERO_DISTRIBUTION, results);
    assert r in got by { assert r in ZERO_DISTRIBUTION; }
    if r in DistinctRatings(rs) {
      assert got[r] == F(r);
    } else {
      RatingCountPositive(rs, r);
      assert got[r] == ZERO_DISTRIBUTION[r] == 0;
    }
  }

  lemma DistributionValues(rows: seq<Review>, resourceId: int)
    ensures Distribution(rows, resourceId).Keys == RATINGS
    ensures forall r :: r in RATINGS ==> Distribution(rows, resourceId)[r] == RatingCount(OfResource(rows, resourceId), r)
  {
  }

  /** Two maps on 1..5 that agree with the same function are equal. */
  lemma MapsAgree(a: map<int, nat>, b: map<int, nat>, f: int -> nat)
    requires a.Keys == RATINGS && forall r :: r in RATINGS ==> a[r] == f(r)
    requires b.Keys == RATINGS && forall r :: r in RATINGS ==> b[r] == f(r)
    ensures a == b
  {
  }

  /** The loop of `get_rating_distribution` yields the promised distribution. */
  lemma {:induction false} GroupsGiveDistribution(rows: seq<Review>, nextId: int, resourceId: int)
    requires ReviewsValid(rows, nextId)
    ensures Overwrite(ZERO_DISTRIBUTION, GroupByRating(OfResource(rows, resourceId))) == Distribution(rows, resourceId)
  {
    var rs := OfResource(rows, resourceId);
    var got := Overwrite(ZERO_DISTRIBUTION, GroupByRating(rs));
    var spec := Distribution(rows, resourceId);
    assert got.Keys == RATINGS && forall r :: r in RATINGS ==> got[r] == RatingCount(rs, r) by {
      OfResourceValid(rows, nextId, resourceId);
      OverwriteGroupsKeys(rs);
      forall r | r in RATINGS ensures got[r] == RatingCount(rs, r) {
        OverwriteGroupsValues(rs, r);
      }
    }
    DistributionValues(rows, resourceId);
    MapsAgree(got, spec, (r: int) => RatingCount(rs, r));
  }

  /** The loop of `get_rating_distribution`: each `(rating, count)` pair overwrites the zero of its rating. */
  method CopyGroups(results: seq<(int, nat)>) returns (dist: map<int, nat>)
    ensures dist == Overwrite(ZERO_DISTRIBUTION, results)
  {
    dist := map[1 := 0, 2 := 0, 3 := 0, 4 := 0, 5 := 0];
    var i := 0;
    while i < |results|
      invariant 0 <= i <= |results|
      invariant dist == Overwrite(ZERO_DISTRIBUTION, results[..i])
    {
      assert results[..i + 1][..i] == results[..i];
      var (rating, count) := results[i];
      dist := dist[rating := count];
      i := i + 1;
    }
    assert results[..i] == results;
  }

  /** A rating of the resource that no review has shows as 0. */
  lemma DistributionZero(rows: seq<Review>, resourceId: int, r: int)
    requires r in RATINGS
    requires forall v :: v in rows && v.resourceId == resourceId ==> v.rating != r
    ensures Distribution(rows, resourceId)[r] == 0
  {
    RatingCountPositive(OfResource(rows, resourceId), r);
  }

  /** `update_review`'s keyword arguments; `OtherField` is a key outside the whitelist. */
  datatype ReviewAssign = SetRating(rating: int) | SetComment(comment: Option<string>) | OtherField(key: string)

  const REVIEW_FIELDS := {"rating", "comment"}

  function ReviewKeyOf(a: ReviewAssign): string {
    match a
    case SetRating(_) => "rating"
    case SetComment(_) => "comment"
    case OtherField(k) => k
  }

  /** Keyword arguments form a dict: each key at most once; an `OtherField` is never whitelisted. */
  predicate ReviewKwargs(kw: seq<ReviewAssign>) {
    (forall i, j :: 0 <= i < j < |kw| ==> ReviewKeyOf(kw[i]) != ReviewKeyOf(kw[j])) &&
    (forall k :: 0 <= k < |kw| && kw[k].OtherField? ==> kw[k].key !in REVIEW_FIELDS)
  }

  /** The `setattr` loop: each whitelisted key in argument order. */
  function ApplyReview(v: Review, kw: seq<ReviewAssign>): Review
    decreases |kw|
  {
    if |kw| == 0 then v
    else
      var w := ApplyReview(v, kw[..|kw| - 1]);
      match kw[|kw| - 1]
      case SetRating(r) => w.(rating := r)
      case SetComment(c) => w.(comment := c)
      case OtherField(_) => w
  }

  /** `kwargs.get('rating')` and `kwargs.get('comment')`, the last one winning. */
  function RatingArg(kw: seq<ReviewAssign>): Option<int>
    decreases |kw|
  {
    if |kw| == 0 then None
    else if kw[|kw| - 1].SetRating? then Some(kw[|kw| - 1].rating)
    else RatingArg(kw[..|kw| - 1])
  }

  function CommentArg(kw: seq<ReviewAssign>): Option<Option<string>>
    decreases |kw|
  {
    if |kw| == 0 then None
    else if kw[|kw| - 1].SetComment? then Some(kw[|kw| - 1].comment)
    else CommentArg(kw[..|kw| - 1])
  }

  /** The loop changes only rating and comment, to the values passed; title, owner and the rest stay. */
  lemma {:induction false} ApplyReviewFields(v: Review, kw: seq<ReviewAssign>)
    ensures ApplyReview(v, kw) == v.(rating := RatingArg(kw).GetOr(v.rating), comment := CommentArg(kw).GetOr(v.comment))
    decreases |kw|
  {
    if |kw| > 0 {
      ApplyReviewFields(v, kw[..|kw| - 1]);
    }
  }

  /** The `setattr` loop of `update_review`, over the keyword arguments in order. */
  method SetAttributes(v: Review, kwargs: seq<ReviewAssign>) returns (review: Review)
    ensures review == ApplyReview(v, kwargs)
  {
    review := v;
    var k := 0;
    while k < |kwargs|
      invariant 0 <= k <= |kwargs|
      invariant review == ApplyReview(v, kwargs[..k])
    {
      assert kwargs[..k + 1][..k] == kwargs[..k];
      match kwargs[k] {
        case SetRating(x) => review := review.(rating := x);
        case SetComment(c) => review := review.(comment := c);
        case OtherField(_) =>
      }
      k := k + 1;
    }
    assert kwargs[..|kwargs|] == kwargs;
  }

  /** What `update_review` does to the stored review, or the error it raises. */
  function UpdateReviewResult(rows: seq<Review>, id: int, kw: seq<ReviewAssign>): Result<Review, ReviewError> {
    var found := FindReview(rows, id);
    if found.None? then Err(ReviewNotFound)
    else if RatingArg(kw).Some? && !ValidRating(RatingArg(kw).value) then Err(InvalidRating)
    else Ok(ApplyReview(found.value, kw))
  }

  /** The error cases of `update_review`, both ways round, and what a success keeps. */
  lemma UpdateReviewErrors(rows: seq<Review>, id: int, kw: seq<ReviewAssign>)
    ensures UpdateReviewResult(rows, id, kw) == Err(ReviewNotFound) <==> !HasReview(rows, id)
    ensures UpdateReviewResult(rows, id, kw) == Err(InvalidRating) <==>
      HasReview(rows, id) && RatingArg(kw).Some? && !ValidRating(RatingArg(kw).value)
    ensures UpdateReviewResult(rows, id, kw).Ok? ==>
      var old_ := FindReview(rows, id).value;
      var new_ := UpdateReviewResult(rows, id, kw).value;
      new_.id == id && new_.title == old_.title && new_.reviewerId == old_.reviewerId &&
      new_.resourceId == old_.resourceId && new_.createdAt == old_.createdAt
  {
    var found := FindReview(rows, id);
    if found.Some? {
      ApplyReviewFields(found.value, kw);
    }
  }

  /** `user_reviewed_resource`: a count of matching reviews above zero. */
  function UserReviewedResource(rows: seq<Review>, userId: int, resourceId: int): (b: bool)
    ensures b <==> exists k :: 0 <= k < |rows| && rows[k].reviewerId == userId && rows[k].resourceId == resourceId
  {
    var p := (v: Review) => v.reviewerId == userId && v.resourceId == resourceId;
    CountWherePositive(rows, p);
    CountWhere(rows, p) > 0
  }

  // ------------------------------------------------------------------ table

  /** The `reviews` table: its rows in insertion order, and the next primary key. */
  class ReviewTable {
    var rows: seq<Review>
    var nextId: int

    ghost predicate Valid()
      reads this
    {
      ReviewsValid(rows, nextId)
    }

    constructor ()
      ensures Valid() && rows == [] && nextId == 1
    {
      rows := [];
      nextId := 1;
    }

    /** `create_review`: a rating outside 1..5 raises and stores nothing. */
    method CreateReview(userId: int, resourceId: int, rating: int, comment: Option<string>, title: Option<string>, now: int)
      returns (r: Result<Review, ReviewError>)
      requires Valid()
      modifies this
      ensures Valid()
      ensures !ValidRating(rating) ==> r == Err(InvalidRating) && rows == old(rows) && nextId == old(nextId)
      ensures ValidRating(rating) ==>
        r == Ok(Review(old(nextId), userId, resourceId, rating, title, comment, now)) &&
        rows == old(rows) + [r.value] && nextId == old(nextId) + 1
    {
      if !(MIN_RATING <= rating <= MAX_RATING) {
        return Err(InvalidRating);
      }
      var v := Review(nextId, userId, resourceId, rating, title, comment, now);
      rows := rows + [v];
      nextId := nextId + 1;
      return Ok(v);
    }

    /**
     * `get_rating_distribution`: starts from zero for 1..5 and copies the
     * count of every group of the grouped query into the dictionary.
     */
    method RatingDistribution(resourceId: int) returns (dist: map<int, nat>)
      requires Valid()
      ensures dist == Distribution(rows, resourceId)
      ensures dist.Keys == RATINGS
    {
      var results := GroupByRating(OfResource(rows, resourceId));
      dist := CopyGroups(results);
      GroupsGiveDistribution(rows, nextId, resourceId);
      DistributionShape(rows, nextId, resourceId);
    }

    /** `update_review`: the whitelisted `setattr` loop behind the id and rating checks. */
    method UpdateReview(id: int, kwargs: seq<ReviewAssign>) returns (r: Result<Review, ReviewError>)
      requires Valid() && ReviewKwargs(kwargs)
      modifies this
      ensures Valid() && nextId == old(nextId)
      ensures r == UpdateReviewResult(old(rows), id, kwargs)
      ensures rows == if r.Ok? then ReplaceReview(old(rows), id, r.value) else old(rows)
    {
      var found := FindReview(rows, id);
      if found.None? {
        return Err(ReviewNotFound);
      }
      var ratingArg := RatingArg(kwargs);
      if ratingArg.Some? && !(MIN_RATING <= ratingArg.value <= MAX_RATING) {
        return Err(InvalidRating);
      }
      var review := SetAttributes(found.value, kwargs);
      ApplyReviewFields(found.value, kwargs);
      rows := ReplaceReview(rows, id, review);
      return Ok(review);
    }

    /** `delete_review`: `False` when there is no such review, else it is removed. */
    method DeleteReview(id: int) returns (deleted: bool)
      requires Valid()
      modifies this
      ensures Valid() && nextId == old(nextId)
      ensures deleted == HasReview(old(rows), id)
      ensures rows == Filter(old(rows), (v: Review) => v.id != id)
      ensures !HasReview(rows, id)
      ensures !deleted ==> rows == old(rows)
    {
      var found := FindReview(rows, id);
      FilterReviewsValid(rows, nextId, (v: Review) => v.id != id);
      if found.None? {
        FilterAll(rows, (v: Review) => v.id != id);
        return false;
      }
      rows := Filter(rows, (v: Review) => v.id != id);
      return true;
    }

    /** `delete_resource_reviews`: removes every review of the resource and returns how many there were. */
    method DeleteResourceReviews(resourceId: int) returns (count: nat)
      requires Valid()
      modifies this
      ensures Valid() && nextId == old(nextId)
      ensures count == |OfResource(old(rows), resourceId)|
      ensures rows == Filter(old(rows), (v: Review) => v.resourceId != resourceId)
      ensures forall k :: 0 <= k < |rows| ==> rows[k].resourceId != resourceId
      ensures count + |rows| == |old(rows)|
    {
      var p := (v: Review) => v.resourceId == resourceId;
      count := CountWhere(rows, p);
      FilterPartition(rows, p, (v: Review) => v.resourceId != resourceId);
      FilterReviewsValid(rows, nextId, (v: Review) => v.resourceId != resourceId);
      rows := Filter(rows, (v: Review) => v.resourceId != resourceId);
    }

    /** `review_count`. */
    method ReviewCount() returns (n: nat)
      ensures n == |rows|
    {
      return |rows|;
    }
  }
}
