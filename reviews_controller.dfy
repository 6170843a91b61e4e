/**
 * The review endpoints: the validation and authorization chains of create,
 * update and delete, each a decision function over the table's rows, and
 * the endpoint methods that apply a decision to the review table. Through
 * these endpoints a user never holds two reviews of the same resource.
 */
module ReviewsController {
  import opened Common
  import opened PySeq
  import opened Strings
  import opened Models
  import opened ReviewDal
  import opened Http

  const MAX_COMMENT_LENGTH := 2000

  /** At most one review per (reviewer, resource) pair. */
  predicate OnePerUser(rows: seq<Review>) {
    forall i, j :: 0 <= i < j < |rows| ==>
      !(rows[i].reviewerId == rows[j].reviewerId && rows[i].resourceId == rows[j].resourceId)
  }

  /** The JSON `rating` value: `null`, one `int()` refuses, or the integer `int()` makes of it. */
  datatype RatingValue = NoValue | NotInteger | AsInt(n: int)

  /** `int(value)` followed by the 1..5 range test; `None` means the request is refused with 400. */
  function RatingOf(v: RatingValue): (r: Option<int>)
    ensures r.Some? <==> v.AsInt? && ValidRating(v.n)
    ensures r.Some? ==> r.value == v.n
  {
    if v.AsInt? && MIN_RATING <= v.n <= MAX_RATING then Some(v.n) else None
  }

  /** `comment if comment else None`. */
  function CommentOrNone(c: string): (r: Option<string>)
    ensures r.None? <==> c == ""
    ensures r.Some? ==> r.value == c
  {
    if c == "" then None else Some(c)
  }

  // ------------------------------------------------------------------ create

  /** The JSON `comment` value: absent, not a string (so `.strip()` raises), or a string. */
  datatype CommentValue = NoComment | NotText | Text(s: string)

  /** The JSON body of a create request; `None` stands for no body or an empty one. */
  datatype CreateReviewRequest = CreateReviewRequest(resourceId: Option<int>, rating: RatingValue, comment: CommentValue)

  datatype CreateReviewOutcome =
    | CreateReviewRejected(status: Status)
    | CreateReviewAccepted(resourceId: int, rating: int, comment: Option<string>)

  /** `data.get('comment', '').strip()`, or `None` when `.strip()` raises. */
  function StrippedComment(c: CommentValue): (r: Option<string>)
    ensures c.NotText? <==> r.None?
    ensures c.NoComment? ==> r == Some("")
    ensures c.Text? ==> r == Some(Strip(c.s))
  {
    match c
    case NoComment => Some("")
    case NotText => None
    case Text(s) => Some(Strip(s))
  }

  /** The guard chain of `create_review`, in the source's order. */
  function CreateReviewDecision(rows: seq<Review>, resources: set<int>, caller: User, body: Option<CreateReviewRequest>): CreateReviewOutcome {
    if body.None? then CreateReviewRejected(BadRequest400)
    else
      var req := body.value;
      var comment := StrippedComment(req.comment);
      if comment.None? then CreateReviewRejected(ServerError500)
      else if !TruthyInt(req.resourceId) then CreateReviewRejected(BadRequest400)
      else if req.rating.NoValue? then CreateReviewRejected(BadRequest400)
      else if RatingOf(req.rating).None? then CreateReviewRejected(BadRequest400)
      else if req.resourceId.value !in resources then CreateReviewRejected(NotFound404)
      else if |comment.value| > MAX_COMMENT_LENGTH then CreateReviewRejected(BadRequest400)
      else if UserReviewedResource(rows, caller.id, req.resourceId.value) then CreateReviewRejected(Conflict409)
      else CreateReviewAccepted(req.resourceId.value, req.rating.n, CommentOrNone(comment.value))
  }

  /**
   * Each answer of create and the exact condition that produces it: a later
   * guard is reached only when every earlier one passed.
   */
  lemma CreateReviewGuardOrder(rows: seq<Review>, resources: set<int>, caller: User, req: CreateReviewRequest)
    ensures var stripped := !req.comment.NotText?;
      var present := stripped && TruthyInt(req.resourceId) && !req.rating.NoValue?;
      var rated := present && req.rating.AsInt? && ValidRating(req.rating.n);
      var known := rated && req.resourceId.value in resources;
      var short := known && |StrippedComment(req.comment).value| <= MAX_COMMENT_LENGTH;
      var fresh_ := short && !(exists k :: 0 <= k < |rows| && rows[k].reviewerId == caller.id && rows[k].resourceId == req.resourceId.value);
      var out := CreateReviewDecision(rows, resources, caller, Some(req));
      (out == CreateReviewRejected(ServerError500) <==> !stripped) &&
      (out == CreateReviewRejected(BadRequest400) <==> (stripped && !rated) || (known && !short)) &&
      (out == CreateReviewRejected(NotFound404) <==> rated && !known) &&
      (out == CreateReviewRejected(Conflict409) <==> short && !fresh_) &&
      (out.CreateReviewAccepted? <==> fresh_)
  {
  }

  /**
   * What create stores: a valid rating for an existing resource the caller
   * has not reviewed, and a comment that is either `None` or a stripped,
   * non-empty text of at most 2000 characters.
   */
  lemma CreatedReviewIsClean(rows: seq<Review>, resources: set<int>, caller: User, body: Option<CreateReviewRequest>)
    requires CreateReviewDecision(rows, resources, caller, body).CreateReviewAccepted?
    ensures var out := CreateReviewDecision(rows, resources, caller, body);
      ValidRating(out.rating) && out.resourceId in resources &&
      !UserReviewedResource(rows, caller.id, out.resourceId) &&
      (out.comment.Some? ==>
        0 < |out.comment.value| <= MAX_COMMENT_LENGTH &&
        !IsSpace(out.comment.value[0]) && !IsSpace(out.comment.value[|out.comment.value| - 1]))
  {
  }

  /** A blank comment, or none at all, is stored as `None`. */
  lemma BlankCommentStoredAsNone(rows: seq<Review>, resources: set<int>, caller: User, req: CreateReviewRequest)
    requires req.comment.NoComment? || (req.comment.Text? && Strip(req.comment.s) == "")
    requires CreateReviewDecision(rows, resources, caller, Some(req)).CreateReviewAccepted?
    ensures CreateReviewDecision(rows, resources, caller, Some(req)).comment.None?
  {
  }

  /** The limit applies to the stripped comment: surrounding blanks do not count. */
  lemma CommentLimitAfterStrip(rows: seq<Review>, resources: set<int>, caller: User, req: CreateReviewRequest)
    requires req.comment.Text? && |Strip(req.comment.s)| <= MAX_COMMENT_LENGTH
    requires TruthyInt(req.resourceId) && req.rating.AsInt? && ValidRating(req.rating.n)
    requires req.resourceId.value in resources
    ensures CreateReviewDecision(rows, resources, caller, Some(req)) != CreateReviewRejected(BadRequest400)
  {
  }

  /** Appending a review for a pair with no review keeps one review per pair. */
  lemma AppendKeepsOnePerUser(rows: seq<Review>, v: Review)
    requires OnePerUser(rows)
    requires !UserReviewedResource(rows, v.reviewerId, v.resourceId)
    ensures OnePerUser(rows + [v])
  {
    var r := rows + [v];
    forall i, j | 0 <= i < j < |r|
      ensures !(r[i].reviewerId == r[j].reviewerId && r[i].resourceId == r[j].resourceId)
    {
      if j == |rows| {
        assert r[i] == rows[i];
      } else {
        assert r[i] == rows[i] && r[j] == rows[j];
      }
    }
  }

  /** `POST /reviews`: run the guard chain, then store the review. */
  method CreateReviewEndpoint(table: ReviewTable, caller: User, resources: set<int>, body: Option<CreateReviewRequest>, now: int)
    returns (status: Status, created: Option<Review>)
    requires table.Valid()
    modifies table
    ensures table.Valid()
    ensures CreateReviewDecision(old(table.rows), resources, caller, body).CreateReviewRejected? ==>
      status == CreateReviewDecision(old(table.rows), resources, caller, body).status &&
      created.None? && table.rows == old(table.rows)
    ensures CreateReviewDecision(old(table.rows), resources, caller, body).CreateReviewAccepted? ==>
      var out := CreateReviewDecision(old(table.rows), resources, caller, body);
      status == Created201 &&
      created == Some(Review(old(table.nextId), caller.id, out.resourceId, out.rating, None, out.comment, now)) &&
      table.rows == old(table.rows) + [created.value]
    ensures OnePerUser(old(table.rows)) ==> OnePerUser(table.rows)
  {
    var out := CreateReviewDecision(table.rows, resources, caller, body);
    if out.CreateReviewRejected? {
      return out.status, None;
    }
    var r := table.CreateReview(caller.id, out.resourceId, out.rating, out.comment, None, now);
    if OnePerUser(old(table.rows)) {
      AppendKeepsOnePerUser(old(table.rows), r.value);
    }
    return Created201, Some(r.value);
  }

  // ------------------------------------------------------------------ update

  datatype RatingField = RatingAbsent | RatingGiven(value: RatingValue)

  /** The `comment` key: absent, a falsy value, a truthy value that is not a string, or a string. */
  datatype CommentField = CommentAbsent | CommentFalsy | CommentNonText | CommentText(s: string)

  /** The JSON body of an update request; `None` stands for no body or an empty one. */
  datatype UpdateReviewRequest = UpdateReviewRequest(rating: RatingField, comment: CommentField)

  datatype UpdateReviewOutcome = UpdateReviewRejected(status: Status) | UpdateReviewApplied(fields: seq<ReviewAssign>)

  /** Owner or admin: the authorization rule of update and delete. */
  predicate MayChange(caller: User, v: Review) {
    v.reviewerId == caller.id || IsAdmin(caller)
  }

  /** The `rating` part of `update_data`, or the refusal. */
  function RatingUpdate(f: RatingField): (r: Result<seq<ReviewAssign>, Status>)
    ensures r.Err? ==> r.error == BadRequest400
    ensures r.Ok? ==> r.value == [] || (|r.value| == 1 && r.value[0].SetRating? && ValidRating(r.value[0].rating))
    ensures r.Ok? && r.value == [] <==> f.RatingAbsent?
  {
    match f
    case RatingAbsent => Ok([])
    case RatingGiven(v) =>
      var rating := RatingOf(v);
      if rating.None? then Err(BadRequest400) else Ok([SetRating(rating.value)])
  }

  /**
   * The `comment` part of `update_data`, or the refusal: a falsy value
   * becomes `None`, a string is stripped and then limited to 2000 characters
   * unless it is empty, and anything else makes `.strip()` raise.
   */
  function CommentUpdate(f: CommentField): (r: Result<seq<ReviewAssign>, Status>)
    ensures r.Err? ==> r.error == BadRequest400 || r.error == ServerError500
    ensures r.Ok? ==> r.value == [] || (|r.value| == 1 && r.value[0].SetComment?)
    ensures r.Ok? && r.value == [] <==> f.CommentAbsent?
  {
    match f
    case CommentAbsent => Ok([])
    case CommentFalsy => Ok([SetComment(None)])
    case CommentNonText => Err(ServerError500)
    case CommentText(s) =>
      if s == "" then Ok([SetComment(None)])
      else
        var c := Strip(s);
        if c != "" && |c| > MAX_COMMENT_LENGTH then Err(BadRequest400) else Ok([SetComment(Some(c))])
  }

  /** The guard chain of `update_review`, in the source's order. */
  function UpdateReviewDecision(rows: seq<Review>, caller: User, id: int, body: Option<UpdateReviewRequest>): UpdateReviewOutcome {
    var found := FindReview(rows, id);
    if found.None? then UpdateReviewRejected(NotFound404)
    else if !MayChange(caller, found.value) then UpdateReviewRejected(Forbidden403)
    else if body.None? then UpdateReviewRejected(BadRequest400)
    else
      var rating := RatingUpdate(body.value.rating);
      if rating.Err? then UpdateReviewRejected(rating.error)
      else
        var comment := CommentUpdate(body.value.comment);
        if comment.Err? then UpdateReviewRejected(comment.error)
        else if rating.value + comment.value == [] then UpdateReviewRejected(BadRequest400)
        else UpdateReviewApplied(rating.value + comment.value)
  }

  /** Only the reviewer or an admin gets past the first two guards; everyone else gets 403. */
  lemma UpdateReviewAuthorization(rows: seq<Review>, caller: User, id: int, body: Option<UpdateReviewRequest>)
    ensures UpdateReviewDecision(rows, caller, id, body) == UpdateReviewRejected(NotFound404) ==> !HasReview(rows, id)
    ensures UpdateReviewDecision(rows, caller, id, body) == UpdateReviewRejected(Forbidden403) <==>
      HasReview(rows, id) && !MayChange(caller, FindReview(rows, id).value)
    ensures UpdateReviewDecision(rows, caller, id, body).UpdateReviewApplied? ==>
      HasReview(rows, id) && MayChange(caller, FindReview(rows, id).value)
  {
  }

  /**
   * An applied update is a dict of at most one rating and one comment, with
   * a valid rating, so the data layer accepts it.
   */
  lemma UpdateReviewFieldsWellFormed(rows: seq<Review>, caller: User, id: int, body: Option<UpdateReviewRequest>)
    requires UpdateReviewDecision(rows, caller, id, body).UpdateReviewApplied?
    ensures var fields := UpdateReviewDecision(rows, caller, id, body).fields;
      ReviewKwargs(fields) && 1 <= |fields| <= 2 &&
      (RatingArg(fields).Some? ==> ValidRating(RatingArg(fields).value)) &&
      UpdateReviewResult(rows, id, fields).Ok?
  {
    var rating := RatingUpdate(body.value.rating).value;
    var comment := CommentUpdate(body.value.comment).value;
    RatingThenCommentWellFormed(rating, comment);
  }

  /** A rating part followed by a comment part names each key once and carries a valid rating. */
  lemma RatingThenCommentWellFormed(rating: seq<ReviewAssign>, comment: seq<ReviewAssign>)
    requires rating == [] || (|rating| == 1 && rating[0].SetRating? && ValidRating(rating[0].rating))
    requires comment == [] || (|comment| == 1 && comment[0].SetComment?)
    requires rating + comment != []
    ensures var fields := rating + comment;
      ReviewKwargs(fields) && 1 <= |fields| <= 2 &&
      (RatingArg(fields).Some? ==> ValidRating(RatingArg(fields).value))
  {
    var fields := rating + comment;
    if |fields| == 2 {
      assert fields[1].SetComment? && fields[0].SetRating?;
      assert fields[..1] == rating;
      assert RatingArg(fields) == RatingArg(rating);
    } else if fields[0].SetRating? {
      assert fields == rating;
    }
  }

  /** A body with neither key is refused as an empty update. */
  lemma UpdateReviewEmptyRejected(rows: seq<Review>, caller: User, id: int)
    requires HasReview(rows, id) && MayChange(caller, FindReview(rows, id).value)
    ensures UpdateReviewDecision(rows, caller, id, Some(UpdateReviewRequest(RatingAbsent, CommentAbsent))) ==
      UpdateReviewRejected(BadRequest400)
  {
  }

  /**
   * Unlike create, update stores a comment made only of blanks as the empty
   * string: the falsiness test runs before stripping.
   */
  lemma UpdateBlankCommentStoredEmpty(rows: seq<Review>, caller: User, id: int)
    requires HasReview(rows, id) && MayChange(caller, FindReview(rows, id).value)
    ensures UpdateReviewDecision(rows, caller, id, Some(UpdateReviewRequest(RatingAbsent, CommentText("   ")))) ==
      UpdateReviewApplied([SetComment(Some(""))])
  {
    assert IsSpace(' ');
    assert Strip("   ") == "";
  }

  /** A rating error is reported before any comment error. */
  lemma UpdateRatingCheckedFirst(rows: seq<Review>, caller: User, id: int, v: RatingValue, c: CommentField)
    requires HasReview(rows, id) && MayChange(caller, FindReview(rows, id).value)
    requires RatingOf(v).None?
    ensures UpdateReviewDecision(rows, caller, id, Some(UpdateReviewRequest(RatingGiven(v), c))) ==
      UpdateReviewRejected(BadRequest400)
  {
  }

  /** Replacing a review by one with the same reviewer and resource keeps one review per pair. */
  lemma ReplaceKeepsOnePerUser(rows: seq<Review>, nextId: int, id: int, v: Review)
    requires ReviewsValid(rows, nextId) && OnePerUser(rows) && HasReview(rows, id)
    requires v.reviewerId == FindReview(rows, id).value.reviewerId && v.resourceId == FindReview(rows, id).value.resourceId
    ensures OnePerUser(ReplaceReview(rows, id, v))
  {
    var w := FindReview(rows, id).value;
    var r := ReplaceReview(rows, id, v);
    forall i, j | 0 <= i < j < |r|
      ensures !(r[i].reviewerId == r[j].reviewerId && r[i].resourceId == r[j].resourceId)
    {
      if rows[i].id == id {
        var k :| 0 <= k < |rows| && rows[k] == w;
        assert k == i;
      }
      if rows[j].id == id {
        var k :| 0 <= k < |rows| && rows[k] == w;
        assert k == j;
      }
    }
  }

  /** An applied update is accepted by the data layer and keeps one review per pair. */
  lemma UpdateKeepsOnePerUser(rows: seq<Review>, nextId: int, caller: User, id: int, body: Option<UpdateReviewRequest>)
    requires ReviewsValid(rows, nextId)
    requires UpdateReviewDecision(rows, caller, id, body).UpdateReviewApplied?
    ensures var fields := UpdateReviewDecision(rows, caller, id, body).fields;
      ReviewKwargs(fields) && UpdateReviewResult(rows, id, fields).Ok? &&
      (OnePerUser(rows) ==> OnePerUser(ReplaceReview(rows, id, UpdateReviewResult(rows, id, fields).value)))
  {
    var fields := UpdateReviewDecision(rows, caller, id, body).fields;
    UpdateReviewFieldsWellFormed(rows, caller, id, body);
    var w := FindReview(rows, id).value;
    ApplyReviewFields(w, fields);
    if OnePerUser(rows) {
      ReplaceKeepsOnePerUser(rows, nextId, id, UpdateReviewResult(rows, id, fields).value);
    }
  }

  /** `PUT /reviews/<id>`: run the guard chain, then apply the update through the data layer. */
  method UpdateReviewEndpoint(table: ReviewTable, caller: User, id: int, body: Option<UpdateReviewRequest>)
    returns (status: Status)
    requires table.Valid()
    modifies table
    ensures table.Valid() && table.nextId == old(table.nextId)
    ensures UpdateReviewDecision(old(table.rows), caller, id, body).UpdateReviewRejected? ==>
      status == UpdateReviewDecision(old(table.rows), caller, id, body).status && table.rows == old(table.rows)
    ensures UpdateReviewDecision(old(table.rows), caller, id, body).UpdateReviewApplied? ==>
      var fields := UpdateReviewDecision(old(table.rows), caller, id, body).fields;
      status == Ok200 && UpdateReviewResult(old(table.rows), id, fields).Ok? &&
      table.rows == ReplaceReview(old(table.rows), id, UpdateReviewResult(old(table.rows), id, fields).value)
    ensures OnePerUser(old(table.rows)) ==> OnePerUser(table.rows)
  {
    var out := UpdateReviewDecision(table.rows, caller, id, body);
    if out.UpdateReviewRejected? {
      return out.status;
    }
    UpdateKeepsOnePerUser(table.rows, table.nextId, caller, id, body);
    var r := table.UpdateReview(id, out.fields);
    return Ok200;
  }

  // ------------------------------------------------------------------ delete

  /** The guard chain of `delete_review`. */
  function DeleteReviewDecision(rows: seq<Review>, caller: User, id: int): (s: Status)
    ensures s == NotFound404 <==> !HasReview(rows, id)
    ensures s == Forbidden403 <==> HasReview(rows, id) && !MayChange(caller, FindReview(rows, id).value)
    ensures s == Ok200 <==> HasReview(rows, id) && MayChange(caller, FindReview(rows, id).value)
  {
    var found := FindReview(rows, id);
    if found.None? then NotFound404
    else if !MayChange(caller, found.value) then Forbidden403
    else Ok200
  }

  /** `DELETE /reviews/<id>`: the reviewer or an admin removes the review. */
  method DeleteReviewEndpoint(table: ReviewTable, caller: User, id: int) returns (status: Status)
    requires table.Valid()
    modifies table
    ensures table.Valid() && table.nextId == old(table.nextId)
    ensures status == DeleteReviewDecision(old(table.rows), caller, id)
    ensures status == Ok200 ==> table.rows == Filter(old(table.rows), (v: Review) => v.id != id)
    ensures status != Ok200 ==> table.rows == old(table.rows)
    ensures OnePerUser(old(table.rows)) ==> OnePerUser(table.rows)
  {
    status := DeleteReviewDecision(table.rows, caller, id);
    if status != Ok200 {
      return;
    }
    var deleted := table.DeleteReview(id);
    if OnePerUser(old(table.rows)) {
      FilterPairwise(old(table.rows), (v: Review) => v.id != id,
        (a: Review, b: Review) => !(a.reviewerId == b.reviewerId && a.resourceId == b.resourceId));
    }
  }
}
