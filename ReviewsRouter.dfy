/** The review routes of app/routers/reviews.py that hold logic: lookup with
    404, owner-only update and delete (404 checked before 403), the partial
    update with image replacement, and the like count and "is liked"
    queries over the review-like table. The reviews table maps review id to
    row. An uploaded image is its filename and the uuid4 hex `upload_file`
    would draw; the stored URL is the one `upload_file` returns. */
module ReviewsRouter {
  import opened Base
  import opened Models
  import FileUtils
  import LikesRouter

  const REVIEW_NOT_FOUND := "Review does not exist"
  const UPDATE_FORBIDDEN := "Only the review owner can update reviews"
  const DELETE_FORBIDDEN := "Only the review owner can delete review."
  const REVIEW_IMAGE_DIR := "reviews/images"

  /** An uploaded image: its filename (None when the client sent none) and
      the uuid4 hex its stored name gets. */
  datatype Upload = Upload(filename: Option<string>, hex: string)

  /** `get_review`: the row, or 404. */
  function GetReview(rows: map<int, Review>, id: int): (r: Outcome<Review>)
    ensures r.Returns? <==> id in rows
    ensures r.Returns? ==> r.value == rows[id]
    ensures r.Raises? ==> r.exc == HttpException(404, REVIEW_NOT_FOUND)
  {
    if id !in rows then Raises(HttpException(404, REVIEW_NOT_FOUND)) else Returns(rows[id])
  }

  /** The outcome of `update_review`: the new table, what the route returns,
      and the URL of the file it deletes, if any. */
  datatype UpdateResult = UpdateResult(rows: map<int, Review>, response: Outcome<Review>, deletedFile: Option<string>)

  /** `update_review` (lines 85-112). */
  function UpdateReviewStep(rows: map<int, Review>, user: int, id: int,
                            title: Option<string>, content: Option<string>, image: Option<Upload>): (r: UpdateResult)
    ensures r.response.Returns? <==> id in rows && rows[id].userId == user
    ensures r.response.Raises? ==> r.rows == rows && r.deletedFile == None
    ensures r.response.Returns? ==>
      r.rows == rows[id := r.response.value] && r.response.value.userId == user &&
      r.deletedFile == (if image.Some? then rows[id].reviewImageUrl else None)
  {
    if id !in rows then UpdateResult(rows, Raises(HttpException(404, REVIEW_NOT_FOUND)), None)
    else if rows[id].userId != user then UpdateResult(rows, Raises(HttpException(403, UPDATE_FORBIDDEN)), None)
    else
      var prev := rows[id];
      var review := prev.(title := if title.Some? then title.value else prev.title,
                          content := if content.Some? then content.value else prev.content,
                          reviewImageUrl := if image.Some?
                                            then Some(FileUtils.UploadUrl(image.value.filename, REVIEW_IMAGE_DIR, image.value.hex))
                                            else prev.reviewImageUrl);
      var deleted := if image.Some? then prev.reviewImageUrl else None;
      UpdateResult(rows[id := review], Returns(review), deleted)
  }

  /** `delete_review` (lines 120-129): the new table and what the route does. */
  function DeleteReviewStep(rows: map<int, Review>, user: int, id: int): (r: (map<int, Review>, Outcome<()>))
    ensures r.1.Returns? <==> id in rows && rows[id].userId == user
    ensures r.1.Returns? ==> r.0.Keys == rows.Keys - {id} && forall k :: k in r.0 ==> r.0[k] == rows[k]
    ensures r.1.Raises? ==> r.0 == rows
  {
    if id !in rows then (rows, Raises(HttpException(404, REVIEW_NOT_FOUND)))
    else if rows[id].userId != user then (rows, Raises(HttpException(403, DELETE_FORBIDDEN)))
    else (rows - {id}, Returns(()))
  }

  /** A missing review is 404 for everyone, before ownership is looked at,
      and nothing changes. */
  lemma MissingReviewIs404(rows: map<int, Review>, user: int, id: int,
                           title: Option<string>, content: Option<string>, image: Option<Upload>)
    requires id !in rows
    ensures UpdateReviewStep(rows, user, id, title, content, image) ==
            UpdateResult(rows, Raises(HttpException(404, REVIEW_NOT_FOUND)), None)
    ensures DeleteReviewStep(rows, user, id) == (rows, Raises(HttpException(404, REVIEW_NOT_FOUND)))
  {
  }

  /** Someone other than the author gets 403 and changes nothing, deletes no
      file. */
  lemma NonOwnerIs403(rows: map<int, Review>, user: int, id: int,
                      title: Option<string>, content: Option<string>, image: Option<Upload>)
    requires id in rows && rows[id].userId != user
    ensures UpdateReviewStep(rows, user, id, title, content, image) ==
            UpdateResult(rows, Raises(HttpException(403, UPDATE_FORBIDDEN)), None)
    ensures DeleteReviewStep(rows, user, id) == (rows, Raises(HttpException(403, DELETE_FORBIDDEN)))
  {
  }

  /** The author's update: a field sent as None keeps its value; a new image
      replaces the URL with the uploaded one, and the old file is deleted
      exactly when there was one; nothing else in the table changes. */
  lemma OwnerUpdate(rows: map<int, Review>, user: int, id: int,
                    title: Option<string>, content: Option<string>, image: Option<Upload>)
    requires id in rows && rows[id].userId == user
    ensures var u := UpdateReviewStep(rows, user, id, title, content, image);
            && u.response.Returns? && u.rows.Keys == rows.Keys && u.rows[id] == u.response.value
            && (forall k :: k in rows && k != id ==> u.rows[k] == rows[k])
            && u.rows[id].userId == rows[id].userId && u.rows[id].movieId == rows[id].movieId
            && (title.None? ==> u.rows[id].title == rows[id].title)
            && (title.Some? ==> u.rows[id].title == title.value)
            && (content.None? ==> u.rows[id].content == rows[id].content)
            && (content.Some? ==> u.rows[id].content == content.value)
            && (image.None? ==> u.rows[id].reviewImageUrl == rows[id].reviewImageUrl && u.deletedFile.None?)
            && (image.Some? ==> u.rows[id].reviewImageUrl.Some? &&
                                StartsWith(u.rows[id].reviewImageUrl.value, REVIEW_IMAGE_DIR + "/"))
            && (u.deletedFile.Some? <==> image.Some? && rows[id].reviewImageUrl.Some?)
            && (u.deletedFile.Some? ==> u.deletedFile == rows[id].reviewImageUrl)
  {
  }

  /** After the author deletes a review, looking it up is 404; every other
      review stays. */
  lemma DeleteThenGet(rows: map<int, Review>, user: int, id: int)
    requires id in rows && rows[id].userId == user
    ensures var (rows', r) := DeleteReviewStep(rows, user, id);
            r.Returns? && GetReview(rows', id) == Raises(HttpException(404, REVIEW_NOT_FOUND)) &&
            forall k :: k in rows && k != id ==> GetReview(rows', k) == GetReview(rows, k)
  {
  }

  /** The reviews table with the two mutating routes as the router runs them. */
  class Reviews {
    var rows: map<int, Review>

    constructor (rows: map<int, Review>)
      ensures this.rows == rows
    {
      this.rows := rows;
    }

    method UpdateReview(user: int, id: int, title: Option<string>, content: Option<string>, image: Option<Upload>)
      returns (response: Outcome<Review>, deletedFile: Option<string>)
      modifies this
      ensures UpdateResult(rows, response, deletedFile) == UpdateReviewStep(old(rows), user, id, title, content, image)
    {
      deletedFile := None;
      if id !in rows {
        return Raises(HttpException(404, REVIEW_NOT_FOUND)), None;
      }
      var review := rows[id];
      if review.userId != user {
        return Raises(HttpException(403, UPDATE_FORBIDDEN)), None;
      }
      review := review.(title := if title.Some? then title.value else review.title);
      review := review.(content := if content.Some? then content.value else review.content);
      if image.Some? {
        var prevImageUrl := review.reviewImageUrl;
        review := review.(reviewImageUrl := Some(FileUtils.UploadUrl(image.value.filename, REVIEW_IMAGE_DIR, image.value.hex)));
        if prevImageUrl.Some? {
          deletedFile := prevImageUrl;
        }
      }
      rows := rows[id := review];
      response := Returns(review);
    }

    method DeleteReview(user: int, id: int) returns (response: Outcome<()>)
      modifies this
      ensures (rows, response) == DeleteReviewStep(old(rows), user, id)
    {
      if id !in rows {
        return Raises(HttpException(404, REVIEW_NOT_FOUND));
      }
      if rows[id].userId != user {
        return Raises(HttpException(403, DELETE_FORBIDDEN));
      }
      rows := rows - {id};
      response := Returns(());
    }
  }

  /** The (user, review) keys of the rows that count as likes of `review`. */
  function LikersOf(likes: map<(int, int), ReviewLike>, review: int): set<(int, int)>
  {
    set k | k in likes && k.1 == review && likes[k].isLiked
  }

  /** `get_review_like_count`: the number of rows for the review with
      `is_liked` True. */
  function LikeCount(likes: map<(int, int), ReviewLike>, review: int): (r: nat)
    ensures r == 0 <==> forall k :: k in likes && k.1 == review ==> !likes[k].isLiked
  {
    LikersEmpty(likes, review);
    |LikersOf(likes, review)|
  }

  /** No liker is no liked row for the review. */
  lemma LikersEmpty(likes: map<(int, int), ReviewLike>, review: int)
    ensures LikersOf(likes, review) == {} <==> forall k :: k in likes && k.1 == review ==> !likes[k].isLiked
  {
    forall k | k in likes && k.1 == review && likes[k].isLiked
      ensures k in LikersOf(likes, review)
    {
    }
    if LikersOf(likes, review) != {} {
      var x :| x in LikersOf(likes, review);
    }
  }

  /** `get_user_review_is_liked`: False without a row, the row's flag
      otherwise. */
  function IsLiked(likes: map<(int, int), ReviewLike>, user: int, review: int): (r: bool)
    ensures r <==> (user, review) in likes && likes[(user, review)].isLiked
  {
    if (user, review) !in likes then false else likes[(user, review)].isLiked
  }

  /** Changing the row under one key changes a review's count only by
      whether that key counts before and after. */
  lemma CountApartFrom(likes: map<(int, int), ReviewLike>, likes': map<(int, int), ReviewLike>, key: (int, int), review: int)
    requires likes'.Keys - {key} == likes.Keys - {key}
    requires forall k :: k in likes && k != key ==> k in likes' && likes'[k] == likes[k]
    ensures LikeCount(likes', review) + (if key in LikersOf(likes, review) then 1 else 0) ==
            LikeCount(likes, review) + (if key in LikersOf(likes', review) then 1 else 0)
  {
    var a, a' := LikersOf(likes, review), LikersOf(likes', review);
    assert a' - {key} == a - {key} by {
      forall k | k != key
        ensures k in a' <==> k in a
      {
        assert (k in likes.Keys - {key}) == (k in likes'.Keys - {key});
      }
    }
    if key in a {
      assert a == (a - {key}) + {key};
    } else {
      assert a == a - {key};
    }
    if key in a' {
      assert a' == (a' - {key}) + {key};
    } else {
      assert a' == a' - {key};
    }
  }

  /** A like raises the review's count by one when it was not already
      liked by that user, and leaves the count of every other review. */
  lemma LikeCountAfterLike(t: LikesRouter.ReviewLikeTable, user: int, review: int, other: int)
    requires other != review
    ensures var t' := LikesRouter.LikeStep(t, user, review).0;
            && LikeCount(t'.rows, review) == LikeCount(t.rows, review) + (if IsLiked(t.rows, user, review) then 0 else 1)
            && LikeCount(t'.rows, other) == LikeCount(t.rows, other)
            && IsLiked(t'.rows, user, review)
  {
    var t' := LikesRouter.LikeStep(t, user, review).0;
    var key := (user, review);
    LikesRouter.LikeActivates(t, user, review);
    CountApartFrom(t.rows, t'.rows, key, review);
    CountApartFrom(t.rows, t'.rows, key, other);
  }

  /** An unlike lowers the review's count by one when it was liked by that
      user, and leaves the count of every other review. */
  lemma LikeCountAfterUnlike(t: LikesRouter.ReviewLikeTable, user: int, review: int, other: int)
    requires other != review
    ensures var t' := LikesRouter.UnlikeStep(t, user, review).0;
            && LikeCount(t'.rows, review) + (if IsLiked(t.rows, user, review) then 1 else 0) == LikeCount(t.rows, review)
            && LikeCount(t'.rows, other) == LikeCount(t.rows, other)
            && !IsLiked(t'.rows, user, review)
  {
    var t' := LikesRouter.UnlikeStep(t, user, review).0;
    var key := (user, review);
    LikesRouter.UnlikeDeactivates(t, user, review);
    CountApartFrom(t.rows, t'.rows, key, review);
    CountApartFrom(t.rows, t'.rows, key, other);
  }
}
