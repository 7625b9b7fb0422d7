/** The like routes of app/routers/likes.py. The review-like table is a map
    keyed by its `unique_together` pair (user id, review id) and the movie
    reaction table one keyed by (user id, movie id), so one row per pair
    exists by construction and a like and a dislike overwrite each other. */
module LikesRouter {
  import opened Base
  import opened Models

  datatype ReviewLikeResponse = ReviewLikeResponse(id: int, userId: int, reviewId: int, isLiked: bool)

  datatype MovieReactionResponse = MovieReactionResponse(id: int, userId: int, movieId: int, reaction: ReactionType)

  /** The review_likes table and the id the next created row receives. */
  datatype ReviewLikeTable = ReviewLikeTable(rows: map<(int, int), ReviewLike>, nextId: int)

  /** The movie_reactions table and the id the next created row receives. */
  datatype ReactionTable = ReactionTable(rows: map<(int, int), MovieReaction>, nextId: int)

  /** `like_review` (lines 20-33): `get_or_create` the row (a new row is
      liked), then set `is_liked` and save if it was unset. The third
      component is the save `post_save` sees, if any. */
  function LikeStep(t: ReviewLikeTable, user: int, review: int): (r: (ReviewLikeTable, ReviewLikeResponse, Option<Saved<ReviewLike>>))
    ensures (user, review) in r.0.rows && r.0.rows[(user, review)].isLiked
    ensures r.1 == ReviewLikeResponse(r.0.rows[(user, review)].id, user, review, true)
    ensures r.2.Some? ==>
      r.2.value.row == r.0.rows[(user, review)] && (r.2.value.created <==> (user, review) !in t.rows)
  {
    var key := (user, review);
    if key !in t.rows then
      var row := ReviewLike(t.nextId, true);
      (ReviewLikeTable(t.rows[key := row], t.nextId + 1), ReviewLikeResponse(row.id, user, review, true), Some(Saved(true, row)))
    else if !t.rows[key].isLiked then
      var row := t.rows[key].(isLiked := true);
      (ReviewLikeTable(t.rows[key := row], t.nextId), ReviewLikeResponse(row.id, user, review, true), Some(Saved(false, row)))
    else
      (t, ReviewLikeResponse(t.rows[key].id, user, review, true), None)
  }

  /** `unlike_review` (lines 41-57): with no row, answer id 0 and not liked
      and create nothing; otherwise unset and save if it was set. */
  function UnlikeStep(t: ReviewLikeTable, user: int, review: int): (r: (ReviewLikeTable, ReviewLikeResponse, Option<Saved<ReviewLike>>))
    ensures r.0.rows.Keys == t.rows.Keys
    ensures (user, review) in r.0.rows ==>
      !r.0.rows[(user, review)].isLiked && r.1 == ReviewLikeResponse(r.0.rows[(user, review)].id, user, review, false)
    ensures (user, review) !in t.rows ==> r.1 == ReviewLikeResponse(0, user, review, false)
    ensures r.2.Some? ==> !r.2.value.created && (user, review) in r.0.rows && r.2.value.row == r.0.rows[(user, review)]
  {
    var key := (user, review);
    if key !in t.rows then
      (t, ReviewLikeResponse(0, user, review, false), None)
    else if t.rows[key].isLiked then
      var row := t.rows[key].(isLiked := false);
      (ReviewLikeTable(t.rows[key := row], t.nextId), ReviewLikeResponse(row.id, user, review, false), Some(Saved(false, row)))
    else
      (t, ReviewLikeResponse(t.rows[key].id, user, review, false), None)
  }

  /** `like_movie` / `dislike_movie` (lines 65-95): `get_or_create` the row (a
      new row is LIKE), then set the wanted type and save if it differs. */
  function ReactStep(t: ReactionTable, user: int, movie: int, wanted: ReactionType): (r: (ReactionTable, MovieReactionResponse, bool))
    ensures r.0.rows.Keys == t.rows.Keys + {(user, movie)}
    ensures r.0.rows[(user, movie)].reaction == wanted
    ensures r.1 == MovieReactionResponse(r.0.rows[(user, movie)].id, user, movie, wanted)
    ensures r.2 <==> if (user, movie) in t.rows then t.rows[(user, movie)].reaction != wanted else wanted != Like
  {
    var key := (user, movie);
    var (rows, nextId) := if key in t.rows then (t.rows, t.nextId)
                          else (t.rows[key := MovieReaction(t.nextId, Like)], t.nextId + 1);
    var row := rows[key];
    if row.reaction != wanted then
      (ReactionTable(rows[key := row.(reaction := wanted)], nextId), MovieReactionResponse(row.id, user, movie, wanted), true)
    else
      (ReactionTable(rows, nextId), MovieReactionResponse(row.id, user, movie, wanted), false)
  }

  /** After a like the pair's row exists and is liked, every other row is as
      it was, and the row is saved only when new or previously unset. */
  lemma LikeActivates(t: ReviewLikeTable, user: int, review: int)
    ensures var (t', resp, saved) := LikeStep(t, user, review);
            && (user, review) in t'.rows && t'.rows[(user, review)].isLiked
            && resp.isLiked && resp.id == t'.rows[(user, review)].id
            && (forall k :: k in t.rows ==> k in t'.rows)
            && (forall k :: k in t.rows && k != (user, review) ==> t'.rows[k] == t.rows[k])
            && t'.rows.Keys == t.rows.Keys + {(user, review)}
            && (saved.Some? <==> (user, review) !in t.rows || !t.rows[(user, review)].isLiked)
  {
  }

  /** Liking twice is liking once. */
  lemma LikeIdempotent(t: ReviewLikeTable, user: int, review: int)
    ensures var t1 := LikeStep(t, user, review).0;
            LikeStep(t1, user, review).0 == t1 && LikeStep(t1, user, review).2 == None
  {
  }

  /** Unliking without a row answers id 0, not liked, and creates nothing;
      with a row it leaves it unset, keeps every other row, and is
      idempotent. */
  lemma UnlikeDeactivates(t: ReviewLikeTable, user: int, review: int)
    ensures (user, review) !in t.rows ==>
      UnlikeStep(t, user, review) == (t, ReviewLikeResponse(0, user, review, false), None)
    ensures var (t', resp, saved) := UnlikeStep(t, user, review);
            && !resp.isLiked
            && t'.rows.Keys == t.rows.Keys
            && ((user, review) in t'.rows ==> !t'.rows[(user, review)].isLiked)
            && (forall k :: k in t.rows && k != (user, review) ==> t'.rows[k] == t.rows[k])
            && (saved.Some? ==> !saved.value.created && !saved.value.row.isLiked)
            && UnlikeStep(t', user, review) == (t', resp, None)
  {
  }

  /** After a like or dislike the pair holds exactly the wanted reaction, in
      one row; the other rows are as they were; it saves only on a change,
      so repeating it changes nothing. A like and a dislike overwrite each
      other rather than accumulate. */
  lemma ReactSetsReaction(t: ReactionTable, user: int, movie: int, wanted: ReactionType)
    ensures var (t', resp, saved) := ReactStep(t, user, movie, wanted);
            && (user, movie) in t'.rows && t'.rows[(user, movie)].reaction == wanted
            && resp.reaction == wanted && resp.id == t'.rows[(user, movie)].id
            && t'.rows.Keys == t.rows.Keys + {(user, movie)}
            && (forall k :: k in t.rows && k != (user, movie) ==> t'.rows[k] == t.rows[k])
            && (saved <==> ((user, movie) in t.rows && t.rows[(user, movie)].reaction != wanted) ||
                           ((user, movie) !in t.rows && wanted == Dislike))
            && ReactStep(t', user, movie, wanted).0 == t'
            && !ReactStep(t', user, movie, wanted).2
  {
  }

  /** A dislike after a like leaves one row, the dislike, with the same id. */
  lemma DislikeOverwritesLike(t: ReactionTable, user: int, movie: int)
    ensures var t1 := ReactStep(t, user, movie, Like).0;
            var t2 := ReactStep(t1, user, movie, Dislike).0;
            t2.rows.Keys == t1.rows.Keys && t2.rows[(user, movie)] == t1.rows[(user, movie)].(reaction := Dislike)
  {
  }

  /** The two tables with the handlers as the router runs them: fetch or
      create the row, change one field, save. */
  class Likes {
    var reviewLikes: map<(int, int), ReviewLike>
    var nextReviewLikeId: int
    var reactions: map<(int, int), MovieReaction>
    var nextReactionId: int

    function ReviewLikes(): ReviewLikeTable
      reads this
    {
      ReviewLikeTable(reviewLikes, nextReviewLikeId)
    }

    function Reactions(): ReactionTable
      reads this
    {
      ReactionTable(reactions, nextReactionId)
    }

    constructor ()
      ensures reviewLikes == map[] && reactions == map[] && nextReviewLikeId == 1 && nextReactionId == 1
    {
      reviewLikes := map[];
      nextReviewLikeId := 1;
      reactions := map[];
      nextReactionId := 1;
    }

    method LikeReview(user: int, review: int) returns (resp: ReviewLikeResponse, saved: Option<Saved<ReviewLike>>)
      modifies this
      ensures (ReviewLikes(), resp, saved) == LikeStep(old(ReviewLikes()), user, review)
      ensures Reactions() == old(Reactions())
    {
      var key := (user, review);
      saved := None;
      if key !in reviewLikes {
        reviewLikes := reviewLikes[key := ReviewLike(nextReviewLikeId, true)];
        nextReviewLikeId := nextReviewLikeId + 1;
        saved := Some(Saved(true, reviewLikes[key]));
      }
      var like := reviewLikes[key];
      if !like.isLiked {
        like := like.(isLiked := true);
        reviewLikes := reviewLikes[key := like];
        saved := Some(Saved(false, like));
      }
      resp := ReviewLikeResponse(like.id, user, review, like.isLiked);
    }

    method UnlikeReview(user: int, review: int) returns (resp: ReviewLikeResponse, saved: Option<Saved<ReviewLike>>)
      modifies this
      ensures (ReviewLikes(), resp, saved) == UnlikeStep(old(ReviewLikes()), user, review)
      ensures Reactions() == old(Reactions())
    {
      var key := (user, review);
      saved := None;
      if key !in reviewLikes {
        return ReviewLikeResponse(0, user, review, false), None;
      }
      var like := reviewLikes[key];
      if like.isLiked {
        like := like.(isLiked := false);
        reviewLikes := reviewLikes[key := like];
        saved := Some(Saved(false, like));
      }
      resp := ReviewLikeResponse(like.id, user, review, like.isLiked);
    }

    /** `like_movie` with `wanted` LIKE, `dislike_movie` with DISLIKE. */
    method ReactToMovie(user: int, movie: int, wanted: ReactionType) returns (resp: MovieReactionResponse, saved: bool)
      modifies this
      ensures (Reactions(), resp, saved) == ReactStep(old(Reactions()), user, movie, wanted)
      ensures ReviewLikes() == old(ReviewLikes())
    {
      var key := (user, movie);
      if key !in reactions {
        reactions := reactions[key := MovieReaction(nextReactionId, Like)];
        nextReactionId := nextReactionId + 1;
      }
      var reaction := reactions[key];
      saved := false;
      if reaction.reaction != wanted {
        reaction := reaction.(reaction := wanted);
        reactions := reactions[key := reaction];
        saved := true;
      }
      resp := MovieReactionResponse(reaction.id, user, movie, reaction.reaction);
    }
  }
}
