/** The persisted rows the routers read and write (app/models). Each table
    with a `unique_together` pair is held by the router modules as a map
    keyed by that pair, so at most one row per pair exists by construction. */
module Models {
  import opened Base

  /** A persisted user, with the fields the routers and AuthService use. */
  datatype User = User(
    id: int,
    username: string,
    hashedPassword: string,
    age: int,
    gender: string,
    profileImageUrl: Option<string>)

  /** A Follow row; its (follower, following) pair is the key it is stored under.
      A new row has `is_following` True. */
  datatype Follow = Follow(id: int, isFollowing: bool)

  /** A ReviewLike row, stored under its (user, review) pair.
      A new row has `is_liked` True. */
  datatype ReviewLike = ReviewLike(id: int, isLiked: bool)

  datatype ReactionType = Like | Dislike

  /** A MovieReaction row, stored under its (user, movie) pair.
      A new row has type LIKE. */
  datatype MovieReaction = MovieReaction(id: int, reaction: ReactionType)

  datatype Review = Review(
    userId: int,
    movieId: int,
    title: string,
    content: string,
    reviewImageUrl: Option<string>)

  datatype Genre = SF | Romantic | Adventure | Action | Comedy | Horror | Fantasy

  datatype CastMember = CastMember(name: string, role: string)

  datatype Movie = Movie(
    title: string,
    plot: string,
    cast: seq<CastMember>,
    playtime: int,
    genre: Genre,
    posterImageUrl: Option<string>)

  /** A `save` of a row, as the `post_save` handlers see it: whether it
      created the row, and the row as saved. */
  datatype Saved<R> = Saved(created: bool, row: R)
}
