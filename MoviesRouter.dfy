/** The movie routes of app/routers/movies.py that hold logic: lookup with
    404, the partial update, delete, and the search filter built from the
    query parameters that are not None. The movies table maps movie id to
    row; `HTTPException(status_code=404)` carries the default detail
    "Not Found". */
module MoviesRouter {
  import opened Base
  import opened Models

  const NOT_FOUND := HttpException(404, "Not Found")

  /** Query parameters of `get_movies` (MovieSearchParams); None is an absent
      parameter. */
  datatype MovieSearchParams = MovieSearchParams(title: Option<string>, genre: Option<Genre>)

  /** Body of `update_movie` (MovieUpdateRequest); None is an absent field. */
  datatype MovieUpdateRequest = MovieUpdateRequest(
    title: Option<string>,
    plot: Option<string>,
    cast: Option<seq<CastMember>>,
    playtime: Option<int>,
    genre: Option<Genre>)

  /** `Movie.filter(**valid_query)`: only the parameters that are not None
      are conditions. */
  predicate MatchesQuery(m: Movie, q: MovieSearchParams)
  {
    (q.title.Some? ==> m.title == q.title.value) && (q.genre.Some? ==> m.genre == q.genre.value)
  }

  /** `get_movies`: the rows that match the query. The order of the result
      is the database's and is not modelled. */
  function GetMovies(rows: map<int, Movie>, q: MovieSearchParams): (r: map<int, Movie>)
    ensures forall id :: id in r <==> id in rows && MatchesQuery(rows[id], q)
    ensures forall id :: id in r ==> r[id] == rows[id]
  {
    map id | id in rows && MatchesQuery(rows[id], q) :: rows[id]
  }

  /** A query with no parameters lists every movie; a query with both
      parameters lists what the two one-parameter queries have in common. */
  lemma QueryNarrowing(rows: map<int, Movie>, title: string, genre: Genre)
    ensures GetMovies(rows, MovieSearchParams(None, None)) == rows
    ensures GetMovies(rows, MovieSearchParams(Some(title), Some(genre))).Keys ==
            GetMovies(rows, MovieSearchParams(Some(title), None)).Keys *
            GetMovies(rows, MovieSearchParams(None, Some(genre))).Keys
  {
  }

  /** `get_movie`: the row, or 404. */
  function GetMovie(rows: map<int, Movie>, id: int): (r: Outcome<Movie>)
    ensures r.Returns? <==> id in rows
    ensures r.Returns? ==> r.value == rows[id]
    ensures r.Raises? ==> r.exc == NOT_FOUND
  {
    if id !in rows then Raises(NOT_FOUND) else Returns(rows[id])
  }

  /** `update_from_dict` with the fields that are not None. */
  function ApplyMovieUpdate(m: Movie, u: MovieUpdateRequest): Movie
  {
    m.(title := if u.title.Some? then u.title.value else m.title,
       plot := if u.plot.Some? then u.plot.value else m.plot,
       cast := if u.cast.Some? then u.cast.value else m.cast,
       playtime := if u.playtime.Some? then u.playtime.value else m.playtime,
       genre := if u.genre.Some? then u.genre.value else m.genre)
  }

  /** An update changes exactly the fields it sends; the poster URL is never
      touched; applying the same update twice is applying it once. */
  lemma UpdateIsPartial(m: Movie, u: MovieUpdateRequest)
    ensures var m' := ApplyMovieUpdate(m, u);
            && (u.title.None? ==> m'.title == m.title) && (u.title.Some? ==> m'.title == u.title.value)
            && (u.plot.None? ==> m'.plot == m.plot) && (u.plot.Some? ==> m'.plot == u.plot.value)
            && (u.cast.None? ==> m'.cast == m.cast) && (u.cast.Some? ==> m'.cast == u.cast.value)
            && (u.playtime.None? ==> m'.playtime == m.playtime) && (u.playtime.Some? ==> m'.playtime == u.playtime.value)
            && (u.genre.None? ==> m'.genre == m.genre) && (u.genre.Some? ==> m'.genre == u.genre.value)
            && m'.posterImageUrl == m.posterImageUrl
            && ApplyMovieUpdate(m', u) == m'
    ensures ApplyMovieUpdate(m, MovieUpdateRequest(None, None, None, None, None)) == m
  {
  }

  /** The movies table with the two mutating routes. */
  class Movies {
    var rows: map<int, Movie>

    constructor (rows: map<int, Movie>)
      ensures this.rows == rows
    {
      this.rows := rows;
    }

    /** `update_movie`: 404 for a missing id, otherwise the partial update. */
    method UpdateMovie(id: int, u: MovieUpdateRequest) returns (r: Outcome<Movie>)
      modifies this
      ensures id !in old(rows) ==> r == Raises(NOT_FOUND) && rows == old(rows)
      ensures id in old(rows) ==>
        r == Returns(ApplyMovieUpdate(old(rows)[id], u)) && rows == old(rows)[id := r.value]
    {
      if id !in rows {
        return Raises(NOT_FOUND);
      }
      var movie := ApplyMovieUpdate(rows[id], u);
      rows := rows[id := movie];
      r := Returns(movie);
    }

    /** `delete_movie`: 404 for a missing id, otherwise the row is removed. */
    method DeleteMovie(id: int) returns (r: Outcome<()>)
      modifies this
      ensures id !in old(rows) ==> r == Raises(NOT_FOUND) && rows == old(rows)
      ensures id in old(rows) ==> r == Returns(()) && rows == old(rows) - {id}
    {
      if id !in rows {
        return Raises(NOT_FOUND);
      }
      rows := rows - {id};
      r := Returns(());
    }
  }

  /** After a delete, getting the same id is 404 and a second delete is 404
      too; other movies are unaffected. */
  lemma DeleteThenGet(rows: map<int, Movie>, id: int, other: int)
    requires id in rows && other != id
    ensures GetMovie(rows - {id}, id) == Raises(NOT_FOUND)
    ensures GetMovie(rows - {id}, other) == GetMovie(rows, other)
  {
  }
}
