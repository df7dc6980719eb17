/**
 * `/movies`: the list of all movies, narrowed by two optional query parameters. The
 * `search` text must occur, ignoring case, in the movie's name, genre or language; the
 * `genre` text must occur, ignoring case, in its genre. An empty parameter counts as
 * absent, and the store's order is kept.
 *
 * Case folding is JavaScript's `toLowerCase`, the full Unicode case mapping. The model
 * takes it as a parameter `lower` rather than defining it, and no property here depends
 * on which mapping it is.
 */
module Movies {
  import opened Wrappers
  import opened Types
  import opened Text
  import Seqs

  /** `url.searchParams.get(name) || undefined`: an empty value is no value. */
  function Param(value: Option<string>): (p: Option<string>)
    ensures p.Some? <==> value.Some? && value.value != ""
    ensures p.Some? ==> p == value
  {
    if value.Some? && value.value != "" then value else None
  }

  /** The search test: the lower-cased query occurs in the lower-cased name, genre or language. */
  predicate MatchesSearch(m: Movie, lower: string -> string, query: string) {
    Includes(lower(m.movieName), lower(query)) ||
    Includes(lower(m.movieGenre), lower(query)) ||
    Includes(lower(m.movieLang), lower(query))
  }

  /** The genre test: the lower-cased parameter occurs in the lower-cased genre. */
  predicate MatchesGenre(m: Movie, lower: string -> string, genre: string) {
    Includes(lower(m.movieGenre), lower(genre))
  }

  /** The search filter, when there is a query. */
  function BySearch(movies: seq<Movie>, lower: string -> string, query: Option<string>): (r: seq<Movie>)
  {
    if query.Some? then Seqs.Filter(movies, m => MatchesSearch(m, lower, query.value)) else movies
  }

  /** The genre filter, when there is a genre. */
  function ByGenre(movies: seq<Movie>, lower: string -> string, genre: Option<string>): (r: seq<Movie>)
  {
    if genre.Some? then Seqs.Filter(movies, m => MatchesGenre(m, lower, genre.value)) else movies
  }

  /** `handler.GET`: the search filter, then the genre filter, over all movies. */
  function ListMovies(movies: seq<Movie>, lower: string -> string, search: Option<string>, genre: Option<string>)
    : (r: seq<Movie>)
  {
    ByGenre(BySearch(movies, lower, Param(search)), lower, Param(genre))
  }

  /** A movie passes when it meets every filter that is present. */
  predicate Passes(m: Movie, lower: string -> string, search: Option<string>, genre: Option<string>) {
    (Param(search).Some? ==> MatchesSearch(m, lower, search.value)) &&
    (Param(genre).Some? ==> MatchesGenre(m, lower, genre.value))
  }

  /**
   * The list keeps the store's order, and holds a movie exactly when the store does and
   * the movie passes both filters that are present.
   */
  lemma ListIsFilteredSubsequence(movies: seq<Movie>, lower: string -> string, search: Option<string>,
                                  genre: Option<string>)
    ensures Seqs.IsSubsequence(ListMovies(movies, lower, search, genre), movies)
    ensures forall m :: m in ListMovies(movies, lower, search, genre) <==> m in movies && Passes(m, lower, search, genre)
  {
    var q := Param(search);
    var g := Param(genre);
    var afterSearch := BySearch(movies, lower, q);
    if q.Some? {
      Seqs.FilterIsExact(movies, m => MatchesSearch(m, lower, q.value));
    } else {
      Seqs.SubsequenceRefl(movies);
    }
    if g.Some? {
      Seqs.FilterIsExact(afterSearch, m => MatchesGenre(m, lower, g.value));
      Seqs.SubsequenceTrans(ListMovies(movies, lower, search, genre), afterSearch, movies);
    }
  }

  /** With neither parameter, or with both empty, the list is every movie in store order. */
  lemma NoFilterListsAll(movies: seq<Movie>, lower: string -> string, search: Option<string>, genre: Option<string>)
    requires search.None? || search == Some("")
    requires genre.None? || genre == Some("")
    ensures ListMovies(movies, lower, search, genre) == movies
  {
  }

  /** Queries that agree once lower-cased give the same list: the search ignores case. */
  lemma SearchIgnoresCase(movies: seq<Movie>, lower: string -> string, q1: string, q2: string, genre: Option<string>)
    requires q1 != "" && q2 != "" && lower(q1) == lower(q2)
    ensures ListMovies(movies, lower, Some(q1), genre) == ListMovies(movies, lower, Some(q2), genre)
  {
    Seqs.FilterCongruent(movies, m => MatchesSearch(m, lower, q1), m => MatchesSearch(m, lower, q2));
  }
}
