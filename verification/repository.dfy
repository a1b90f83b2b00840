/** The movie repository: a lookup by id and a filtered listing. The backing store is
    the sequence of persisted movies; opening a session and running the query against
    the database are replaced by working on that sequence directly. */
module MovieRepository {
  import opened Maybes
  import opened Movies
  import opened Expressions
  import opened Specifications

  /** The store's primary key: no two stored movies share an id. */
  ghost predicate UniqueIds(movies: seq<Movie>) {
    forall i, j :: 0 <= i < j < |movies| ==> movies[i].id != movies[j].id
  }

  /** Lookup by id. A missing id yields `Nothing` rather than an error. */
  function GetOne(movies: seq<Movie>, id: nat): (r: Maybe<Movie>)
    ensures r.Just? <==> exists i :: 0 <= i < |movies| && movies[i].id == id
    ensures r.Just? ==> r.value in movies && r.value.id == id
  {
    if |movies| == 0 then Nothing
    else if movies[0].id == id then Just(movies[0])
    else
      GetOne(movies[1..], id)
  }

  /** With unique ids, the lookup returns exactly the stored movie with that id. */
  lemma GetOneFindsStored(movies: seq<Movie>, i: int)
    requires UniqueIds(movies)
    requires 0 <= i < |movies|
    ensures GetOne(movies, movies[i].id) == Just(movies[i])
  {
  }

  /** Query filtering: the movies of the store that satisfy the expression, each kept
      as often as it is stored. The order of the results is not part of the contract. */
  function Where(movies: seq<Movie>, e: Expr, clock: Clock): (r: seq<Movie>)
    ensures forall x :: multiset(r)[x] == if Eval(e, x, clock) then multiset(movies)[x] else 0
    ensures forall x :: x in r <==> x in movies && Eval(e, x, clock)
    ensures |r| <= |movies|
  {
    if |movies| == 0 then []
    else
      var rest := Where(movies[1..], e, clock);
      assert movies == [movies[0]] + movies[1..];
      if Eval(e, movies[0], clock) then [movies[0]] + rest else rest
  }

  /** A filter every stored movie satisfies keeps every stored movie, as often as it is
      stored. The model's scan also keeps the store's order, which the query itself does
      not promise. */
  lemma {:induction false} WhereKeepsAll(movies: seq<Movie>, e: Expr, clock: Clock)
    requires forall i :: 0 <= i < |movies| ==> Eval(e, movies[i], clock)
    ensures multiset(Where(movies, e, clock)) == multiset(movies)
    ensures Where(movies, e, clock) == movies
  {
    if |movies| > 0 {
      WhereKeepsAll(movies[1..], e, clock);
      assert movies == [movies[0]] + movies[1..];
    }
  }

  /** The condition of the listing query. The flags are captured as constants, and the
      three clauses are joined left to right. */
  function ListFilter(forKidsOnly: bool, minimumRating: real, availableOnCD: bool): Expr {
    And(
      And(
        Or(Le(Attr(MpaaRatingAttr), RatingLit(PG)), Not(BoolLit(forKidsOnly))),
        Ge(Attr(RatingAttr), Number(minimumRating))),
      Or(Le(Attr(ReleaseDateAttr), NowAddMonths(-6)), Not(BoolLit(availableOnCD))))
  }

  /** What a listed movie must meet, stated on its attributes */
  ghost predicate Qualifies(x: Movie, forKidsOnly: bool, minimumRating: real, availableOnCD: bool, clock: Clock) {
    && (forKidsOnly ==> x.mpaaRating == G || x.mpaaRating == PG)
    && x.rating >= minimumRating
    && (availableOnCD ==> x.releaseDate <= clock(-6))
  }

  /** The query condition holds of a movie exactly when the movie meets the three
      clauses: the kids clause only when the flag is set, the CD clause likewise. */
  lemma ListFilterMeaning(forKidsOnly: bool, minimumRating: real, availableOnCD: bool, clock: Clock)
    ensures forall x :: Eval(ListFilter(forKidsOnly, minimumRating, availableOnCD), x, clock)
                <==> Qualifies(x, forKidsOnly, minimumRating, availableOnCD, clock)
  {
    forall x
      ensures Eval(ListFilter(forKidsOnly, minimumRating, availableOnCD), x, clock)
        <==> Qualifies(x, forKidsOnly, minimumRating, availableOnCD, clock)
    {
      var kids := Or(Le(Attr(MpaaRatingAttr), RatingLit(PG)), Not(BoolLit(forKidsOnly)));
      var score := Ge(Attr(RatingAttr), Number(minimumRating));
      var cd := Or(Le(Attr(ReleaseDateAttr), NowAddMonths(-6)), Not(BoolLit(availableOnCD)));
      assert Eval(kids.right, x, clock) == !forKidsOnly;
      assert Eval(kids, x, clock) <==> (forKidsOnly ==> x.mpaaRating == G || x.mpaaRating == PG);
      assert Eval(score, x, clock) <==> x.rating >= minimumRating;
      assert Eval(cd.right, x, clock) == !availableOnCD;
      assert Eval(cd, x, clock) <==> (availableOnCD ==> x.releaseDate <= clock(-6));
    }
  }

  /** The filtered listing: exactly the stored movies meeting all three clauses, each as
      often as it is stored, and nothing else. */
  function GetList(movies: seq<Movie>, forKidsOnly: bool, minimumRating: real, availableOnCD: bool, clock: Clock)
    : (r: seq<Movie>)
    ensures forall x :: multiset(r)[x] ==
                (if Qualifies(x, forKidsOnly, minimumRating, availableOnCD, clock) then multiset(movies)[x] else 0)
    ensures forall x :: x in r <==> x in movies && Qualifies(x, forKidsOnly, minimumRating, availableOnCD, clock)
    ensures |r| <= |movies|
  {
    ListFilterMeaning(forKidsOnly, minimumRating, availableOnCD, clock);
    Where(movies, ListFilter(forKidsOnly, minimumRating, availableOnCD), clock)
  }

  /** Every listed movie meets the minimum score, and satisfies the kids and the CD
      specifications whenever the corresponding flag is set; a stored movie meeting all
      of that is listed. A flag that is not set imposes nothing. */
  lemma GetListMatchesSpecifications(
    movies: seq<Movie>, forKidsOnly: bool, minimumRating: real, availableOnCD: bool, clock: Clock, x: Movie)
    ensures x in GetList(movies, forKidsOnly, minimumRating, availableOnCD, clock) <==>
      && x in movies
      && (forKidsOnly ==> IsSatisfiedBy(MoviesForKids, x, clock))
      && x.rating >= minimumRating
      && (availableOnCD ==> IsSatisfiedBy(AvailableOnCD, x, clock))
  {
  }

  /** Tightening the filter never enlarges the result: raising the minimum score or
      switching either flag on keeps only movies (and copies) listed before. */
  lemma GetListTightening(
    movies: seq<Movie>, clock: Clock,
    forKidsOnly: bool, minimumRating: real, availableOnCD: bool,
    forKidsOnly': bool, minimumRating': real, availableOnCD': bool)
    requires forKidsOnly ==> forKidsOnly'
    requires minimumRating <= minimumRating'
    requires availableOnCD ==> availableOnCD'
    ensures multiset(GetList(movies, forKidsOnly', minimumRating', availableOnCD', clock))
      <= multiset(GetList(movies, forKidsOnly, minimumRating, availableOnCD, clock))
  {
  }

  /** With both flags off and a minimum no stored movie falls below, the whole store is
      listed: every stored movie, as often as it is stored. The model's scan also keeps
      the store's order, which the query itself does not promise. */
  lemma GetListUnfiltered(movies: seq<Movie>, minimumRating: real, clock: Clock)
    requires forall i :: 0 <= i < |movies| ==> movies[i].rating >= minimumRating
    ensures multiset(GetList(movies, false, minimumRating, false, clock)) == multiset(movies)
    ensures GetList(movies, false, minimumRating, false, clock) == movies
  {
    ListFilterMeaning(false, minimumRating, false, clock);
    WhereKeepsAll(movies, ListFilter(false, minimumRating, false), clock);
  }
}
