/** The Specification pattern: a rule object supplies only its predicate expression, and
    the base defines satisfaction once, as "compile the expression, then apply it". */
module Specifications {
  import opened Movies
  import opened Expressions
  import MoviePredicates

  /** How many months after release a movie comes out on CD */
  const MonthsBeforeDVDIsOut: int := 6

  /** The specifications over `Movie`. `Derived` stands for any further subclass whose
      expression is built from `<=`/`>=` over release date, classification and score,
      with and/or/not: all such a subclass can supply is that expression. */
  datatype Specification =
    | MoviesForKids
    | AvailableOnCD
    | Derived(expression: Expr)

  /** The one operation each specification supplies */
  function ToExpression(s: Specification): Expr {
    match s
    case MoviesForKids => Le(Attr(MpaaRatingAttr), RatingLit(PG))
    case AvailableOnCD => Le(Attr(ReleaseDateAttr), NowAddMonths(-MonthsBeforeDVDIsOut))
    case Derived(e) => e
  }

  /** Defined once for every specification: compile its expression into a delegate and
      apply the delegate. The result is the interpretation of the same expression, so
      checking one movie and filtering by that expression cannot disagree. */
  function IsSatisfiedBy(s: Specification, entity: Movie, clock: Clock): (r: bool)
    ensures r == Eval(ToExpression(s), entity, clock)
  {
    var compiled := Compile(ToExpression(s));
    CompileAgrees(ToExpression(s), entity, clock);
    compiled(entity, clock)
  }

  /** Two specifications whose expressions mean the same on every movie at every time
      give the same verdict on every movie at every time. */
  lemma SameMeaningSameVerdict(s1: Specification, s2: Specification)
    requires forall m: Movie, clock: Clock ::
      Eval(ToExpression(s1), m, clock) == Eval(ToExpression(s2), m, clock)
    ensures forall m: Movie, clock: Clock ::
      IsSatisfiedBy(s1, m, clock) == IsSatisfiedBy(s2, m, clock)
  {
  }

  // ---- MoviesForKidsSpecification ----

  /** Satisfied exactly when the classification is at most PG: true for G and PG,
      false for PG13 and R. */
  lemma ForKidsExactly(m: Movie, clock: Clock)
    ensures IsSatisfiedBy(MoviesForKids, m, clock) <==> AtMost(m.mpaaRating, PG)
    ensures IsSatisfiedBy(MoviesForKids, m, clock) <==> m.mpaaRating == G || m.mpaaRating == PG
  {
  }

  /** Downward closed in the classification */
  lemma ForKidsDownwardClosed(m: Movie, milder: Movie, clock: Clock)
    requires IsSatisfiedBy(MoviesForKids, m, clock)
    requires AtMost(milder.mpaaRating, m.mpaaRating)
    ensures IsSatisfiedBy(MoviesForKids, milder, clock)
  {
  }

  /** The rule does not look at the clock. */
  lemma ForKidsIgnoresClock(m: Movie, clock1: Clock, clock2: Clock)
    ensures IsSatisfiedBy(MoviesForKids, m, clock1) == IsSatisfiedBy(MoviesForKids, m, clock2)
  {
  }

  /** The rule object states the same condition as the class's static predicate. */
  lemma ForKidsIsSuitableForChildren(m: Movie, clock: Clock)
    ensures ToExpression(MoviesForKids) == MoviePredicates.IsSuitableForChildren
    ensures IsSatisfiedBy(MoviesForKids, m, clock) == Eval(MoviePredicates.IsSuitableForChildren, m, clock)
  {
  }

  // ---- AvailableOnCDSpecification ----

  /** Satisfied exactly when the release is no later than MonthsBeforeDVDIsOut months
      before now; a release exactly at that instant qualifies. */
  lemma AvailableOnCDExactly(m: Movie, clock: Clock)
    ensures IsSatisfiedBy(AvailableOnCD, m, clock) <==> m.releaseDate <= clock(-MonthsBeforeDVDIsOut)
    ensures m.releaseDate == clock(-MonthsBeforeDVDIsOut) ==> IsSatisfiedBy(AvailableOnCD, m, clock)
  {
  }

  /** Downward closed in the release date: an earlier release also qualifies. */
  lemma AvailableOnCDDownwardClosed(m: Movie, earlier: Movie, clock: Clock)
    requires IsSatisfiedBy(AvailableOnCD, m, clock)
    requires earlier.releaseDate <= m.releaseDate
    ensures IsSatisfiedBy(AvailableOnCD, earlier, clock)
  {
  }

  /** Monotone in the cutoff: once on CD, a movie stays on CD at any later "now". */
  lemma AvailableOnCDMonotone(m: Movie, clock: Clock, later: Clock)
    requires clock(-MonthsBeforeDVDIsOut) <= later(-MonthsBeforeDVDIsOut)
    requires IsSatisfiedBy(AvailableOnCD, m, clock)
    ensures IsSatisfiedBy(AvailableOnCD, m, later)
  {
  }

  /** The rule object states the same condition as the class's static predicate. */
  lemma AvailableOnCDIsHasCDVersion(m: Movie, clock: Clock)
    ensures ToExpression(AvailableOnCD) == MoviePredicates.HasCDVersion
    ensures IsSatisfiedBy(AvailableOnCD, m, clock) == Eval(MoviePredicates.HasCDVersion, m, clock)
  {
  }

  // ---- Scenarios ----

  /** A PG movie released eight months ago is for kids and on CD. */
  lemma ScenarioPGEightMonthsAgo(m: Movie, clock: Clock)
    requires Ticking(clock)
    requires m.mpaaRating == PG && m.releaseDate == clock(-8)
    ensures IsSatisfiedBy(MoviesForKids, m, clock)
    ensures IsSatisfiedBy(AvailableOnCD, m, clock)
  {
  }

  /** An R movie released one month ago is neither for kids nor on CD. */
  lemma ScenarioROneMonthAgo(m: Movie, clock: Clock)
    requires Ticking(clock)
    requires m.mpaaRating == R && m.releaseDate == clock(-1)
    ensures !IsSatisfiedBy(MoviesForKids, m, clock)
    ensures !IsSatisfiedBy(AvailableOnCD, m, clock)
  {
  }
}
