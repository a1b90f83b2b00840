# Specification pattern over `Movie`, in Dafny

This project models the logic core of a small C# application that demonstrates the
Specification pattern. A business rule about a `Movie` is a named object that supplies
one predicate expression. The pattern intends that one expression both checks a single
movie and filters a query. In this program, though, the listing query `GetList` restates
the conditions inline instead of using a specification's expression.
`GetListMatchesSpecifications` proves that the restatement agrees with the two
specifications.

The model covers:

- the `Movie` entity and its ordered MPAA classification (G < PG < PG13 < R, with
  underlying values 1 to 4);
- the two static predicate expressions on `Movie`, `IsSuitableForChildren` and
  `HasCDVersion`;
- the abstract `Specification<T>`, whose only abstract member is `ToExpression`. Its
  `IsSatisfiedBy` is defined once in the base: compile the expression, then apply it;
- the two concrete rules, `MoviesForKidsSpecification` (classification at most PG) and
  `AvailableOnCDSpecification` (released at least `MonthsBeforeDVDIsOut` = 6 months ago,
  inclusive);
- `MovieRepository.GetOne`, a lookup by id that returns a `Maybe`, and
  `MovieRepository.GetList`, a query filtered by three clauses: an optional kids clause,
  a minimum quality score and an optional CD clause.

How the C# constructs are represented:

- Expression trees are the `Expr` datatype (`expressions.dfy`). Its nodes are
  comparisons `<=` and `>=` between terms, `and`, `or`, `not` and captured boolean
  constants. A term is an attribute, a classification literal, a number, or
  `DateTime.Now.AddMonths(k)`.
- `Eval` interprets an expression against one movie. `Compile` stands in for
  `Expression.Compile()`: it turns a tree into a delegate.
- The clock is an explicit input. A `Clock` maps `k` to the instant `k` months after
  "now", in ticks. It is read once per evaluation, so every rule and query is a pure
  function of the movie and the clock.
- Dates, classifications and the quality score all compare as numbers. A date compares
  by its ticks and a classification by its underlying value. Both conversions preserve
  order.
- The backing store is a `seq<Movie>`. Listing results are stated as multisets, because
  the query has no ordering clause.
- `Specification` is a datatype with one constructor per rule object. `Derived(e)`
  stands for any other subclass whose expression is built from `<=`/`>=` over release
  date, classification and score, with and/or/not. Such a subclass can only supply its
  expression `e`. Because every term evaluates to a number, `Expr` also admits
  comparisons C# would reject as ill-typed, such as a date against a classification. So
  `Derived` ranges over a superset of the trees a C# subclass could return; the
  properties proved for all expressions hold for that superset too.

Modules: `Maybes` (`maybe.dfy`), `Movies` (`movie.dfy`), `Expressions`
(`expressions.dfy`), `MoviePredicates` (`movie_predicates.dfy`), `Specifications`
(`specification.dfy`), `MovieRepository` (`repository.dfy`).

## Model

| member | source | states |
|---|---|---|
| Movies.OrdinalsIncrease | SpecPattern/src/Logic/Movies/Movie.cs:25-31 | `Ordinal` gives the ratings the underlying values G = 1, PG = 2, PG13 = 3, R = 4. These strictly increase, and distinct ratings have distinct values. |
| Movies.AtMostIsTotalOrder | SpecPattern/src/Logic/Movies/Movie.cs:25-31 | `<=` on ratings is reflexive, antisymmetric, transitive and total. |
| Expressions.CompileAgrees | SpecPattern/src/Logic/Movies/Specification.cs:10-11 | For every expression, movie and clock, the compiled delegate returns the same answer as interpreting the tree. |
| Expressions.EvalReadsOnly | SpecPattern/src/Logic/Movies/Specification.cs:10-11 | Two movies that agree on the attributes an expression reads get the same verdict from it. |
| Expressions.EvalClockFree | SpecPattern/src/Logic/Movies/Specification.cs:10-11 | An expression that never reads the clock gives the same verdict under any two clocks. |
| MoviePredicates.SuitableForChildrenExactly | SpecPattern/src/Logic/Movies/Movie.cs:9 | `IsSuitableForChildren` holds iff the rating is at most PG. Equivalently, it holds exactly for G and PG. |
| MoviePredicates.SuitableForChildrenReadsOnlyRating | SpecPattern/src/Logic/Movies/Movie.cs:9 | Two movies with the same rating get the same answer, whatever their date, genre, score or the clock. |
| MoviePredicates.HasCDVersionExactly | SpecPattern/src/Logic/Movies/Movie.cs:11 | `HasCDVersion` holds iff the release date is no later than now minus 6 months. A release exactly at that instant qualifies. |
| MoviePredicates.HasCDVersionMonotone | SpecPattern/src/Logic/Movies/Movie.cs:11 | If a movie has a CD version under one clock, it still has one under any clock whose six-months-ago instant is no earlier. |
| Specifications.IsSatisfiedBy | SpecPattern/src/Logic/Movies/Specification.cs:8-12 | Compiling and applying a specification's expression gives the interpretation of that same expression, for every modelled specification, movie and clock. Checking one movie and filtering by the same expression cannot diverge. |
| Specifications.SameMeaningSameVerdict | SpecPattern/src/Logic/Movies/Specification.cs:8-18 | Two specifications whose expressions agree on all movies and clocks also agree on `IsSatisfiedBy` for all movies and clocks. |
| Specifications.ForKidsExactly | SpecPattern/src/Logic/Movies/Specifications/MoviesForKidsSpecification.cs:8-10 | The kids rule's `ToExpression` tree is satisfied iff the rating is at most PG: true for G and PG, false for PG13 and R. |
| Specifications.ForKidsDownwardClosed | SpecPattern/src/Logic/Movies/Specifications/MoviesForKidsSpecification.cs:10 | If a movie satisfies the kids rule, so does any movie with a lower or equal rating. |
| Specifications.ForKidsIgnoresClock | SpecPattern/src/Logic/Movies/Specifications/MoviesForKidsSpecification.cs:10 | The kids rule gives the same verdict under any two clocks. |
| Specifications.ForKidsIsSuitableForChildren | SpecPattern/src/Logic/Movies/Specifications/MoviesForKidsSpecification.cs:10 | The kids rule's expression is the same tree as the static `Movie.IsSuitableForChildren`, so they agree on every movie. |
| Specifications.AvailableOnCDExactly | SpecPattern/src/Logic/Movies/Specifications/AvailableOnCDSpecification.cs:8-12 | The CD rule's `ToExpression` tree is satisfied iff the release date is no later than now minus `MonthsBeforeDVDIsOut` (6) months. The boundary is inclusive. |
| Specifications.AvailableOnCDDownwardClosed | SpecPattern/src/Logic/Movies/Specifications/AvailableOnCDSpecification.cs:12 | If a movie satisfies the CD rule, so does any movie released no later. |
| Specifications.AvailableOnCDMonotone | SpecPattern/src/Logic/Movies/Specifications/AvailableOnCDSpecification.cs:12 | If a movie satisfies the CD rule, it still satisfies it at any later cutoff. |
| Specifications.AvailableOnCDIsHasCDVersion | SpecPattern/src/Logic/Movies/Specifications/AvailableOnCDSpecification.cs:8-12 | Because the named constant equals the literal 6, the CD rule's expression is the same tree as the static `Movie.HasCDVersion`. They agree on every movie and clock. |
| Specifications.ScenarioPGEightMonthsAgo | SpecPattern/src/Logic/Movies/Specifications/AvailableOnCDSpecification.cs:12 | Under a clock that moves forward, a PG movie released 8 months ago satisfies both rules. |
| Specifications.ScenarioROneMonthAgo | SpecPattern/src/Logic/Movies/Specifications/AvailableOnCDSpecification.cs:12 | Under a clock that moves forward, an R movie released 1 month ago satisfies neither rule. |
| MovieRepository.GetOne | SpecPattern/src/Logic/Movies/MovieRepository.cs:13-18 | The lookup finds a movie iff some stored movie has that id, and what it finds is stored and has that id. A missing id yields `Nothing`, not an error. |
| MovieRepository.GetOneFindsStored | SpecPattern/src/Logic/Movies/MovieRepository.cs:13-18 | When ids are unique, looking up a stored movie's id returns exactly that movie. |
| MovieRepository.Where | SpecPattern/src/Logic/Movies/MovieRepository.cs:28-33 | Filtering keeps each stored movie that satisfies the expression, as many times as it is stored, and nothing else. |
| MovieRepository.WhereKeepsAll | SpecPattern/src/Logic/Movies/MovieRepository.cs:28-33 | A filter that every stored movie satisfies returns every stored movie, as often as it is stored. The model's scan also keeps the store's order. |
| MovieRepository.ListFilterMeaning | SpecPattern/src/Logic/Movies/MovieRepository.cs:29-32 | The query condition, the `ListFilter` tree, holds iff the movie is rated at most PG when `forKidsOnly` is set, has a score of at least `minimumRating`, and is released by now minus 6 months when `availableOnCD` is set. |
| MovieRepository.GetList | SpecPattern/src/Logic/Movies/MovieRepository.cs:21-35 | The listing holds exactly the stored movies that meet all three clauses, each as often as it is stored. Its length is at most the store's. |
| MovieRepository.GetListMatchesSpecifications | SpecPattern/src/Logic/Movies/MovieRepository.cs:29-32 | A movie is listed iff it is stored, meets the minimum score, and satisfies each specification whose flag is set. A flag that is off imposes nothing. |
| MovieRepository.GetListTightening | SpecPattern/src/Logic/Movies/MovieRepository.cs:29-32 | Raising the minimum score or turning either flag on never enlarges the listing, as a multiset. |
| MovieRepository.GetListUnfiltered | SpecPattern/src/Logic/Movies/MovieRepository.cs:29-32 | With both flags off and every stored score at least the minimum, the listing holds every stored movie, as often as it is stored. The model's scan also keeps the store's order. |

## Left out

- Database sessions (`SessionFactory.OpenSession`, `session.Get`, `session.Query`) are not modelled. The store is a sequence, and failures of the data source are not represented.
- Translation of expressions into SQL is not modelled. The query applies the expression to each stored movie with `Eval`.
- Calendar arithmetic (`AddMonths` day clamping, month lengths) and `DateTime.Now` are not modelled. The clock is an arbitrary function supplied by the caller. The two scenario lemmas assume only that it moves strictly forward.
- Classification values outside the four named members are not represented. A C# enum may hold any int: `default(MpaaRating)` is 0, and the ORM mapping casts a stored int without checking it. The rule `<= PG` accepts every underlying value up to 2 and refuses every value above. So "exactly G or PG" in `SuitableForChildrenExactly` and `ForKidsExactly`, and the distinctness clause of `OrdinalsIncrease`, are stated for the four named members only.
- The quality score is a `real`. Floating-point rounding and NaN are not modelled.
- The `Entity` base class and ORM identity mapping are not part of this model. The id is an opaque `nat`.
- `Name` and `Genre` are carried by `Movie`, but no rule reads them.
- Repository methods that take a specification do not exist in the C# program. `GetList` takes the three raw parameters and inlines its clauses, and the model follows that code. `GetListMatchesSpecifications` relates those clauses to the two specifications.
- No specification combinators (and, or, not of specifications) exist in the C# program, so none are modelled.
- Specification expressions outside the `Expr` fragment are not represented. A C# subclass may return any expression tree: equality, arithmetic, method calls, or reads of `Name`, `Genre` or the id. `IsSatisfiedBy` and `SameMeaningSameVerdict` cover every specification whose expression lies in the fragment.
- MovieRepository.WhereKeepsAll: its second ensures, that the result is the store in its original order, reflects the model's scan order. The query has no ordering clause, so the program promises only the multiset equality stated first.
- MovieRepository.GetListUnfiltered: its second ensures, that the listing is the store in its original order, reflects the model's scan order. The query has no ordering clause, so the program promises only the multiset equality.
- The WPF view model is not modelled. It inlines its own CD rule with `>=` (SpecPattern/src/UI/Movies/MovieListViewModel.cs:41). That refuses a movie released exactly at the cutoff, which the inclusive rule in `AvailableOnCDSpecification` accepts.
