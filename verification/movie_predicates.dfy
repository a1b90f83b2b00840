/** The two static predicate expressions declared on the `Movie` class. */
module MoviePredicates {
  import opened Movies
  import opened Expressions

  /** A movie is suitable for children when its classification is at most PG. */
  const IsSuitableForChildren: Expr := Le(Attr(MpaaRatingAttr), RatingLit(PG))

  /** A movie has a CD version when it was released at least six months before now.
      The six is a literal here, as it is on the class. */
  const HasCDVersion: Expr := Le(Attr(ReleaseDateAttr), NowAddMonths(-6))

  /** Suitable for children exactly for G and PG; never for PG13 or R. */
  lemma SuitableForChildrenExactly(m: Movie, clock: Clock)
    ensures Eval(IsSuitableForChildren, m, clock) <==> AtMost(m.mpaaRating, PG)
    ensures Eval(IsSuitableForChildren, m, clock) <==> m.mpaaRating == G || m.mpaaRating == PG
  {
  }

  /** Only the classification matters: movies with the same classification but any
      other release date, genre or score get the same answer, at any time. */
  lemma SuitableForChildrenReadsOnlyRating(m1: Movie, m2: Movie, clock1: Clock, clock2: Clock)
    requires m1.mpaaRating == m2.mpaaRating
    ensures Eval(IsSuitableForChildren, m1, clock1) == Eval(IsSuitableForChildren, m2, clock2)
  {
  }

  /** A CD version exists exactly when the release is no later than six months before
      now; the boundary is inclusive. */
  lemma HasCDVersionExactly(m: Movie, clock: Clock)
    ensures Eval(HasCDVersion, m, clock) <==> m.releaseDate <= clock(-6)
    ensures m.releaseDate == clock(-6) ==> Eval(HasCDVersion, m, clock)
  {
  }

  /** Monotone in the cutoff: a movie that has a CD version keeps it under any clock
      whose six-months-ago lies no earlier, that is, at any later "now". */
  lemma HasCDVersionMonotone(m: Movie, clock: Clock, later: Clock)
    requires clock(-6) <= later(-6)
    requires Eval(HasCDVersion, m, clock)
    ensures Eval(HasCDVersion, m, later)
  {
  }
}
