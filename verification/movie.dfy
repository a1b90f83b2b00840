/** The `Movie` entity and its MPAA classification, as read-only values. */
module Movies {

  /** The MPAA classification. In the C# program it is an enumeration whose members carry
      the underlying values G = 1, PG = 2, PG13 = 3, R = 4, and `<=` on it compares
      those values. */
  datatype MpaaRating = G | PG | PG13 | R

  /** The underlying value of each classification */
  function Ordinal(r: MpaaRating): (n: int)
    ensures 1 <= n <= 4
  {
    match r
    case G => 1
    case PG => 2
    case PG13 => 3
    case R => 4
  }

  /** `a <= b` on the enumeration */
  predicate AtMost(a: MpaaRating, b: MpaaRating) {
    Ordinal(a) <= Ordinal(b)
  }

  /** A timestamp, in ticks. */
  type Instant = int

  /** The ambient clock as the rules see it during one evaluation: `clock(k)` is the
      instant `k` calendar months after "now". Calendar arithmetic is not modelled, so
      any function is a possible clock. */
  type Clock = int -> Instant

  /** A clock whose month shifts move strictly forward in time, as a real calendar does. */
  ghost predicate Ticking(clock: Clock) {
    forall a: int, b: int :: a < b ==> clock(a) < clock(b)
  }

  /** A movie. Every attribute is get-only in the C# program, so a movie is an immutable
      value here: nothing in the model produces a changed copy of one. The identity
      comes from the entity base class and is an opaque number. */
  datatype Movie = Movie(
    id: nat,
    name: string,
    releaseDate: Instant,
    mpaaRating: MpaaRating,
    genre: string,
    rating: real)  // the quality score, a double in the C# program

  /** The underlying values are the constants of the C# enumeration and strictly
      increase from G to R. */
  lemma OrdinalsIncrease()
    ensures Ordinal(G) == 1 && Ordinal(PG) == 2 && Ordinal(PG13) == 3 && Ordinal(R) == 4
    ensures Ordinal(G) < Ordinal(PG) < Ordinal(PG13) < Ordinal(R)
    ensures forall a: MpaaRating, b: MpaaRating :: Ordinal(a) == Ordinal(b) ==> a == b
  {
  }

  /** Because the underlying values are distinct, `<=` on ratings is a total order. */
  lemma AtMostIsTotalOrder()
    ensures forall a: MpaaRating :: AtMost(a, a)
    ensures forall a: MpaaRating, b: MpaaRating :: AtMost(a, b) && AtMost(b, a) ==> a == b
    ensures forall a: MpaaRating, b: MpaaRating, c: MpaaRating ::
      AtMost(a, b) && AtMost(b, c) ==> AtMost(a, c)
    ensures forall a: MpaaRating, b: MpaaRating :: AtMost(a, b) || AtMost(b, a)
  {
  }
}
