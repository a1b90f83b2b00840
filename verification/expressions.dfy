/** Predicate expressions over a movie: the structured, inspectable form a rule takes
    (the C# program's `Expression<Func<Movie, bool>>`), how it is interpreted against one
    movie, and how it is compiled into a delegate. */
module Expressions {
  import opened Movies

  /** The attributes a rule may read */
  datatype Field = ReleaseDateAttr | MpaaRatingAttr | RatingAttr

  /** Operands of a comparison. Every operand denotes a number: a date by its ticks,
      a classification by its underlying value, the quality score as itself. */
  datatype Term =
    | Attr(field: Field)
    | RatingLit(mpaa: MpaaRating)
    | Number(value: real)
    | NowAddMonths(months: int)     // DateTime.Now.AddMonths(months)

  datatype Expr =
    | BoolLit(b: bool)              // a captured boolean, such as a method parameter
    | Le(lhs: Term, rhs: Term)
    | Ge(lhs: Term, rhs: Term)
    | And(left: Expr, right: Expr)
    | Or(left: Expr, right: Expr)
    | Not(operand: Expr)

  /** The value of attribute `f` of movie `m` */
  function AttributeValue(m: Movie, f: Field): real {
    match f
    case ReleaseDateAttr => m.releaseDate as real
    case MpaaRatingAttr => Ordinal(m.mpaaRating) as real
    case RatingAttr => m.rating
  }

  function EvalTerm(t: Term, m: Movie, clock: Clock): real {
    match t
    case Attr(f) => AttributeValue(m, f)
    case RatingLit(r) => Ordinal(r) as real
    case Number(v) => v
    case NowAddMonths(k) => clock(k) as real
  }

  /** Interpretation of an expression against one movie, with the clock read once */
  function Eval(e: Expr, m: Movie, clock: Clock): bool {
    match e
    case BoolLit(b) => b
    case Le(a, b) => EvalTerm(a, m, clock) <= EvalTerm(b, m, clock)
    case Ge(a, b) => EvalTerm(a, m, clock) >= EvalTerm(b, m, clock)
    case And(a, b) => Eval(a, m, clock) && Eval(b, m, clock)
    case Or(a, b) => Eval(a, m, clock) || Eval(b, m, clock)
    case Not(a) => !Eval(a, m, clock)
  }

  /** The attributes an expression reads */
  function Reads(e: Expr): set<Field> {
    match e
    case BoolLit(_) => {}
    case Le(a, b) => TermReads(a) + TermReads(b)
    case Ge(a, b) => TermReads(a) + TermReads(b)
    case And(a, b) => Reads(a) + Reads(b)
    case Or(a, b) => Reads(a) + Reads(b)
    case Not(a) => Reads(a)
  }

  function TermReads(t: Term): set<Field> {
    if t.Attr? then {t.field} else {}
  }

  /** Whether an expression consults the clock */
  predicate UsesClock(e: Expr) {
    match e
    case BoolLit(_) => false
    case Le(a, b) => a.NowAddMonths? || b.NowAddMonths?
    case Ge(a, b) => a.NowAddMonths? || b.NowAddMonths?
    case And(a, b) => UsesClock(a) || UsesClock(b)
    case Or(a, b) => UsesClock(a) || UsesClock(b)
    case Not(a) => UsesClock(a)
  }

  /** Stands in for expression compilation: it turns a tree into a delegate, here
      assembled node by node. The delegate takes the clock because the compiled code
      reads "now" each time it runs. */
  function CompileTerm(t: Term): (Movie, Clock) -> real {
    match t
    case Attr(f) => (m: Movie, clock: Clock) => AttributeValue(m, f)
    case RatingLit(r) => (m: Movie, clock: Clock) => Ordinal(r) as real
    case Number(v) => (m: Movie, clock: Clock) => v
    case NowAddMonths(k) => (m: Movie, clock: Clock) => clock(k) as real
  }

  function Compile(e: Expr): (Movie, Clock) -> bool {
    match e
    case BoolLit(b) => (m: Movie, clock: Clock) => b
    case Le(a, b) =>
      var fa := CompileTerm(a);
      var fb := CompileTerm(b);
      (m: Movie, clock: Clock) => fa(m, clock) <= fb(m, clock)
    case Ge(a, b) =>
      var fa := CompileTerm(a);
      var fb := CompileTerm(b);
      (m: Movie, clock: Clock) => fa(m, clock) >= fb(m, clock)
    case And(a, b) =>
      var fa := Compile(a);
      var fb := Compile(b);
      (m: Movie, clock: Clock) => fa(m, clock) && fb(m, clock)
    case Or(a, b) =>
      var fa := Compile(a);
      var fb := Compile(b);
      (m: Movie, clock: Clock) => fa(m, clock) || fb(m, clock)
    case Not(a) =>
      var fa := Compile(a);
      (m: Movie, clock: Clock) => !fa(m, clock)
  }

  /** The compiled delegate and the interpretation of the tree give the same answer
      on every movie and every clock. */
  lemma {:induction false} CompileAgrees(e: Expr, m: Movie, clock: Clock)
    ensures Compile(e)(m, clock) == Eval(e, m, clock)
  {
    match e
    case BoolLit(_) =>
    case Le(a, b) =>
    case Ge(a, b) =>
    case And(a, b) =>
      CompileAgrees(a, m, clock);
      CompileAgrees(b, m, clock);
    case Or(a, b) =>
      CompileAgrees(a, m, clock);
      CompileAgrees(b, m, clock);
    case Not(a) =>
      CompileAgrees(a, m, clock);
  }

  /** An expression's verdict depends only on the attributes it reads: two movies that
      agree on those get the same answer. */
  lemma {:induction false} EvalReadsOnly(e: Expr, m1: Movie, m2: Movie, clock: Clock)
    requires forall f :: f in Reads(e) ==> AttributeValue(m1, f) == AttributeValue(m2, f)
    ensures Eval(e, m1, clock) == Eval(e, m2, clock)
  {
    match e
    case BoolLit(_) =>
    case Le(a, b) =>
    case Ge(a, b) =>
    case And(a, b) =>
      EvalReadsOnly(a, m1, m2, clock);
      EvalReadsOnly(b, m1, m2, clock);
    case Or(a, b) =>
      EvalReadsOnly(a, m1, m2, clock);
      EvalReadsOnly(b, m1, m2, clock);
    case Not(a) =>
      EvalReadsOnly(a, m1, m2, clock);
  }

  /** An expression that never consults the clock gives the same verdict at any time. */
  lemma {:induction false} EvalClockFree(e: Expr, m: Movie, clock1: Clock, clock2: Clock)
    requires !UsesClock(e)
    ensures Eval(e, m, clock1) == Eval(e, m, clock2)
  {
    match e
    case BoolLit(_) =>
    case Le(a, b) =>
    case Ge(a, b) =>
    case And(a, b) =>
      EvalClockFree(a, m, clock1, clock2);
      EvalClockFree(b, m, clock1, clock2);
    case Or(a, b) =>
      EvalClockFree(a, m, clock1, clock2);
      EvalClockFree(b, m, clock1, clock2);
    case Not(a) =>
      EvalClockFree(a, m, clock1, clock2);
  }
}
