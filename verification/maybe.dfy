/** The optional result of a lookup by id: an absent entity is `Nothing`, never an error. */
module Maybes {

  datatype Maybe<+T> = Nothing | Just(value: T)
}
