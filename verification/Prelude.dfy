/** Datatypes shared by every component of the model. */
module Prelude {

  datatype Option<+T> = None | Some(value: T)

  /** A calendar date; months and days are not range-checked because only their order is used. */
  datatype Date = Date(year: int, month: int, day: int) {
    predicate Before(other: Date) {
      year < other.year
      || (year == other.year && (month < other.month
                                 || (month == other.month && day < other.day)))
    }
  }
}
