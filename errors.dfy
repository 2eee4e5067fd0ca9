/** The error taxonomy shared by every DIGIPIN operation (src/error.rs, src/errors.rs and the
    copy inside src/lib.rs declare the same four-variant enum), and the small slice of IEEE-754
    double precision that the range checks need: comparisons of a coordinate with the
    rectangle's edges. */
module Errors {

  /** An `f64` as far as comparison is concerned: a finite value (any real; rounding is not
      modelled), an infinity, or NaN. */
  datatype F64 = Finite(value: real) | Infinity(negative: bool) | NaN

  /** IEEE `a <= b`: false whenever either side is NaN. */
  predicate Le(a: F64, b: F64) {
    match (a, b)
    case (NaN, _) => false
    case (_, NaN) => false
    case (Finite(x), Finite(y)) => x <= y
    case (Infinity(n), Finite(_)) => n
    case (Finite(_), Infinity(n)) => !n
    case (Infinity(n1), Infinity(n2)) => n1 || !n2
  }

  /** IEEE `a < b`: false whenever either side is NaN. */
  predicate Lt(a: F64, b: F64) {
    match (a, b)
    case (NaN, _) => false
    case (_, NaN) => false
    case (Finite(x), Finite(y)) => x < y
    case (Infinity(n), Finite(_)) => n
    case (Finite(_), Infinity(n)) => !n
    case (Infinity(n1), Infinity(n2)) => n1 && !n2
  }

  /** Rust's `(lo..=hi).contains(&x)`, that is `lo <= x && x <= hi`. */
  predicate InClosed(x: F64, lo: real, hi: real) {
    Le(Finite(lo), x) && Le(x, Finite(hi))
  }

  /** `DigipinError`: the four ways an operation can fail. */
  datatype DigipinError =
    | LatitudeOutOfRange(latitude: F64)
    | LongitudeOutOfRange(longitude: F64)
    | InvalidLength(count: nat)
    | InvalidCharacter(ch: char)

  /** `DigipinResult<T>`. */
  datatype Result<T> = Ok(value: T) | Err(error: DigipinError)

  /** On a number that is not NaN, IEEE comparison is a total order: a value fails the
      inclusive range check exactly when it lies strictly below the lower edge or strictly above
      the upper one. */
  lemma OutsideMeansStrictlyBeyond(x: F64, lo: real, hi: real)
    requires x != NaN
    ensures !InClosed(x, lo, hi) <==> Lt(x, Finite(lo)) || Lt(Finite(hi), x)
  {
  }
}
