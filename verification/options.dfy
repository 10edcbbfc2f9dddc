/** An optional value, for results the source leaves as `undefined`, `Infinity` or `-Infinity`. */
module Options {
  datatype Option<T> = None | Some(value: T)

  /** A best-so-far score of a search that starts from negative infinity. */
  datatype Score = NegInf | Finite(value: real)
}
