/** Absence of a value: the browser code's `null`, a dialog the user
    cancelled, a storage key that was never written. */
module Options {

  datatype Option<T> = Some(value: T) | None {

    /** What a missing value falls back to: `fallback` stands in for `None`. */
    function ValueOr(fallback: T): T {
      if Some? then value else fallback
    }
  }
}
