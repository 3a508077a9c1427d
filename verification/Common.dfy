/** What several models share. */
module Common {
  datatype Option<T> = None | Some(value: T)

  /** Nanoseconds. */
  const SECOND := 1_000_000_000

  /** One element of a set, in the arbitrary order of a map's or set's iteration. */
  method AnyOf<T(==)>(s: set<T>) returns (x: T)
    requires s != {}
    ensures x in s
  {
    x :| x in s;
  }
}
