/** What several components share. */
module Common {

  datatype Option<+T> = None | Some(value: T)

  /** The longest path the program handles */
  const MAXPATHLEN: nat := 4096

  predicate Distinct<T(==)>(s: seq<T>) {
    forall i, j | 0 <= i < j < |s| :: s[i] != s[j]
  }
}
