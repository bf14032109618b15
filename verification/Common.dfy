/** Types shared by every component. */
module Common {

  datatype Option<+T> = None | Some(value: T)

  type Text = string

  /** Instants are integers (microseconds); only order and difference matter. */
  type Time = int

  ghost predicate Distinct<T>(s: seq<T>) {
    forall i, j :: 0 <= i < j < |s| ==> s[i] != s[j]
  }
}
