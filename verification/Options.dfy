/** What the whole model uses: a pointer that may be NULL, and lists without repetition. */
module Options {
  datatype Option<+T> = None | Some(value: T)

  predicate Distinct(s: seq<nat>) {
    forall i, j :: 0 <= i < j < |s| ==> s[i] != s[j]
  }
}
