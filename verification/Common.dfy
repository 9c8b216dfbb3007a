/** What several modules need. */
module Common {

  type Byte = b: int | 0 <= b < 256

  predicate NoRepeat(s: seq<int>) {
    forall i, j :: 0 <= i < j < |s| ==> s[i] != s[j]
  }
}
