/** Facts about taking a sequence at chosen positions, shared by the
    gallery's group lookup and the timetable's filter. */
module Sequences {

  /** `r` is `s` taken at the strictly increasing positions `p`. */
  predicate SubsequenceAt<T(==)>(r: seq<T>, s: seq<T>, p: seq<nat>) {
    |p| == |r| &&
    (forall j :: 0 <= j < |p| ==> p[j] < |s| && r[j] == s[p[j]]) &&
    (forall j, k :: 0 <= j < k < |p| ==> p[j] < p[k])
  }
}
