/** The search strategy of String.prototype.match for a regular expression without
    the g flag: try every start position from left to right and report the first
    one at which the pattern matches. A pattern is given as `at`, the outcome of
    matching it at one start position (None when it does not match there). */
module Scan {
  import opened Text

  /** The leftmost position in [from, |s|] at which `at` succeeds, with its result. */
  function FirstMatch<T>(s: string, from: nat, at: nat -> Option<T>): (r: Option<(nat, T)>)
    ensures r.Some? ==> from <= r.value.0 <= |s| && at(r.value.0) == Some(r.value.1)
    ensures r.Some? ==> forall j :: from <= j < r.value.0 ==> at(j).None?
    ensures r.None? ==> forall j :: from <= j <= |s| ==> at(j).None?
    decreases |s| + 1 - from
  {
    if from > |s| then None
    else match at(from)
      case Some(v) => Some((from, v))
      case None => FirstMatch(s, from + 1, at)
  }

  /** The leftmost match of `at` anywhere in s. */
  function Leftmost<T>(s: string, at: nat -> Option<T>): (r: Option<(nat, T)>)
    ensures r.Some? ==> r.value.0 <= |s| && at(r.value.0) == Some(r.value.1)
    ensures r.Some? ==> forall j :: 0 <= j < r.value.0 ==> at(j).None?
    ensures r.None? <==> forall j :: 0 <= j <= |s| ==> at(j).None?
  {
    FirstMatch(s, 0, at)
  }
}
