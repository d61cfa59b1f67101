/** Subsequences by position. */
module Picking {
  /** The elements at the marked positions, in order. */
  function Pick<T>(xs: seq<T>, marked: seq<bool>): seq<T>
    requires |xs| == |marked|
  {
    if xs == [] then [] else (if marked[0] then [xs[0]] else []) + Pick(xs[1..], marked[1..])
  }
}
