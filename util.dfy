/**
 * Small shared helpers: an optional value, as PHP's `null` / missing array key, and facts
 * about cutting sequences apart.
 */
module Util {

  datatype Option<+T> = None | Some(value: T) {
    /** The value, or `default` when absent: PHP's `$x ?? default`. */
    function GetOr(default: T): T {
      match this
      case Some(v) => v
      case None => default
    }
  }

  /** A non-empty sequence is its front followed by its last element. */
  lemma SnocSplit<T>(s: seq<T>)
    requires s != []
    ensures s == s[..|s| - 1] + [s[|s| - 1]]
  {
  }

  /** A sequence is what comes before position `k`, the element there, and what follows. */
  lemma SplitAt<T>(b: seq<T>, k: nat)
    requires k < |b|
    ensures b == b[..k] + ([b[k]] + b[k + 1..])
  {
  }

  /** Inside `[x] + (mid + tail)`, the slice `mid[a..b]` starts at position 1 + a. */
  lemma InnerSlice<T>(s: seq<T>, x: T, mid: seq<T>, tail: seq<T>, a: nat, b: nat)
    requires s == [x] + (mid + tail) && a <= b <= |mid|
    ensures 1 + b <= |s|
    ensures forall i :: 0 <= i < b - a ==> s[1 + a + i] == mid[a..b][i]
  {
  }
}
