/**
 * Values shared by both trackers: optional store entries and the numbers that
 * JavaScript's parseInt produces from a stored or typed string.
 */
module Common {

  /** A key-value store entry that may be absent (localStorage.getItem returning null). */
  datatype Option<+T> = None | Some(value: T)

  /**
   * The result of parseInt: an integer, or NaN when the text, after optional
   * whitespace and sign, does not begin with a digit.
   * Every comparison with NaN is false, which the trackers' guards rely on.
   */
  datatype JsNumber = Int(value: int) | NaN

  /** `a < b` on JavaScript numbers: false whenever one side is NaN. */
  predicate JsLess(a: JsNumber, b: JsNumber)
  {
    a.Int? && b.Int? && a.value < b.value
  }

  /**
   * The most recent entry of a log, which both trackers show as the last
   * completed task or the last walk: none exactly when the log is empty.
   */
  function Last<T>(s: seq<T>): (r: Option<T>)
    ensures r.None? <==> s == []
    ensures r.Some? ==> r.value == s[|s| - 1]
  {
    if s == [] then None else Some(s[|s| - 1])
  }

  /** Pairwise distinct elements (the rosters are lists of distinct names). */
  ghost predicate Distinct<T>(s: seq<T>)
  {
    forall i, j :: 0 <= i < j < |s| ==> s[i] != s[j]
  }
}
