/** Contiguous occurrences of a pattern inside a text, and the naive
    left-to-right scan that finds the first one (Java's `indexOf`). */
module Occurrence {

  /** `pattern` occurs in `text` starting at offset `s`. */
  predicate OccursAt<T(==)>(text: seq<T>, pattern: seq<T>, s: int)
  {
    && 0 <= s
    && s + |pattern| <= |text|
    && forall t :: 0 <= t < |pattern| ==> text[s + t] == pattern[t]
  }

  /** `pattern` occurs somewhere in `text`. */
  ghost predicate Occurs<T>(text: seq<T>, pattern: seq<T>)
  {
    exists s :: OccursAt(text, pattern, s)
  }

  /** Naive scan: the first offset at or after `from` where `pattern` occurs, or -1. */
  function IndexOfFrom<T(==)>(text: seq<T>, pattern: seq<T>, from: nat): (r: int)
    ensures r == -1 || from <= r
    ensures r == -1 ==> forall s :: from <= s ==> !OccursAt(text, pattern, s)
    ensures r >= 0 ==> OccursAt(text, pattern, r)
    ensures r >= 0 ==> forall s :: from <= s < r ==> !OccursAt(text, pattern, s)
    decreases |text| - from
  {
    if from + |pattern| > |text| then -1
    else if OccursAt(text, pattern, from) then from
    else IndexOfFrom(text, pattern, from + 1)
  }

  /** Java's `text.indexOf(pattern)`: the first occurrence offset, or -1.
      An empty pattern occurs at offset 0. */
  function IndexOf<T(==)>(text: seq<T>, pattern: seq<T>): (r: int)
  {
    IndexOfFrom(text, pattern, 0)
  }

  /** The naive scan returns the least occurrence offset, and -1 exactly
      when the pattern does not occur at all. */
  lemma IndexOfIsFirstOccurrence<T>(text: seq<T>, pattern: seq<T>)
    ensures IndexOf(text, pattern) == -1 <==> !Occurs(text, pattern)
    ensures IndexOf(text, pattern) >= 0 ==>
      && OccursAt(text, pattern, IndexOf(text, pattern))
      && forall s :: 0 <= s < IndexOf(text, pattern) ==> !OccursAt(text, pattern, s)
  {
    var r := IndexOf(text, pattern);
    if r >= 0 {
      assert OccursAt(text, pattern, r);
    }
  }

  /** Any offset that is an occurrence with no earlier occurrence is the
      value the naive scan returns. */
  lemma FirstOccurrenceIsIndexOf<T>(text: seq<T>, pattern: seq<T>, r: int)
    requires OccursAt(text, pattern, r)
    requires forall s :: 0 <= s < r ==> !OccursAt(text, pattern, s)
    ensures IndexOf(text, pattern) == r
  {
    assert OccursAt(text, pattern, r);
  }
}
