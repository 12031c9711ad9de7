/** The Knuth-Morris-Pratt byte matcher of ByteArrayFilterGroup:
    the failure table (`createFailurePattern`) and the search (`indexOf`). */
module Kmp {
  import opened Common
  import Occurrence

  /** `pattern[..k]` is a proper border of `pattern[..n]`: a proper prefix
      of it that is also a suffix of it. */
  predicate IsBorder(pattern: seq<Byte>, n: int, k: int)
  {
    && 0 <= k < n <= |pattern|
    && forall t :: 0 <= t < k ==> pattern[t] == pattern[n - k + t]
  }

  /** `k` is the length of the longest proper border of `pattern[..n]`. */
  ghost predicate IsLongestBorder(pattern: seq<Byte>, n: int, k: int)
  {
    && IsBorder(pattern, n, k)
    && forall k' :: k < k' < n ==> !IsBorder(pattern, n, k')
  }

  /** `failure` is the KMP failure table of `pattern`: entry `i` is the
      length of the longest proper border of `pattern[..i+1]`. */
  ghost predicate IsFailureTable(pattern: seq<Byte>, failure: seq<int>)
  {
    && |failure| == |pattern|
    && forall i :: 0 <= i < |pattern| ==> IsLongestBorder(pattern, i + 1, failure[i])
  }

  /** The last `k` bytes of `data[..end]` equal the first `k` bytes of `pattern`. */
  ghost predicate SuffixMatch(data: seq<Byte>, end: int, pattern: seq<Byte>, k: int)
  {
    && 0 <= k <= end <= |data|
    && k <= |pattern|
    && forall t :: 0 <= t < k ==> pattern[t] == data[end - k + t]
  }

  /** A border of a border is a border: below a border `j` of `pattern[..n]`,
      the borders of `pattern[..n]` and of `pattern[..j]` coincide. */
  lemma BorderOfBorder(pattern: seq<Byte>, n: int, j: int, k: int)
    requires IsBorder(pattern, n, j)
    requires 0 <= k < j
    ensures IsBorder(pattern, n, k) <==> IsBorder(pattern, j, k)
  {
    if IsBorder(pattern, n, k) {
      forall t | 0 <= t < k
        ensures pattern[t] == pattern[j - k + t]
      {
        assert pattern[j - k + t] == pattern[n - j + (j - k + t)];
        assert pattern[t] == pattern[n - k + t];
      }
    }
    if IsBorder(pattern, j, k) {
      forall t | 0 <= t < k
        ensures pattern[t] == pattern[n - k + t]
      {
        assert pattern[j - k + t] == pattern[n - j + (j - k + t)];
        assert pattern[t] == pattern[j - k + t];
      }
    }
  }

  /** A border of `pattern[..n+1]` is a border of `pattern[..n]` extended by one byte. */
  lemma ExtendBorder(pattern: seq<Byte>, n: int, k: int)
    requires 0 <= k < n < |pattern|
    ensures IsBorder(pattern, n + 1, k + 1) <==> IsBorder(pattern, n, k) && pattern[k] == pattern[n]
  {
    if IsBorder(pattern, n, k) && pattern[k] == pattern[n] {
      forall t | 0 <= t < k + 1
        ensures pattern[t] == pattern[n + 1 - (k + 1) + t]
      {
        if t < k {
          assert pattern[t] == pattern[n - k + t];
        }
      }
    }
  }

  /** Below a partial match of length `j` ending at `end`, the shorter partial
      matches ending there are exactly the borders of `pattern[..j]`. */
  lemma SuffixOfSuffix(data: seq<Byte>, end: int, pattern: seq<Byte>, j: int, k: int)
    requires SuffixMatch(data, end, pattern, j)
    requires 0 <= k < j
    ensures SuffixMatch(data, end, pattern, k) <==> IsBorder(pattern, j, k)
  {
    if SuffixMatch(data, end, pattern, k) {
      forall t | 0 <= t < k
        ensures pattern[t] == pattern[j - k + t]
      {
        assert pattern[j - k + t] == data[end - j + (j - k + t)];
        assert pattern[t] == data[end - k + t];
      }
    }
    if IsBorder(pattern, j, k) {
      forall t | 0 <= t < k
        ensures pattern[t] == data[end - k + t]
      {
        assert pattern[j - k + t] == data[end - j + (j - k + t)];
        assert pattern[t] == pattern[j - k + t];
      }
    }
  }

  /** A partial match of length `k + 1` ending at `end + 1` is one of length
      `k` ending at `end` followed by a matching byte. */
  lemma ExtendSuffix(data: seq<Byte>, end: int, pattern: seq<Byte>, k: int)
    requires 0 <= k <= end < |data|
    requires k < |pattern|
    ensures SuffixMatch(data, end + 1, pattern, k + 1)
        <==> SuffixMatch(data, end, pattern, k) && pattern[k] == data[end]
  {
    if SuffixMatch(data, end, pattern, k) && pattern[k] == data[end] {
      forall t | 0 <= t < k + 1
        ensures pattern[t] == data[end + 1 - (k + 1) + t]
      {
        if t < k {
          assert pattern[t] == data[end - k + t];
        }
      }
    }
  }

  /** A full-length match ending at `end` is an occurrence starting at `end - |pattern|`. */
  lemma FullSuffixIsOccurrence(data: seq<Byte>, end: int, pattern: seq<Byte>)
    requires |pattern| <= end <= |data|
    ensures SuffixMatch(data, end, pattern, |pattern|)
        <==> Occurrence.OccursAt(data, pattern, end - |pattern|)
  {
    var s := end - |pattern|;
    if Occurrence.OccursAt(data, pattern, s) {
      forall t | 0 <= t < |pattern|
        ensures pattern[t] == data[end - |pattern| + t]
      {
        assert data[s + t] == pattern[t];
      }
    }
  }

  /** Failure table of `pattern`, computed by matching the pattern against itself. */
  method CreateFailurePattern(pattern: seq<Byte>) returns (failure: seq<int>)
    ensures IsFailureTable(pattern, failure)
    ensures |pattern| > 0 ==> failure[0] == 0
    ensures forall i :: 0 <= i < |failure| ==> 0 <= failure[i] <= i
  {
    var n := |pattern|;
    if n == 0 {
      return [];
    }
    failure := [0];
    var i := 1;
    var j := 0;
    while i < n
      invariant 1 <= i <= n
      invariant |failure| == i
      invariant forall q :: 0 <= q < i ==> IsLongestBorder(pattern, q + 1, failure[q])
      invariant j == failure[i - 1]
    {
      while j > 0 && pattern[j] != pattern[i]
        invariant 0 <= j < i
        invariant IsBorder(pattern, i, j)
        invariant forall k :: j < k < i ==> IsBorder(pattern, i, k) ==> pattern[k] != pattern[i]
        decreases j
      {
        var longer := j;
        j := failure[j - 1];
        BorderOfBorder(pattern, i, longer, j);
        forall k | j < k < i
          ensures IsBorder(pattern, i, k) ==> pattern[k] != pattern[i]
        {
          if k < longer {
            BorderOfBorder(pattern, i, longer, k);
          }
        }
      }
      if pattern[j] == pattern[i] {
        ExtendBorder(pattern, i, j);
        j := j + 1;
      }
      ghost var next := i + 1;
      forall k' | j < k' < next
        ensures !IsBorder(pattern, next, k')
      {
        ExtendBorder(pattern, i, k' - 1);
      }
      failure := failure + [j];
      i := i + 1;
    }
  }

  /** First offset at which `pattern` occurs in `data`, or -1, scanning `data`
      once while falling back through the failure table on a mismatch.
      An empty pattern makes the source read `pattern[0]`, which throws as
      soon as there is a byte of data to compare. */
  method IndexOf(data: seq<Byte>, pattern: seq<Byte>, failure: seq<int>) returns (r: Result<int>)
    requires IsFailureTable(pattern, failure)
    ensures |pattern| == 0 ==> r == (if |data| == 0 then Ok(-1) else Err(IndexOutOfBounds))
    ensures |pattern| > 0 ==> r == Ok(Occurrence.IndexOf(data, pattern))
    ensures |pattern| > 0 && r.value == -1 ==> !Occurrence.Occurs(data, pattern)
    ensures |pattern| > 0 && r.value != -1 ==>
      && Occurrence.OccursAt(data, pattern, r.value)
      && forall s :: 0 <= s < r.value ==> !Occurrence.OccursAt(data, pattern, s)
  {
    var m := |pattern|;
    if m == 0 {
      if |data| == 0 {
        return Ok(-1);
      }
      return Err(IndexOutOfBounds);
    }
    var i := 0;
    var j := 0;
    while i < |data|
      invariant 0 <= i <= |data|
      invariant 0 <= j < m && j <= i
      invariant SuffixMatch(data, i, pattern, j)
      invariant forall k :: j < k < m && k <= i ==> !SuffixMatch(data, i, pattern, k)
      invariant forall s :: 0 <= s && s + m <= i ==> !Occurrence.OccursAt(data, pattern, s)
    {
      while j > 0 && pattern[j] != data[i]
        invariant 0 <= j < m && j <= i
        invariant SuffixMatch(data, i, pattern, j)
        invariant forall k :: j < k < m && k <= i ==> SuffixMatch(data, i, pattern, k) ==> pattern[k] != data[i]
        decreases j
      {
        var longer := j;
        j := failure[j - 1];
        SuffixOfSuffix(data, i, pattern, longer, j);
        forall k | j < k < m && k <= i
          ensures SuffixMatch(data, i, pattern, k) ==> pattern[k] != data[i]
        {
          if k < longer {
            SuffixOfSuffix(data, i, pattern, longer, k);
          }
        }
      }
      if pattern[j] == data[i] {
        ExtendSuffix(data, i, pattern, j);
        j := j + 1;
      }
      ghost var next := i + 1;
      forall k | j < k <= m && k <= next
        ensures !SuffixMatch(data, next, pattern, k)
      {
        ExtendSuffix(data, i, pattern, k - 1);
      }
      if j == m {
        FullSuffixIsOccurrence(data, next, pattern);
        Occurrence.FirstOccurrenceIsIndexOf(data, pattern, i - m + 1);
        return Ok(i - m + 1);
      }
      forall s | 0 <= s && s + m <= next
        ensures !Occurrence.OccursAt(data, pattern, s)
      {
        if s + m == next {
          FullSuffixIsOccurrence(data, next, pattern);
        }
      }
      i := i + 1;
    }
    Occurrence.IndexOfIsFirstOccurrence(data, pattern);
    return Ok(-1);
  }
}
