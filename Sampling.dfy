/**
 * The integer and string arithmetic of `sample_column_data` and of the previews of
 * `get_variable_info`: how a "mixed" sample is split between head, tail and random rows,
 * how many values it yields, and how long text is cut short.
 */
module Sampling {

  function Min(a: int, b: int): int { if a <= b then a else b }
  function Max(a: int, b: int): int { if a <= b then b else a }

  /** How a "mixed" sample of n values is shared out: head rows, tail rows and random middle rows. */
  datatype MixedSplit = MixedSplit(head: int, tail: int, random: int)

  /**
   * `third = n // 3`, `remainder = n % 3`; the head takes one extra row when there is a
   * remainder, the tail one more when the remainder is 2. Python's `//` and `%` floor, which
   * for the divisor 3 agrees with Dafny's `/` and `%`, also for a negative requested size.
   */
  function SplitMixed(sampleSize: int, totalCount: nat): (s: MixedSplit)
    ensures s.head + s.tail + s.random == Min(sampleSize, totalCount)
    ensures s.head >= s.tail >= s.random
    ensures s.head - s.random <= 1
  {
    var n := Min(sampleSize, totalCount);
    var third := n / 3;
    var remainder := n % 3;
    MixedSplit(third + (if remainder > 0 then 1 else 0), third + (if remainder > 1 then 1 else 0), third)
  }

  /** `column.head(k)` and `column.tail(k)` for positive k: at most k rows, at most all of them. */
  function EndRows(k: int, totalCount: nat): nat {
    if k > 0 then Min(k, totalCount) else 0
  }

  /**
   * The number of values a "mixed" sample collects: head rows and tail rows when their share
   * is positive, then, when rows remain between them, a random draw of at most the random
   * share from those middle rows (`iloc[head:-tail]`, or `iloc[head:]` when the tail share is 0).
   */
  function MixedSampleCount(sampleSize: int, totalCount: nat): (count: nat)
  {
    var s := SplitMixed(sampleSize, totalCount);
    var drawn :=
      if s.random > 0 && totalCount > s.head + s.tail then
        var middle := if s.tail > 0 then totalCount - s.head - s.tail else totalCount - s.head;
        if middle > 0 then Min(s.random, middle) else 0
      else 0;
    EndRows(s.head, totalCount) + EndRows(s.tail, totalCount) + drawn
  }

  /**
   * A "mixed" sample has exactly `min(sample_size, total_count)` values, none for a size that is
   * not positive; and its head, tail and middle windows never overlap, so no row is taken twice.
   */
  lemma MixedSampleSize(sampleSize: int, totalCount: nat)
    ensures MixedSampleCount(sampleSize, totalCount) == Max(0, Min(sampleSize, totalCount))
    ensures sampleSize >= 0 ==>
      var s := SplitMixed(sampleSize, totalCount);
      0 <= s.random && s.head + s.tail + s.random <= totalCount
  {
    var s := SplitMixed(sampleSize, totalCount);
    var n := Min(sampleSize, totalCount);
    if n < 0 {
      assert s.head <= 0;
    } else {
      assert s.random >= 0 && s.head + s.tail <= totalCount;
      if s.random > 0 {
        assert totalCount - s.head - s.tail >= s.random;
      }
    }
  }

  /** Python's `s[:k]`: a negative k counts from the end. */
  function SliceTo(s: string, k: int): (r: string)
    ensures |r| == if k >= 0 then Min(k, |s|) else Max(0, |s| + k)
    ensures r == s[..|r|]
  {
    if k >= 0 then s[..Min(k, |s|)] else s[..Max(0, |s| + k)]
  }

  /** Text longer than the limit becomes its first `limit` characters and "...". */
  function Truncate(text: string, limit: int): (r: string)
    ensures |text| <= limit ==> r == text
    ensures |text| > limit ==> |r| >= 3 && r[|r| - 3..] == "..." && r[..|r| - 3] == SliceTo(text, limit)
    ensures limit >= 0 ==> |r| <= limit + 3
    ensures limit >= 0 && |text| > limit ==> |r| == limit + 3 && r[..limit] == text[..limit]
  {
    if |text| > limit then SliceTo(text, limit) + "..." else text
  }

  /** The limit the previews of `get_variable_info` use. */
  const PreviewLength: nat := 200

  /** A preview of a collection or other object: at most 203 characters, the first 200 of the text kept. */
  function Preview(text: string): (r: string)
    ensures |text| <= PreviewLength ==> r == text
    ensures |text| > PreviewLength ==> |r| == PreviewLength + 3 && r[..PreviewLength] == text[..PreviewLength]
  {
    Truncate(text, PreviewLength)
  }
}
