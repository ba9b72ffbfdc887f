/** Normalisation of the `page` and `size` query parameters (util/Paging). */
module Paging {
  import opened Common

  const DefaultPage: int := 0
  const DefaultSize: int := 20
  const MaxSize: int := 100

  /** A null or negative page becomes the first page; any other page is kept. */
  function NormalizePage(page: Option<int>): (p: int)
    ensures p >= 0
    ensures p == page.value <== page.Some? && page.value >= 0
    ensures p == DefaultPage <== page.None? || page.value < 0
  {
    if page.None? || page.value < 0 then DefaultPage else page.value
  }

  /** A null or non-positive size becomes the default size; any other is capped at the maximum. */
  function NormalizeSize(size: Option<int>): (s: int)
    ensures 1 <= s <= MaxSize
    ensures s == DefaultSize <== size.None? || size.value <= 0
    ensures size.Some? && size.value > 0 ==> s == (if size.value < MaxSize then size.value else MaxSize)
  {
    if size.None? || size.value <= 0 then DefaultSize
    else if size.value < MaxSize then size.value else MaxSize
  }

  /** Normalising an already normalised value changes nothing. */
  lemma NormalizeIdempotent(page: Option<int>, size: Option<int>)
    ensures NormalizePage(Some(NormalizePage(page))) == NormalizePage(page)
    ensures NormalizeSize(Some(NormalizeSize(size))) == NormalizeSize(size)
  {
  }

  /** Every in-range request passes through unchanged, and only those do. */
  lemma NormalizeFixedPoints(page: int, size: int)
    ensures NormalizePage(Some(page)) == page <==> page >= 0
    ensures NormalizeSize(Some(size)) == size <==> 1 <= size <= MaxSize
  {
  }
}
