/**
 * The paged endpoint as a scan sees it, and the truthiness of the `limit`
 * argument. The endpoint's answers are fixed in advance: `pages[n-1]` is what
 * a request for page `n` returns, and every page past the end is empty.
 */
module Pages {
  import opened Wrappers

  /** The answer to a request for page `n` (pages are numbered from 1). */
  function Fetch<T>(pages: seq<seq<T>>, n: int): seq<T>
  {
    if 1 <= n <= |pages| then pages[n - 1] else []
  }

  /** Page `n + 1` of a source is page `n` of the same source without its first page. */
  lemma FetchShift<T>(pages: seq<seq<T>>, n: int)
    requires pages != [] && n >= 1
    ensures Fetch(pages, n + 1) == Fetch(pages[1..], n)
  {
  }

  /** Every item an unbounded scan sees: the pages before the first empty one, in arrival order. */
  function Stream<T>(pages: seq<seq<T>>): seq<T>
    decreases |pages|
  {
    if pages == [] || pages[0] == [] then [] else pages[0] + Stream(pages[1..])
  }

  /** Every item of every page, in order, empty pages included. */
  function Flat<T>(pages: seq<seq<T>>): seq<T>
    decreases |pages|
  {
    if pages == [] then [] else pages[0] + Flat(pages[1..])
  }

  /** `if limit and ...`: a limit of `None` or `0` is falsy and means no cap. */
  predicate Capped(limit: Option<int>)
  {
    limit.Some? && limit.value != 0
  }

  /** `limit and len(xs) >= limit` for a collection of `n` elements. */
  predicate LimitHit(limit: Option<int>, n: int)
  {
    Capped(limit) && n >= limit.value
  }
}
