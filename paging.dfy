/**
 * Fixed-size pages over an ordered listing, as every feed view builds them:
 * a paginator of COUNT_POSTS items per page, asked for page `k` (1-based).
 */
module Paging {
  import opened Models

  /** Items per page on every feed. */
  const COUNT_POSTS: nat := 10

  function Min(a: int, b: int): int
  {
    if a <= b then a else b
  }

  /**
   * The number of pages for n items: enough pages of COUNT_POSTS to hold them
   * all, and one (empty) page when there are none.
   */
  function NumPages(n: nat): (r: nat)
    ensures r >= 1
    ensures n == 0 ==> r == 1
    ensures n > 0 ==> (r - 1) * COUNT_POSTS < n <= r * COUNT_POSTS
  {
    if n == 0 then 1 else (n + COUNT_POSTS - 1) / COUNT_POSTS
  }

  /**
   * Page `k` of `items`: present exactly when 1 <= k <= NumPages(|items|); it holds
   * the items from position (k - 1) * COUNT_POSTS on, up to COUNT_POSTS of them.
   */
  function PageOf<T>(items: seq<T>, k: int): (r: Option<seq<T>>)
    ensures r.Some? <==> 1 <= k <= NumPages(|items|)
    ensures r.Some? ==>
      && |r.value| == Min(COUNT_POSTS, |items| - (k - 1) * COUNT_POSTS)
      && forall i :: 0 <= i < |r.value| ==> r.value[i] == items[(k - 1) * COUNT_POSTS + i]
  {
    if 1 <= k <= NumPages(|items|) then
      var lo := (k - 1) * COUNT_POSTS;
      Some(items[lo..Min(lo + COUNT_POSTS, |items|)])
    else
      None
  }

  /** Every page but the last is full, and the last page is empty only when there are no items. */
  lemma PageSizes<T>(items: seq<T>, k: int)
    requires 1 <= k <= NumPages(|items|)
    ensures k < NumPages(|items|) ==> |PageOf(items, k).value| == COUNT_POSTS
    ensures k == NumPages(|items|) ==> (|PageOf(items, k).value| == 0 <==> |items| == 0)
  {
  }

  /** Item i sits on page i / COUNT_POSTS + 1, at position i % COUNT_POSTS. */
  lemma PageOfItem<T>(items: seq<T>, i: nat)
    requires i < |items|
    ensures var k := i / COUNT_POSTS + 1;
      && PageOf(items, k).Some?
      && i % COUNT_POSTS < |PageOf(items, k).value|
      && PageOf(items, k).value[i % COUNT_POSTS] == items[i]
  {
    var k := i / COUNT_POSTS + 1;
    assert i == (k - 1) * COUNT_POSTS + i % COUNT_POSTS;
  }

  /** Eleven items make two pages, of ten and of one. */
  lemma ElevenItems<T>(items: seq<T>)
    requires |items| == 11
    ensures NumPages(|items|) == 2
    ensures |PageOf(items, 1).value| == 10
    ensures |PageOf(items, 2).value| == 1
    ensures PageOf(items, 3).None?
  {
  }

  /** A page is a contiguous slice, so it keeps the listing's order. */
  lemma PageKeepsOrder(items: seq<Post>, k: int)
    requires NewestFirst(items)
    requires PageOf(items, k).Some?
    ensures NewestFirst(PageOf(items, k).value)
  {
    var pg := PageOf(items, k).value;
    forall i, j | 0 <= i < j < |pg| ensures pg[i].pubDate > pg[j].pubDate {
      assert pg[i] == items[(k - 1) * COUNT_POSTS + i] && pg[j] == items[(k - 1) * COUNT_POSTS + j];
    }
  }
}
