/**
 * The explore section of the home page: an infinite query whose pages are flattened into
 * one list of posts, a cursor rule that decides whether there is a next page, and the
 * effect that fetches it when the end of the list scrolls into view.
 *
 * A page is whatever the explore endpoint answered: `null`, a bare array of posts, or an
 * object with `posts` (possibly missing) and `nextCursor` (the empty string standing for
 * a missing or empty cursor, all of which are falsy).
 */
module HomePage {
  import opened Wrappers

  datatype PostView = PostView(id: string)

  datatype Page = NullPage | ArrayPage(items: seq<PostView>) | ObjectPage(posts: Option<seq<PostView>>, nextCursor: string)

  /** The infinite query's `data`; `pages` may be missing. */
  datatype InfiniteData = InfiniteData(pages: Option<seq<Page>>)

  /** The result of `getNextPageParam(lastPage)`. */
  datatype NextParam = Cursor(cursor: string) | NoMore | Throws

  /** `lastPage.nextCursor || undefined`; reading a property of `null` throws. */
  function NextPageParam(lastPage: Page): (p: NextParam)
    ensures p.Throws? <==> lastPage.NullPage?
    ensures p.Cursor? <==> lastPage.ObjectPage? && lastPage.nextCursor != ""
    ensures p.Cursor? ==> p.cursor == lastPage.nextCursor
  {
    match lastPage
    case NullPage => Throws
    case ArrayPage(_) => NoMore
    case ObjectPage(_, cursor) => if cursor != "" then Cursor(cursor) else NoMore
  }

  /** What one page adds to the list: nothing for `null`, an array itself, an object its `posts` or nothing. */
  function Contribution(page: Page): seq<PostView>
  {
    match page
    case NullPage => []
    case ArrayPage(items) => items
    case ObjectPage(posts, _) => posts.GetOr([])
  }

  /** `pages.flatMap(...)`. */
  function FlatMap(pages: seq<Page>): seq<PostView>
  {
    if pages == [] then [] else Contribution(pages[0]) + FlatMap(pages[1..])
  }

  /** `allExplorePosts`: the flattened pages, or nothing while there is no data. */
  function AllExplorePosts(data: Option<InfiniteData>): (posts: seq<PostView>)
    ensures data.None? || data.value.pages.None? ==> posts == []
  {
    if data.Some? && data.value.pages.Some? then FlatMap(data.value.pages.value) else []
  }

  /** Flattening respects concatenation: a fetched page's posts are appended after all earlier ones. */
  lemma {:induction false} FlatMapAppend(a: seq<Page>, b: seq<Page>)
    ensures FlatMap(a + b) == FlatMap(a) + FlatMap(b)
  {
    if a == [] {
      assert a + b == b;
    } else {
      assert (a + b)[0] == a[0] && (a + b)[1..] == a[1..] + b;
      FlatMapAppend(a[1..], b);
    }
  }

  /** Fetching one more page keeps the list so far and adds the new page's posts at its end. */
  lemma FetchAppends(pages: seq<Page>, next: Page)
    ensures FlatMap(pages + [next]) == FlatMap(pages) + Contribution(next)
  {
    FlatMapAppend(pages, [next]);
  }

  /** A post is listed exactly when some page contributes it. */
  lemma {:induction false} FlatMapMembership(pages: seq<Page>, x: PostView)
    ensures x in FlatMap(pages) <==> exists i :: 0 <= i < |pages| && x in Contribution(pages[i])
  {
    if pages != [] {
      FlatMapMembership(pages[1..], x);
      if x in FlatMap(pages[1..]) {
        var i :| 0 <= i < |pages[1..]| && x in Contribution(pages[1..][i]);
        assert x in Contribution(pages[i + 1]);
      }
      if exists i :: 0 <= i < |pages| && x in Contribution(pages[i]) {
        var i :| 0 <= i < |pages| && x in Contribution(pages[i]);
        if i > 0 {
          assert pages[1..][i - 1] == pages[i];
        }
      }
    }
  }

  /** Null pages contribute nothing: removing them does not change the list. */
  lemma {:induction false} NullPagesIgnored(a: seq<Page>, b: seq<Page>)
    ensures FlatMap(a + [NullPage] + b) == FlatMap(a + b)
  {
    var withNull := a + [NullPage];
    FlatMapAppend(withNull, b);
    FetchAppends(a, NullPage);
    FlatMapAppend(a, b);
    var left, right := FlatMap(a), FlatMap(b);
    assert FlatMap(withNull) == left;
    assert FlatMap(a + [NullPage] + b) == left + right;
  }

  /** `hasNextPage`: the last page names a next cursor (a throwing rule is taken as no next page). */
  function HasNextPage(pages: seq<Page>): (has: bool)
    ensures has ==> |pages| > 0 && pages[|pages| - 1].ObjectPage? && pages[|pages| - 1].nextCursor != ""
  {
    |pages| > 0 && NextPageParam(pages[|pages| - 1]).Cursor?
  }

  /** The fetch-next effect fires when the end of the list is in view and there is a next page. */
  function ShouldFetchNext(inView: bool, pages: seq<Page>): bool
  {
    inView && HasNextPage(pages)
  }

  /** A fetch happens only with the list's end in view and a cursor named by the last page, which is an object. */
  lemma FetchNeedsCursor(inView: bool, pages: seq<Page>)
    requires ShouldFetchNext(inView, pages)
    ensures inView && |pages| > 0
    ensures pages[|pages| - 1].ObjectPage? && pages[|pages| - 1].nextCursor != ""
  {
  }

  /** Once the last page is a bare array (or an object without a cursor), no more pages are fetched. */
  lemma PaginationStops(inView: bool, pages: seq<Page>, last: Page)
    requires last.ArrayPage? || (last.ObjectPage? && last.nextCursor == "")
    ensures !ShouldFetchNext(inView, pages + [last])
  {
  }
}
