/** The sync-token-driven pagination loop that lists both the account's
    calendars and a calendar's events. The remote list endpoint is a
    sequence of responses: the i-th call made by a listing receives `pages[i]`. */
module Paging {
  import opened Options

  /** One response of a list call. `items` is `None` when the response has
      no "items" key. */
  datatype Page<T> = Page(items: Option<seq<T>>, nextPageToken: Option<string>, nextSyncToken: Option<string>)

  /** `result.get("items", [])`. */
  function ItemsOf<T>(p: Page<T>): seq<T> {
    p.items.GetOr([])
  }

  /** Some response carries a sync token, so a listing ends. */
  predicate HasSyncToken<T>(pages: seq<Page<T>>) {
    exists i :: 0 <= i < |pages| && pages[i].nextSyncToken.Some?
  }

  /** The 0-based position of the first response that carries a sync token. */
  function FirstSyncIndex<T>(pages: seq<Page<T>>): (k: nat)
    requires HasSyncToken(pages)
    ensures k < |pages| && pages[k].nextSyncToken.Some?
    ensures forall j :: 0 <= j < k ==> pages[j].nextSyncToken.None?
    decreases |pages|
  {
    if pages[0].nextSyncToken.Some? then 0
    else
      assert HasSyncToken(pages[1..]) by {
        var i :| 0 <= i < |pages| && pages[i].nextSyncToken.Some?;
        assert pages[1..][i - 1] == pages[i];
      }
      1 + FirstSyncIndex(pages[1..])
  }

  /** The items of the first `n` responses, appended in response order. */
  function Collected<T>(pages: seq<Page<T>>, n: nat): seq<T>
    requires n <= |pages|
  {
    if n == 0 then [] else Collected(pages, n - 1) + ItemsOf(pages[n - 1])
  }

  /** What a complete listing returns: every response up to and including the
      first one with a sync token. */
  function Listing<T>(pages: seq<Page<T>>): seq<T>
    requires HasSyncToken(pages)
  {
    Collected(pages, FirstSyncIndex(pages) + 1)
  }

  /** Reference definition: the items of all the given responses, front to back. */
  function Concat<T>(pages: seq<Page<T>>): seq<T>
    decreases |pages|
  {
    if |pages| == 0 then [] else ItemsOf(pages[0]) + Concat(pages[1..])
  }

  /**
   * The listing loop. It starts without a page token, passes each response's
   * `nextPageToken` to the next call, extends the accumulator with each
   * response's items and stops after the first response whose
   * `nextSyncToken` is not `None`, whatever its `nextPageToken` says.
   * `calls` holds the page token of every call made, in order.
   */
  method FetchAll<T>(pages: seq<Page<T>>) returns (items: seq<T>, calls: seq<Option<string>>, syncToken: string)
    requires HasSyncToken(pages)
    ensures |calls| == FirstSyncIndex(pages) + 1
    ensures items == Collected(pages, |calls|)
    ensures calls[0] == None
    ensures forall i :: 0 < i < |calls| ==> calls[i] == pages[i - 1].nextPageToken
    ensures pages[|calls| - 1].nextSyncToken == Some(syncToken)
  {
    ghost var k := FirstSyncIndex(pages);
    items, calls := [], [];
    var nextSyncToken: Option<string> := None;
    var pageToken: Option<string> := None;
    var i := 0;
    while nextSyncToken.None?
      invariant i == |calls| <= k + 1
      invariant nextSyncToken.None? <==> i <= k
      invariant 0 < i ==> nextSyncToken == pages[i - 1].nextSyncToken
      invariant pageToken == if i == 0 then None else pages[i - 1].nextPageToken
      invariant items == Collected(pages, i)
      invariant forall j :: 0 <= j < i ==> calls[j] == if j == 0 then None else pages[j - 1].nextPageToken
      decreases k + 1 - i
    {
      calls := calls + [pageToken];
      var result := pages[i];
      items := items + ItemsOf(result);
      pageToken := result.nextPageToken;
      nextSyncToken := result.nextSyncToken;
      i := i + 1;
    }
    syncToken := nextSyncToken.value;
  }

  /** A two-page calendar listing: two items and page token "A",
      then one item and sync token "S1". */
  method TwoPageListing<T>(a: T, b: T, c: T) returns (items: seq<T>, calls: seq<Option<string>>)
    ensures items == [a, b, c]
    ensures calls == [None, Some("A")]
  {
    var pages := [Page(Some([a, b]), Some("A"), None), Page(Some([c]), None, Some("S1"))];
    assert pages[1].nextSyncToken.Some?;
    var syncToken;
    assert FirstSyncIndex(pages) == 1 by {
      assert FirstSyncIndex(pages[1..]) == 0;
    }
    assert Collected(pages, 1) == [a, b] by {
      assert Collected(pages, 1) == [] + ItemsOf(pages[0]);
    }
    assert Collected(pages, 2) == [a, b] + [c];
    items, calls, syncToken := FetchAll(pages);
  }

  lemma {:induction false} ConcatSnoc<T>(pages: seq<Page<T>>, p: Page<T>)
    ensures Concat(pages + [p]) == Concat(pages) + ItemsOf(p)
    decreases |pages|
  {
    if |pages| == 0 {
      assert pages + [p] == [p];
      assert [p][1..] == [];
    } else {
      assert (pages + [p])[1..] == pages[1..] + [p];
      ConcatSnoc(pages[1..], p);
    }
  }

  /** The accumulated items are exactly the concatenation, in response order,
      of the items of the responses received: nothing reordered or dropped. */
  lemma {:induction false} CollectedIsConcat<T>(pages: seq<Page<T>>, n: nat)
    requires n <= |pages|
    ensures Collected(pages, n) == Concat(pages[..n])
    decreases n
  {
    if n > 0 {
      CollectedIsConcat(pages, n - 1);
      assert pages[..n] == pages[..n - 1] + [pages[n - 1]];
      ConcatSnoc(pages[..n - 1], pages[n - 1]);
    }
  }

  lemma {:induction false} CollectedPrefix<T>(pages: seq<Page<T>>, m: nat, n: nat)
    requires m <= n <= |pages|
    ensures Collected(pages, m) <= Collected(pages, n)
    decreases n
  {
    if m < n {
      CollectedPrefix(pages, m, n - 1);
    }
  }

  /** Item `j` of response `i` (for `i` up to the first response with a sync
      token) stands in the listing right after the items of the earlier
      responses. */
  lemma ItemPosition<T>(pages: seq<Page<T>>, i: nat, j: nat)
    requires HasSyncToken(pages)
    requires i <= FirstSyncIndex(pages) && j < |ItemsOf(pages[i])|
    ensures |Collected(pages, i)| + j < |Listing(pages)|
    ensures Listing(pages)[|Collected(pages, i)| + j] == ItemsOf(pages[i])[j]
  {
    CollectedPrefix(pages, i + 1, FirstSyncIndex(pages) + 1);
  }

  /** When the first response already carries a sync token, the listing is
      exactly that response's items and takes one call. */
  lemma SyncOnFirstPage<T>(pages: seq<Page<T>>)
    requires |pages| > 0 && pages[0].nextSyncToken.Some?
    ensures HasSyncToken(pages) && FirstSyncIndex(pages) == 0
    ensures Listing(pages) == ItemsOf(pages[0])
  {
    assert Collected(pages, 1) == [] + ItemsOf(pages[0]);
  }

  /** When only the last of N responses carries a sync token, the listing
      takes N calls and returns the items of all N responses in order. */
  lemma SyncOnLastPageOnly<T>(pages: seq<Page<T>>)
    requires |pages| > 0 && pages[|pages| - 1].nextSyncToken.Some?
    requires forall j :: 0 <= j < |pages| - 1 ==> pages[j].nextSyncToken.None?
    ensures HasSyncToken(pages) && FirstSyncIndex(pages) + 1 == |pages|
    ensures Listing(pages) == Concat(pages)
  {
    assert HasSyncToken(pages);
    CollectedIsConcat(pages, |pages|);
    assert pages[..|pages|] == pages;
  }

  /** Responses after the first one with a sync token are never requested
      and change nothing. */
  lemma {:induction false} LaterPagesIgnored<T>(pages: seq<Page<T>>, more: seq<Page<T>>)
    requires HasSyncToken(pages)
    ensures HasSyncToken(pages + more)
    ensures FirstSyncIndex(pages + more) == FirstSyncIndex(pages)
    ensures Listing(pages + more) == Listing(pages)
    decreases |pages|
  {
    var k := FirstSyncIndex(pages);
    assert (pages + more)[k] == pages[k];
    if pages[0].nextSyncToken.None? {
      assert (pages + more)[1..] == pages[1..] + more;
      LaterPagesIgnored(pages[1..], more);
    }
    CollectedAgree(pages, pages + more, k + 1);
  }

  lemma {:induction false} CollectedAgree<T>(pages: seq<Page<T>>, other: seq<Page<T>>, n: nat)
    requires n <= |pages| && n <= |other|
    requires forall j :: 0 <= j < n ==> other[j] == pages[j]
    ensures Collected(other, n) == Collected(pages, n)
    decreases n
  {
    if n > 0 {
      CollectedAgree(pages, other, n - 1);
    }
  }

  /** The number of calls depends only on where the sync tokens are, so a
      response without items, or with an empty one, still counts as a call. */
  lemma {:induction false} CallsIgnoreItems<T>(pages: seq<Page<T>>, other: seq<Page<T>>)
    requires HasSyncToken(pages) && |other| == |pages|
    requires forall j :: 0 <= j < |pages| ==> other[j].nextSyncToken == pages[j].nextSyncToken
    ensures HasSyncToken(other)
    ensures FirstSyncIndex(other) == FirstSyncIndex(pages)
    decreases |pages|
  {
    var k := FirstSyncIndex(pages);
    assert other[k].nextSyncToken.Some?;
    if pages[0].nextSyncToken.None? {
      CallsIgnoreItems(pages[1..], other[1..]);
    }
  }

  /** A response without an "items" key adds nothing to the accumulator. */
  lemma MissingItemsAddNothing<T>(pages: seq<Page<T>>, i: nat)
    requires i < |pages| && pages[i].items.None?
    ensures Collected(pages, i + 1) == Collected(pages, i)
  {
  }
}
