/** The page walker shared by the language and website item-language listings,
    and limit/offset slicing for the source catalog. */
module Pagination {
  import opened Common
  import opened Text

  /** A response header; its value is taken as already converted by `int(v)`. */
  datatype Header = Header(name: string, value: int)

  datatype Page<T> = Page(data: seq<T>, headers: seq<Header>)

  /** What one listing request answers: a page, or an ApiException with its status. */
  datatype Reply<T> = Served(page: Page<T>) | Failed(status: int)

  const TotalCountName: string := "x-total-count"

  predicate IsTotalCount(h: Header) {
    Lower(h.name) == TotalCountName
  }

  /** No header before index `i` names the total count. */
  predicate FirstFrom(headers: seq<Header>, i: nat)
    requires i <= |headers|
  {
    forall j :: 0 <= j < i ==> !IsTotalCount(headers[j])
  }

  /** The total declared by the first header whose lower-cased name is `x-total-count`, else 0. */
  function TotalCount(headers: seq<Header>): int {
    if headers == [] then 0
    else if IsTotalCount(headers[0]) then headers[0].value
    else TotalCount(headers[1..])
  }

  /** The total is the value of the first matching header, and 0 when no header matches. */
  lemma {:induction false} TotalCountFirstMatch(headers: seq<Header>)
    ensures (forall i :: 0 <= i < |headers| ==> !IsTotalCount(headers[i])) ==> TotalCount(headers) == 0
    ensures forall i :: (0 <= i < |headers| && IsTotalCount(headers[i]) && FirstFrom(headers, i))
                        ==> TotalCount(headers) == headers[i].value
  {
    if headers != [] && !IsTotalCount(headers[0]) {
      TotalCountFirstMatch(headers[1..]);
      forall i | 0 < i < |headers| && FirstFrom(headers, i)
        ensures FirstFrom(headers[1..], i - 1)
      {
        forall j | 0 <= j < i - 1 ensures !IsTotalCount(headers[1..][j]) {
          assert headers[1..][j] == headers[j + 1];
        }
      }
    }
  }

  /** The header scan of one page: stops at the first match. */
  method ReadTotalCount(headers: seq<Header>) returns (total: int)
    ensures total == TotalCount(headers)
  {
    total := 0;
    var i := 0;
    while i < |headers|
      invariant 0 <= i <= |headers|
      invariant TotalCount(headers) == TotalCount(headers[i..])
    {
      if Lower(headers[i].name) == TotalCountName {
        total := headers[i].value;
        return;
      }
      assert headers[i..][1..] == headers[i + 1..];
      i := i + 1;
    }
  }

  /** The answer to a request for page `page` (1-based); past the end the listing is empty. */
  function FetchPage<T>(replies: seq<Reply<T>>, page: nat): Reply<T> {
    if 1 <= page <= |replies| then replies[page - 1] else Served(Page([], []))
  }

  /** What a walk produced: the items appended, the number of pages requested,
      and the status of the request that failed, if one did. */
  datatype Walked<T> = Walked(items: seq<T>, pages: nat, failure: Option<int>)

  /** The walk from page `page` when the cache already holds `have` entries.
      It stops on a failed request, on an empty page, or once the cache length
      reaches the total of the page just read. */
  function Walk<T>(replies: seq<Reply<T>>, page: nat, have: nat): Walked<T>
    requires page >= 1
    decreases |replies| + 1 - page
  {
    match FetchPage(replies, page)
    case Failed(status) => Walked([], 1, Some(status))
    case Served(p) =>
      if p.data == [] || have + |p.data| >= TotalCount(p.headers) then Walked(p.data, 1, None)
      else
        var rest := Walk(replies, page + 1, have + |p.data|);
        Walked(p.data + rest.items, 1 + rest.pages, rest.failure)
  }

  function DataOf<T>(r: Reply<T>): seq<T> {
    if r.Served? then r.page.data else []
  }

  /** The data of `count` consecutive pages starting at `first`. */
  function Fetched<T>(replies: seq<Reply<T>>, first: nat, count: nat): seq<T>
    decreases count
  {
    if count == 0 then [] else DataOf(FetchPage(replies, first)) + Fetched(replies, first + 1, count - 1)
  }

  /** The walk goes on past a reply exactly when it is a non-empty page and the cache is still below its total. */
  predicate Continues<T>(r: Reply<T>, have: int) {
    r.Served? && r.page.data != [] && have + |r.page.data| < TotalCount(r.page.headers)
  }

  /** A page loop that has appended `got` and is about to request page `page` with `have`
      entries cached will, when it ends, have produced `w0`. */
  ghost predicate WalkFrom<T>(replies: seq<Reply<T>>, w0: Walked<T>, got: seq<T>, page: nat, have: nat) {
    page >= 1 &&
    var w := Walk(replies, page, have);
    w0.items == got + w.items && w0.pages == page - 1 + w.pages && w0.failure == w.failure
  }

  /** A page that lets the walk continue moves the loop on by one page. */
  lemma WalkFromNext<T>(replies: seq<Reply<T>>, w0: Walked<T>, got: seq<T>, page: nat, have: nat)
    requires WalkFrom(replies, w0, got, page, have)
    requires Continues(FetchPage(replies, page), have)
    ensures WalkFrom(replies, w0, got + FetchPage(replies, page).page.data, page + 1,
                     have + |FetchPage(replies, page).page.data|)
  {
    var data := FetchPage(replies, page).page.data;
    var rest := Walk(replies, page + 1, have + |data|);
    assert got + (data + rest.items) == (got + data) + rest.items;
  }

  /** A page that ends the walk ends the loop with the walk's result. */
  lemma WalkFromLast<T>(replies: seq<Reply<T>>, w0: Walked<T>, got: seq<T>, page: nat, have: nat)
    requires WalkFrom(replies, w0, got, page, have)
    requires !Continues(FetchPage(replies, page), have)
    ensures w0.pages == page && w0.items == got + DataOf(FetchPage(replies, page))
    ensures w0.failure == (if FetchPage(replies, page).Failed? then Some(FetchPage(replies, page).status) else None)
  {
    if FetchPage(replies, page).Failed? {
      assert got + [] == got;
    }
  }

  /** The walk appends, in order, the data of every page it requests. */
  lemma {:induction false} WalkAppendsPages<T>(replies: seq<Reply<T>>, page: nat, have: nat)
    requires page >= 1
    ensures Walk(replies, page, have).pages >= 1
    ensures Walk(replies, page, have).items == Fetched(replies, page, Walk(replies, page, have).pages)
    decreases |replies| + 1 - page
  {
    var r := FetchPage(replies, page);
    if Continues(r, have) {
      var d := r.page.data;
      WalkAppendsPages(replies, page + 1, have + |d|);
      var rest := Walk(replies, page + 1, have + |d|);
      assert Walk(replies, page, have) == Walked(d + rest.items, 1 + rest.pages, rest.failure);
      assert Fetched(replies, page, 1 + rest.pages) == d + Fetched(replies, page + 1, rest.pages);
    } else {
      assert Fetched(replies, page, 0) == [];
    }
  }

  /** Every requested page except the last lets the walk continue. */
  lemma {:induction false} WalkContinuesBeforeLast<T>(replies: seq<Reply<T>>, page: nat, have: nat, k: nat)
    requires page >= 1
    requires k < Walk(replies, page, have).pages - 1
    ensures Continues(FetchPage(replies, page + k), have + |Fetched(replies, page, k)|)
    decreases |replies| + 1 - page
  {
    var r := FetchPage(replies, page);
    if k > 0 {
      var d := r.page.data;
      WalkContinuesBeforeLast(replies, page + 1, have + |d|, k - 1);
      assert Fetched(replies, page, k) == d + Fetched(replies, page + 1, k - 1);
    } else {
      assert Fetched(replies, page, 0) == [];
    }
  }

  /** The last requested page stops the walk; the walk fails exactly when that request failed. */
  lemma {:induction false} WalkStopsAtLast<T>(replies: seq<Reply<T>>, page: nat, have: nat)
    requires page >= 1
    ensures var n := Walk(replies, page, have).pages;
      n >= 1
      && !Continues(FetchPage(replies, page + n - 1), have + |Fetched(replies, page, n - 1)|)
      && (Walk(replies, page, have).failure.Some? <==> FetchPage(replies, page + n - 1).Failed?)
    decreases |replies| + 1 - page
  {
    var r := FetchPage(replies, page);
    if Continues(r, have) {
      var d := r.page.data;
      WalkStopsAtLast(replies, page + 1, have + |d|);
      var rest := Walk(replies, page + 1, have + |d|);
      assert Walk(replies, page, have) == Walked(d + rest.items, 1 + rest.pages, rest.failure);
      assert Fetched(replies, page, rest.pages) == d + Fetched(replies, page + 1, rest.pages - 1);
    } else {
      assert Fetched(replies, page, 0) == [];
    }
  }

  /** `s` cut into pages of `limit`; an empty `s` is one empty page. */
  function Chunks<T>(s: seq<T>, limit: nat): (r: seq<seq<T>>)
    requires limit > 0
    ensures |r| >= 1
    decreases |s|
  {
    if |s| <= limit then [s] else [s[..limit]] + Chunks(s[limit..], limit)
  }

  function Serve<T>(chunks: seq<seq<T>>, total: int, name: string): seq<Reply<T>> {
    seq(|chunks|, i requires 0 <= i < |chunks| => Served(Page(chunks[i], [Header(name, total)])))
  }

  /** A consistent destination listing of `all`: pages of `limit` items, each declaring
      the total in a header called `name`. */
  function Listing<T>(all: seq<T>, limit: nat, name: string): seq<Reply<T>>
    requires limit > 0
  {
    Serve(Chunks(all, limit), |all|, name)
  }

  /** The number of pages is the ceiling of |s| / limit (one page when `s` is empty). */
  lemma {:induction false} ChunkCount<T>(s: seq<T>, limit: nat)
    requires limit > 0
    ensures |s| <= |Chunks(s, limit)| * limit
    ensures |s| == 0 || (|Chunks(s, limit)| - 1) * limit < |s|
    decreases |s|
  {
    if |s| > limit {
      ChunkCount(s[limit..], limit);
      var n := |Chunks(s[limit..], limit)|;
      assert |Chunks(s, limit)| == n + 1;
      assert (n + 1) * limit == n * limit + limit;
    }
  }

  lemma {:induction false} WalkServedChunks<T>(replies: seq<Reply<T>>, page: nat, rest: seq<T>, have: nat, limit: nat, name: string)
    requires limit > 0 && page >= 1 && Lower(name) == TotalCountName
    requires page - 1 + |Chunks(rest, limit)| <= |replies|
    requires replies[page - 1 .. page - 1 + |Chunks(rest, limit)|] == Serve(Chunks(rest, limit), have + |rest|, name)
    ensures Walk(replies, page, have) == Walked(rest, |Chunks(rest, limit)|, None)
    decreases |rest|
  {
    var c := Chunks(rest, limit);
    var total := have + |rest|;
    assert replies[page - 1] == Serve(c, total, name)[0];
    assert IsTotalCount(Header(name, total));
    assert TotalCount([Header(name, total)]) == total;
    if |rest| > limit {
      var tail := rest[limit..];
      var c' := Chunks(tail, limit);
      assert c == [rest[..limit]] + c';
      var whole := replies[page - 1 .. page - 1 + |c|];
      var sub := replies[page .. page + |c'|];
      assert sub == whole[1..];
      assert whole == Serve(c, total, name);
      assert have + limit + |tail| == total;
      forall i | 0 <= i < |c'|
        ensures sub[i] == Serve(c', have + limit + |tail|, name)[i]
      {
        assert sub[i] == whole[i + 1];
        assert c[i + 1] == c'[i];
      }
      assert sub == Serve(c', have + limit + |tail|, name);
      WalkServedChunks(replies, page + 1, tail, have + limit, limit, name);
      assert rest[..limit] + tail == rest;
    }
  }

  /** A walk that starts with an empty cache over a consistent listing reads back the whole
      listing, in order, fetching one page per chunk. */
  lemma ListingWalkedCompletely<T>(all: seq<T>, limit: nat, name: string)
    requires limit > 0 && Lower(name) == TotalCountName
    ensures Walk(Listing(all, limit, name), 1, 0) == Walked(all, |Chunks(all, limit)|, None)
  {
    var replies := Listing(all, limit, name);
    assert replies[0 .. |Chunks(all, limit)|] == replies;
    WalkServedChunks(replies, 1, all, 0, limit, name);
  }

  /** Twenty-two entries listed fifteen per page take exactly two requests. */
  lemma TwentyTwoByFifteen<T>(all: seq<T>)
    requires |all| == 22
    ensures Walk(Listing(all, 15, "X-Total-Count"), 1, 0) == Walked(all, 2, None)
  {
    CapitalisedTotalCountName();
    ListingWalkedCompletely(all, 15, "X-Total-Count");
    assert Chunks(all[15..], 15) == [all[15..]];
    assert Chunks(all, 15) == [all[..15], all[15..]];
  }

  /** The usual spelling `X-Total-Count` is recognised. */
  lemma CapitalisedTotalCountName()
    ensures Lower("X-Total-Count") == TotalCountName
  {
  }

  /** A non-empty page without a total-count header ends the walk: the missing total reads as 0. */
  lemma NoTotalHeaderStopsAfterPage<T>(replies: seq<Reply<T>>, page: nat, have: nat)
    requires page >= 1
    requires FetchPage(replies, page).Served?
    requires forall i :: 0 <= i < |FetchPage(replies, page).page.headers|
               ==> !IsTotalCount(FetchPage(replies, page).page.headers[i])
    ensures Walk(replies, page, have) == Walked(FetchPage(replies, page).page.data, 1, None)
  {
    TotalCountFirstMatch(FetchPage(replies, page).page.headers);
  }

  /** Items `offset` .. `offset + limit` of a limit/offset listing (fewer at the end). */
  function Slice<T>(s: seq<T>, offset: nat, limit: nat): (r: seq<T>)
    ensures |r| <= limit
    ensures |r| < limit ==> offset + |r| >= |s|
    ensures r == [] <==> (offset >= |s| || limit == 0)
    ensures forall i :: 0 <= i < |r| ==> offset + i < |s| && r[i] == s[offset + i]
  {
    if offset >= |s| then []
    else if offset + limit <= |s| then s[offset .. offset + limit]
    else s[offset..]
  }
}
