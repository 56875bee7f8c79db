/** Downloading a list page by page (RestApiTable.list). */
module Pagination {
  import opened Options

  /** How pages are asked for: not at all, by the offset of the first item, or by the number of the page. */
  datatype Paging = NoPaging | ByOffset | ByPageNumber

  /** A server with a fixed list. pageSize is what it really serves at a time; declaredPageSize is the default of
      the page size parameter in the specification, if there is one; total says whether it reports the length. */
  datatype Api<T> = Api(items: seq<T>, pageSize: nat, paging: Paging, declaredPageSize: Option<nat>, total: bool)

  /** The position in a request: the offset or the page number, whichever the server takes. */
  datatype Position = First | Offset(offset: nat) | Page(number: nat)

  const DEFAULT_LIMIT := 20

  function Min(a: nat, b: nat): nat { if a <= b then a else b }

  /** Items from up to (not including) from + size, as far as there are any. */
  function Slice<T>(items: seq<T>, from: nat, size: nat): seq<T> {
    items[Min(from, |items|)..Min(from + size, |items|)]
  }

  /** The number of items on the first pages. */
  function Upto(pages: nat, size: nat): nat { pages * size }

  lemma UptoNext(pages: nat, size: nat)
    ensures Upto(pages + 1, size) == Upto(pages, size) + size && Upto(1, size) == size
    ensures pages >= 1 ==> Upto(pages, size) >= size
  {
    assert pages * size >= 0;
    if pages >= 1 {
      assert pages * size == (pages - 1) * size + size;
    }
  }

  function ApiRequest<T>(api: Api<T>, at: Position): (seq<T>, Option<nat>) {
    (match at
     case First => Slice(api.items, 0, api.pageSize)
     case Offset(offset) => Slice(api.items, offset, api.pageSize)
     case Page(number) => Slice(api.items, Upto(if number == 0 then 0 else number - 1, api.pageSize), api.pageSize),
     if api.total then Some(|api.items|) else None)
  }

  function Limit(limit: Option<nat>): nat {
    if limit.Some? then limit.value else DEFAULT_LIMIT
  }

  predicate StopsEarly<T>(api: Api<T>, limit: Option<nat>) {
    && Limit(limit) > api.pageSize && |api.items| > api.pageSize
    && (api.paging.NoPaging? || (api.declaredPageSize.Some? && api.declaredPageSize.value > api.pageSize))
  }

  /** The result is a beginning of the list, without gap or repeat. It is the first page only if more is wanted and
      there is more, but there is no way to ask for a further page, or the declared page size is larger than what the
      server serves; otherwise, and only then, it is the first limit items (20, if no limit is given), or all if there
      are fewer. */
  method ListItems<T>(api: Api<T>, limit: Option<nat>) returns (r: seq<T>)
    requires api.pageSize >= 1
    ensures var wanted := if limit.Some? then limit.value else 20;
      var early := wanted > api.pageSize && |api.items| > api.pageSize
                   && (api.paging == NoPaging || (api.declaredPageSize.Some? && api.declaredPageSize.value > api.pageSize));
      && (r == (if wanted <= |api.items| then api.items[..wanted] else api.items) <==> !early)
      && (early ==> r == api.items[..api.pageSize])
  {
    hide Upto, Slice;
    var wanted := Limit(limit);
    FirstPage(api);
    UptoNext(1, api.pageSize);
    var resp, total := ApiRequest(api, First).0, ApiRequest(api, First).1;
    if !api.paging.NoPaging? {
      var pageNum := 1;
      while true
        invariant pageNum >= 1 && |resp| == Min(Upto(pageNum, api.pageSize), |api.items|)
        invariant resp == api.items[..|resp|] && total == if api.total then Some(|api.items|) else None
        invariant StopsEarly(api, limit) ==> pageNum == 1
        decreases |api.items| - |resp|
      {
        var count := |resp|;
        if wanted <= count {
          break;
        }
        if total.Some? && total.value <= count {
          break;
        }
        if api.declaredPageSize.Some? && api.declaredPageSize.value > count {
          FirstPageIsLast(api, pageNum, count, limit);
          break;
        }
        var at := if api.paging.ByOffset? then Offset(count) else Page(pageNum + 1);
        UptoNext(pageNum, api.pageSize);
        NextPage(api, pageNum, count);
        var resp2 := ApiRequest(api, at).0;
        total := ApiRequest(api, at).1;
        if |resp2| == 0 {
          break;
        }
        pageNum := pageNum + 1;
        resp := resp + resp2;
      }
    }
    r := resp[..Min(wanted, |resp|)];
    PrefixOf(api.items, resp, Min(wanted, |resp|), Min(wanted, |api.items|));
  }

  lemma PrefixOf<T>(items: seq<T>, resp: seq<T>, n: nat, m: nat)
    requires n <= |resp| <= |items| && resp == items[..|resp|] && m <= |items|
    ensures resp[..n] == items[..n] && (resp[..n] == items[..m] <==> n == m)
  {
    assert |resp[..n]| == n && |items[..m]| == m;
  }

  lemma FirstPage<T>(api: Api<T>)
    ensures ApiRequest(api, First).0 == api.items[..Min(Upto(1, api.pageSize), |api.items|)]
  {
  }

  /** The next page by either way of asking starts where the items so far end. */
  lemma NextPage<T>(api: Api<T>, pageNum: nat, count: nat)
    requires api.pageSize >= 1 && pageNum >= 1 && count == Min(Upto(pageNum, api.pageSize), |api.items|)
    ensures ApiRequest(api, Offset(count)).0 == ApiRequest(api, Page(pageNum + 1)).0
    ensures ApiRequest(api, Offset(count)).0 == api.items[count..Min(Upto(pageNum + 1, api.pageSize), |api.items|)]
  {
    hide Upto;
    UptoNext(pageNum, api.pageSize);
  }

  /** The declared size exceeds the items so far only on the first page, or when all items are there. */
  lemma FirstPageIsLast<T>(api: Api<T>, pageNum: nat, count: nat, limit: Option<nat>)
    requires api.pageSize >= 1 && pageNum >= 1 && count == Min(Upto(pageNum, api.pageSize), |api.items|)
    requires StopsEarly(api, limit) ==> pageNum == 1
    requires api.declaredPageSize.Some? && api.declaredPageSize.value > count && count < Limit(limit)
    ensures StopsEarly(api, limit) || count == |api.items|
  {
    hide Upto;
    UptoNext(pageNum, api.pageSize);
  }
}
