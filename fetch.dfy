/** `query` and `fetch_data_paginated`: the API is a function from requests
    to responses, and a collection is fetched by following the `next` links
    of its pages. */
module Fetch {
  import opened Wrappers
  import opened Config

  /** What `query` sends: the URL, the query parameters, the connection's
      headers and its client certificate. */
  datatype Request = Request(url: string, params: map<string, Param>, headers: map<string, string>, cert: Option<(string, string)>)

  /** `PaginatedResponse`: the link to the next page and this page's items. */
  datatype Page<T> = Page(next: Option<string>, results: seq<T>)

  /** What the server answers: the status code and, when the body validates
      against the page model, the page. */
  datatype Response<T> = Response(status: int, body: Option<Page<T>>)

  /** The API of one collection endpoint. */
  type Api<T> = Request -> Response<T>

  datatype FetchError =
    | HttpStatus(url: string, status: int)  // `raise_for_status`
    | InvalidBody(url: string)              // `model_validate_json`

  function RequestFor(c: Connection, url: string, params: map<string, Param>): Request
  {
    Request(url, params, Headers(c), Cert(c))
  }

  /** `query` followed by `model_validate_json`. A status other than 200 is
      logged, but only a status outside 2xx raises; a body that is not a
      valid page raises too. */
  function Query<T>(api: Api<T>, c: Connection, url: string, params: map<string, Param>): (r: Result<Page<T>, FetchError>)
    ensures var res := api(RequestFor(c, url, params));
            && (r.Success? <==> 200 <= res.status < 300 && res.body.Some?)
            && (r.Success? ==> r.value == res.body.value)
            && (!(200 <= res.status < 300) ==> r == Failure(HttpStatus(url, res.status)))
            && (200 <= res.status < 300 && res.body.None? ==> r == Failure(InvalidBody(url)))
  {
    var res := api(RequestFor(c, url, params));
    if !(200 <= res.status < 300) then Failure(HttpStatus(url, res.status))
    else if res.body.None? then Failure(InvalidBody(url))
    else Success(res.body.value)
  }

  // ---------------------------------------------------------------------
  // urljoin

  /** "://" starts at position `k` of `s`. */
  predicate SeparatorAt(s: string, k: int)
  {
    0 <= k && k + 3 <= |s| && s[k] == ':' && s[k + 1] == '/' && s[k + 2] == '/'
  }

  /** The position of the first "://" at or after `i`. */
  function SchemeSeparator(s: string, i: nat): (r: Option<nat>)
    ensures r.Some? ==> i <= r.value && SeparatorAt(s, r.value)
    ensures r.Some? ==> forall k :: i <= k < r.value ==> !SeparatorAt(s, k)
    ensures r.None? ==> forall k :: i <= k ==> !SeparatorAt(s, k)
    decreases |s| - i
  {
    if i + 3 > |s| then None
    else if SeparatorAt(s, i) then Some(i)
    else SchemeSeparator(s, i + 1)
  }

  predicate EndsAuthority(c: char)
  {
    c == '/' || c == '?' || c == '#'
  }

  /** Where the authority that starts at `j` ends. */
  function AuthorityEnd(s: string, j: nat): (k: nat)
    requires j <= |s|
    ensures j <= k <= |s|
    ensures forall m :: j <= m < k ==> !EndsAuthority(s[m])
    ensures k < |s| ==> EndsAuthority(s[k])
    decreases |s| - j
  {
    if j == |s| || EndsAuthority(s[j]) then j else AuthorityEnd(s, j + 1)
  }

  /** `base` is `scheme://authority` followed by `[/?#]...` or nothing, the
      "://" at `i` being the first of `base`, and `e` the end of the
      authority. */
  predicate OriginEndsAt(base: string, i: int, e: int)
  {
    && SeparatorAt(base, i)
    && (forall k :: 0 <= k < i ==> !SeparatorAt(base, k))
    && i + 3 <= e <= |base|
    && (forall m :: i + 3 <= m < e ==> !EndsAuthority(base[m]))
    && (e < |base| ==> EndsAuthority(base[e]))
  }

  /** `scheme://authority` of a URL: everything up to the first '/', '?' or
      '#' after the first "://"; "" when the base has no "://". */
  function Origin(base: string): (o: string)
    ensures (forall k :: !SeparatorAt(base, k)) ==> o == ""
    ensures (exists k :: SeparatorAt(base, k)) ==> exists i :: OriginEndsAt(base, i, |o|) && o == base[..|o|]
  {
    match SchemeSeparator(base, 0)
    case None => ""
    case Some(i) =>
      var e := AuthorityEnd(base, i + 3);
      assert OriginEndsAt(base, i, |base[..e]|);
      base[..e]
  }

  /** `urljoin(base, path)` for a path starting with a single '/' and a base
      whose scheme is a lower-case `http` or `https`: the path replaces
      whatever path, query and fragment the base has, and the scheme and
      authority are kept; a base without "://" contributes nothing. */
  function UrlJoin(base: string, path: string): (url: string)
    requires |path| > 0 && path[0] == '/' && !(|path| > 1 && path[1] == '/')
    ensures (forall k :: !SeparatorAt(base, k)) ==> url == path
    ensures (exists k :: SeparatorAt(base, k)) ==>
              exists i, e :: OriginEndsAt(base, i, e) && url == base[..e] + path
  {
    Origin(base) + path
  }

  /** The end of the authority is unique: `OriginEndsAt` pins down one
      prefix of the base. */
  lemma OriginEndUnique(base: string, i: int, e: int, i': int, e': int)
    requires OriginEndsAt(base, i, e) && OriginEndsAt(base, i', e')
    ensures i == i' && e == e'
  {
  }

  /** A base URL that is just `scheme://host` is extended by the path. */
  lemma UrlJoinHostOnly(scheme: string, host: string, path: string)
    requires forall m :: 0 <= m < |scheme| ==> scheme[m] != ':'
    requires forall m :: 0 <= m < |host| ==> !EndsAuthority(host[m])
    requires |path| > 0 && path[0] == '/' && !(|path| > 1 && path[1] == '/')
    ensures UrlJoin(scheme + "://" + host, path) == scheme + "://" + host + path
  {
    var base := scheme + "://" + host;
    assert SeparatorAt(base, |scheme|);
    forall k | 0 <= k < |scheme| ensures !SeparatorAt(base, k) {
      assert base[k] == scheme[k];
    }
    var r := SchemeSeparator(base, 0);
    assert r == Some(|scheme|);
    forall m | |scheme| + 3 <= m < |base| ensures !EndsAuthority(base[m]) {
      assert base[m] == host[m - |scheme| - 3];
    }
    assert AuthorityEnd(base, |scheme| + 3) == |base|;
    assert base[..|base|] == base;
  }

  // ---------------------------------------------------------------------
  // Pagination

  /** What following a collection's pages gives: the URLs requested, in
      order, and the items or the error that stopped the crawl. */
  datatype Crawl<T> = Crawl(urls: seq<string>, result: Result<seq<T>, FetchError>)

  /** A crawl preceded by pages that yielded `items` from `urls`. */
  function After<T>(urls: seq<string>, items: seq<T>, rest: Crawl<T>): Crawl<T>
  {
    Crawl(urls + rest.urls, if rest.result.Success? then Success(items + rest.result.value) else rest.result)
  }

  lemma AfterNothing<T>(rest: Crawl<T>)
    ensures After([], [], rest) == rest
  {
    assert [] + rest.urls == rest.urls;
    if rest.result.Success? {
      assert [] + rest.result.value == rest.result.value;
    }
  }

  lemma AfterAfter<T>(urls: seq<string>, items: seq<T>, urls': seq<string>, items': seq<T>, rest: Crawl<T>)
    ensures After(urls, items, After(urls', items', rest)) == After(urls + urls', items + items', rest)
  {
    assert urls + (urls' + rest.urls) == urls + urls' + rest.urls;
    if rest.result.Success? {
      assert items + (items' + rest.result.value) == items + items' + rest.result.value;
    }
  }

  /** Following the pages from `url`, giving up (None) after `fuel` pages. */
  function Walk<T>(api: Api<T>, c: Connection, url: string, params: map<string, Param>, fuel: nat): Option<Crawl<T>>
    decreases fuel
  {
    if fuel == 0 then None
    else
      match Query(api, c, url, params)
      case Failure(e) => Some(Crawl([url], Failure(e)))
      case Success(page) =>
        match page.next
        case None => Some(Crawl([url], Success(page.results)))
        case Some(next) =>
          match Walk(api, c, next, params, fuel - 1)
          case None => None
          case Some(rest) => Some(After([url], page.results, rest))
  }

  /** More fuel than a crawl needs does not change it. */
  lemma {:induction false} WalkMoreFuel<T>(api: Api<T>, c: Connection, url: string, params: map<string, Param>, fuel: nat, more: nat)
    requires Walk(api, c, url, params, fuel).Some? && fuel <= more
    ensures Walk(api, c, url, params, more) == Walk(api, c, url, params, fuel)
    decreases fuel
  {
    match Query(api, c, url, params)
    case Failure(_) =>
    case Success(page) =>
      if page.next.Some? {
        WalkMoreFuel(api, c, page.next.value, params, fuel - 1, more - 1);
      }
  }

  /** The chain of `next` links from `url` ends. */
  ghost predicate Finite<T>(api: Api<T>, c: Connection, url: string, params: map<string, Param>)
  {
    exists fuel: nat :: Walk(api, c, url, params, fuel).Some?
  }

  /** The crawl from `url` when its chain of pages ends. */
  ghost function Fetched<T>(api: Api<T>, c: Connection, url: string, params: map<string, Param>): Crawl<T>
    requires Finite(api, c, url, params)
  {
    var fuel: nat :| Walk(api, c, url, params, fuel).Some?;
    Walk(api, c, url, params, fuel).value
  }

  lemma FetchedIsWalk<T>(api: Api<T>, c: Connection, url: string, params: map<string, Param>, fuel: nat)
    requires Walk(api, c, url, params, fuel).Some?
    ensures Finite(api, c, url, params)
    ensures Fetched(api, c, url, params) == Walk(api, c, url, params, fuel).value
  {
    var f: nat :| Walk(api, c, url, params, f).Some? && Fetched(api, c, url, params) == Walk(api, c, url, params, f).value;
    if f <= fuel {
      WalkMoreFuel(api, c, url, params, f, fuel);
    } else {
      WalkMoreFuel(api, c, url, params, fuel, f);
    }
  }

  /** The crawl requests `url` first; a failing page stops it with that
      page's error, a page without `next` ends it with that page's items,
      and otherwise it continues at `next` after this page's items. */
  lemma FetchedFollowsNext<T>(api: Api<T>, c: Connection, url: string, params: map<string, Param>)
    requires Finite(api, c, url, params)
    ensures var q := Query(api, c, url, params);
            && (q.Failure? ==> Fetched(api, c, url, params) == Crawl([url], Failure(q.error)))
            && (q.Success? && q.value.next.None? ==> Fetched(api, c, url, params) == Crawl([url], Success(q.value.results)))
            && (q.Success? && q.value.next.Some? ==>
                  && Finite(api, c, q.value.next.value, params)
                  && Fetched(api, c, url, params) == After([url], q.value.results, Fetched(api, c, q.value.next.value, params)))
  {
    var fuel: nat :| Walk(api, c, url, params, fuel).Some?;
    FetchedIsWalk(api, c, url, params, fuel);
    var q := Query(api, c, url, params);
    if q.Success? && q.value.next.Some? {
      FetchedIsWalk(api, c, q.value.next.value, params, fuel - 1);
    }
  }

  /** A crawl starts with a request to its first URL. */
  lemma FetchedStartsAt<T>(api: Api<T>, c: Connection, url: string, params: map<string, Param>)
    requires Finite(api, c, url, params)
    ensures |Fetched(api, c, url, params).urls| > 0 && Fetched(api, c, url, params).urls[0] == url
  {
    FetchedFollowsNext(api, c, url, params);
  }

  /** `fetch_data_paginated`: request `urljoin(api_base_url, path)`, then
      each `next` link in turn with the same parameters, collecting the
      items of every page. */
  method FetchPaginated<T>(api: Api<T>, c: Connection, path: string, params: map<string, Param>)
      returns (r: Result<seq<T>, FetchError>, urls: seq<string>)
    requires |path| > 0 && path[0] == '/' && !(|path| > 1 && path[1] == '/')
    requires Finite(api, c, UrlJoin(c.apiBaseUrl, path), params)
    ensures Crawl(urls, r) == Fetched(api, c, UrlJoin(c.apiBaseUrl, path), params)
  {
    var start := UrlJoin(c.apiBaseUrl, path);
    ghost var fuel: nat :| Walk(api, c, start, params, fuel).Some?;
    FetchedIsWalk(api, c, start, params, fuel);
    ghost var total := Fetched(api, c, start, params);
    var url: Option<string> := Some(start);
    var items: seq<T> := [];
    urls := [];
    AfterNothing(total);
    while url.Some?
      invariant url.Some? ==> Walk(api, c, url.value, params, fuel).Some?
                              && After(urls, items, Walk(api, c, url.value, params, fuel).value) == total
      invariant url.None? ==> Crawl(urls, Success(items)) == total
      decreases fuel
    {
      var page := Query(api, c, url.value, params);
      if page.Failure? {
        return Failure(page.error), urls + [url.value];
      }
      if page.value.next.Some? {
        AfterAfter(urls, items, [url.value], page.value.results, Walk(api, c, page.value.next.value, params, fuel - 1).value);
      }
      urls := urls + [url.value];
      items := items + page.value.results;
      url := page.value.next;
      fuel := fuel - 1;
    }
    r := Success(items);
  }
}
