/**
 * `processCategory` (src/parser.js, and its copy in index.js): walk the
 * listing pages of one category in batches of consecutive page numbers,
 * keep the Magnum items and hand their records to the store.
 *
 * The network is an oracle from page number to the item list of that page
 * (None for a failed fetch or a body without a `data` array); the uuids,
 * the per-page request tokens and the timestamp are parameters.
 */
module Parser {
  import opened Wrappers
  import opened Text
  import opened Utils
  import opened Product
  import opened Store

  /** `PAGE_PARALLEL` and `MAX_PAGE`. */
  datatype Config = Config(pageParallel: nat, maxPage: nat)

  const CONFIG := Config(3, 300)

  // ---------------------------------------------------------------------
  // Page URLs
  // ---------------------------------------------------------------------

  const PAGE_KEY := "page="
  const REQUEST_KEY := "requestId="

  /** `/page=\d+/` matches at `i`. */
  predicate PageParamAt(s: string, i: nat) {
    StartsAt(s, i, PAGE_KEY) && i + 5 < |s| && IsDigit(s[i + 5])
  }

  /** Where the first `page=<digits>` of `s` starts. */
  function PageParam(s: string): (r: Option<nat>)
    ensures r.Some? ==> r.value + 5 < |s| && PageParamAt(s, r.value)
    ensures r.Some? ==> forall j :: 0 <= j < r.value ==> !PageParamAt(s, j)
    ensures r.None? ==> forall j :: 0 <= j ==> !PageParamAt(s, j)
  {
    var m := (j: nat) => PageParamAt(s, j);
    assert forall j: nat :: m(j) == PageParamAt(s, j);
    Find(0, |s|, m)
  }

  /** The page number a URL asks for: the value of its first
      `page=<digits>`. */
  function PageOf(s: string): Option<nat> {
    match PageParam(s)
    case None => None
    case Some(i) => Some(DigitsValue(s[i + 5..SpanEnd(s, i + 5, IsDigit)]))
  }

  /** The URL of page `p`: the first `page=<digits>` of the category URL is
      set to `p` and nothing else changes; without one, `page=p` is added
      as a further query parameter, or as the first one when there is no
      `?`. */
  function PageUrl(url: string, p: nat): (r: string)
    ensures PageParam(url).Some? ==>
              var i := PageParam(url).value;
              r == url[..i] + PAGE_KEY + NatToString(p) + url[SpanEnd(url, i + 5, IsDigit)..]
    ensures PageParam(url).None? ==> r == url + (if Contains(url, "?") then "&" else "?") + PAGE_KEY + NatToString(p)
  {
    match PageParam(url)
    case Some(i) => url[..i] + PAGE_KEY + NatToString(p) + url[SpanEnd(url, i + 5, IsDigit)..]
    case None => url + (if Contains(url, "?") then "&" else "?") + PAGE_KEY + NatToString(p)
  }

  /** Two strings that agree below `n` have the same `page=` matches
      starting more than five places before `n`. */
  lemma SamePageParamsBefore(a: string, b: string, n: nat)
    requires n <= |a| && n <= |b| && a[..n] == b[..n]
    ensures forall j :: 0 <= j && j + 5 < n ==> (PageParamAt(a, j) <==> PageParamAt(b, j))
  {
    forall j | 0 <= j && j + 5 < n ensures PageParamAt(a, j) <==> PageParamAt(b, j) {
      assert a[j..j + 5] == a[..n][j..j + 5] == b[..n][j..j + 5] == b[j..j + 5];
      assert a[j + 5] == a[..n][j + 5];
      assert b[j + 5] == b[..n][j + 5];
    }
  }

  /** A match with none before it is the first match. */
  lemma FirstPageParam(s: string, i: nat)
    requires PageParamAt(s, i)
    requires forall j :: 0 <= j < i ==> !PageParamAt(s, j)
    ensures PageParam(s) == Some(i)
  {
    assert PageParam(s).Some?;
    var j := PageParam(s).value;
    assert j <= i || !PageParamAt(s, i);
  }

  /** The pieces of `pre + "page=" + digits + tail`, read back by index. */
  lemma PiecesAt(pre: string, digits: string, tail: string)
    ensures var r := pre + PAGE_KEY + digits + tail;
            && r[|pre|..|pre| + 5] == PAGE_KEY
            && r[|pre| + 5..|pre| + 5 + |digits|] == digits
            && (tail != [] ==> r[|pre| + 5 + |digits|] == tail[0])
  {
    var r := pre + PAGE_KEY + digits + tail;
    assert r == (pre + PAGE_KEY) + (digits + tail);
    assert r[|pre|..|pre| + 5] == (pre + PAGE_KEY)[|pre|..];
  }

  /** A URL whose first `page=<digits>` comes right after `pre` asks for
      the page those digits spell. */
  lemma ReadPageAfter(pre: string, digits: string, tail: string)
    requires |digits| > 0 && AllDigits(digits)
    requires tail == [] || !IsDigit(tail[0])
    requires forall j :: 0 <= j < |pre| ==> !PageParamAt(pre + PAGE_KEY + digits + tail, j)
    ensures PageOf(pre + PAGE_KEY + digits + tail) == Some(DigitsValue(digits))
  {
    var r := pre + PAGE_KEY + digits + tail;
    var i := |pre|;
    var e := i + 5 + |digits|;
    PiecesAt(pre, digits, tail);
    assert r[i + 5] == r[i + 5..e][0];
    FirstPageParam(r, i);
    forall k | i + 5 <= k < e
      ensures IsDigit(r[k])
    {
      assert r[k] == r[i + 5..e][k - (i + 5)];
    }
    SpanEndAt(r, i + 5, e, IsDigit);
  }

  /** Setting an existing page parameter creates no earlier match. */
  lemma NoEarlierPageParamReplaced(url: string, i: nat, p: nat)
    requires PageParam(url) == Some(i)
    ensures forall j :: 0 <= j < i ==> !PageParamAt(PageUrl(url, p), j)
  {
    var r := PageUrl(url, p);
    assert r[..i + 5] == url[..i + 5];
    SamePageParamsBefore(url, r, i + 5);
  }

  /** Appending a page parameter to a URL that has none creates no match
      before it: the separator is neither a letter of "page=" nor a digit. */
  lemma NoEarlierPageParamAppended(url: string, sep: string, tail: string)
    requires PageParam(url).None? && (sep == "&" || sep == "?")
    ensures forall j :: 0 <= j < |url + sep| ==> !PageParamAt(url + sep + tail, j)
  {
    var r := url + sep + tail;
    var n := |url|;
    assert r[n] == sep[0];
    assert r[..n] == url[..n];
    SamePageParamsBefore(url, r, n);
    forall j | 0 <= j < n + 1 ensures !PageParamAt(r, j) {
      if j + 5 == n {
        assert r[j + 5] == sep[0];
      } else if n < j + 5 <= |r| {
        assert r[j..j + 5][n - j] == r[n];
        assert PAGE_KEY[n - j] != sep[0];
      }
    }
  }

  /** Reading the page number back from the URL of page `p` gives `p`. */
  lemma PageUrlRoundTrip(url: string, p: nat)
    ensures PageOf(PageUrl(url, p)) == Some(p)
  {
    var digits := NatToString(p);
    DigitsValueOfNatToString(p);
    match PageParam(url) {
      case Some(i) =>
        var e := SpanEnd(url, i + 5, IsDigit);
        NoEarlierPageParamReplaced(url, i, p);
        assert PageUrl(url, p) == url[..i] + PAGE_KEY + digits + url[e..];
        assert |url[..i]| == i;
        assert url[e..] == [] || !IsDigit(url[e..][0]);
        ReadPageAfter(url[..i], digits, url[e..]);
      case None =>
        var sep := if Contains(url, "?") then "&" else "?";
        NoEarlierPageParamAppended(url, sep, PAGE_KEY + digits);
        var r := url + sep + PAGE_KEY + digits;
        assert r == PageUrl(url, p);
        assert url + sep + (PAGE_KEY + digits) == r == (url + sep) + PAGE_KEY + digits + [];
        ReadPageAfter(url + sep, digits, []);
    }
  }

  /** `/requestId=[^&]+/` matches at `i`. */
  predicate RequestIdAt(s: string, i: nat) {
    StartsAt(s, i, REQUEST_KEY) && i + 10 < |s| && s[i + 10] != '&'
  }

  /** Where the first `requestId=<value>` with a non-empty value starts. */
  function RequestIdParam(s: string): (r: Option<nat>)
    ensures r.Some? ==> r.value + 10 < |s| && RequestIdAt(s, r.value)
    ensures r.Some? ==> forall j :: 0 <= j < r.value ==> !RequestIdAt(s, j)
    ensures r.None? ==> forall j :: 0 <= j ==> !RequestIdAt(s, j)
  {
    var m := (j: nat) => RequestIdAt(s, j);
    assert forall j: nat :: m(j) == RequestIdAt(s, j);
    Find(0, |s|, m)
  }

  /** Gives the request a fresh `requestId`: the value of the first
      `requestId=<non-empty value>` is replaced by `token`; a URL without
      any `requestId=` gets one added; a URL whose only `requestId=` keys
      have an empty value is left as it is. Either way the result carries
      a `requestId=`. */
  function WithRequestId(url: string, token: string): (r: string)
    ensures Contains(r, REQUEST_KEY)
    ensures RequestIdParam(url).Some? ==>
              var i := RequestIdParam(url).value;
              r == url[..i] + REQUEST_KEY + token + url[NextOrEnd(url, i + 10, '&')..]
    ensures RequestIdParam(url).None? && Contains(url, REQUEST_KEY) ==> r == url
    ensures !Contains(url, REQUEST_KEY) ==> r == url + (if Contains(url, "?") then "&" else "?") + REQUEST_KEY + token
  {
    match RequestIdParam(url)
    case Some(i) =>
      var j := NextOrEnd(url, i + 10, '&');
      CarriesKey(url[..i], token, url[j..]);
      url[..i] + REQUEST_KEY + token + url[j..]
    case None =>
      if Contains(url, REQUEST_KEY) then url
      else
        var sep := if Contains(url, "?") then "&" else "?";
        CarriesKey(url + sep, token, []);
        assert url + sep + REQUEST_KEY + token == (url + sep) + REQUEST_KEY + token + [];
        url + sep + REQUEST_KEY + token
  }

  /** A URL with `requestId=<token>` spliced in after `pre` carries the key
      and still starts with `pre`. */
  lemma CarriesKey(pre: string, token: string, post: string)
    ensures var r := pre + REQUEST_KEY + token + post;
            Contains(r, REQUEST_KEY) && |pre| < |r| && r[..|pre|] == pre
  {
    var r := pre + REQUEST_KEY + token + post;
    var i := |pre|;
    assert r == pre + (REQUEST_KEY + token) + post;
    assert r[i..i + |REQUEST_KEY|] == (REQUEST_KEY + token)[..|REQUEST_KEY|] == REQUEST_KEY;
    ContainsAt(r, REQUEST_KEY, i);
  }

  /** The request id a URL carries: the value of its first
      `requestId=<non-empty value>`. */
  function RequestIdOf(s: string): Option<string> {
    match RequestIdParam(s)
    case None => None
    case Some(i) => Some(s[i + 10..NextOrEnd(s, i + 10, '&')])
  }

  /** A match with none before it is the first match. */
  lemma FirstRequestIdParam(s: string, i: nat)
    requires RequestIdAt(s, i)
    requires forall j :: 0 <= j < i ==> !RequestIdAt(s, j)
    ensures RequestIdParam(s) == Some(i)
  {
    assert RequestIdParam(s).Some?;
  }

  /** The pieces of `pre + "requestId=" + token + post`, read back by index. */
  lemma RequestPieces(pre: string, token: string, post: string)
    ensures var r := pre + REQUEST_KEY + token + post;
            var n := |pre|;
            && |r| == n + 10 + |token| + |post|
            && r[..n] == pre
            && StartsAt(r, n, REQUEST_KEY)
            && r[n + 10..n + 10 + |token|] == token
            && (forall k :: n + 10 <= k < n + 10 + |token| ==> r[k] == token[k - n - 10])
            && (post != [] ==> r[n + 10 + |token|] == post[0])
  {
    var r := pre + REQUEST_KEY + token + post;
    var n := |pre|;
    assert r == (pre + REQUEST_KEY) + token + post;
    assert r[n..n + 10] == (pre + REQUEST_KEY)[n..];
    assert r[n + 10..n + 10 + |token|] == token;
  }

  /** The value starting at `i + 10` runs to the end of `token`, when the
      token holds no `&` and what follows it is nothing or an `&`. */
  lemma ReadRequestIdAfter(pre: string, token: string, post: string)
    requires token != [] && forall k :: 0 <= k < |token| ==> token[k] != '&'
    requires post == [] || post[0] == '&'
    requires forall j :: 0 <= j < |pre| ==> !RequestIdAt(pre + REQUEST_KEY + token + post, j)
    ensures RequestIdOf(pre + REQUEST_KEY + token + post) == Some(token)
  {
    var r := pre + REQUEST_KEY + token + post;
    var n := |pre|;
    RequestPieces(pre, token, post);
    assert r[n + 10] == token[0];
    FirstRequestIdParam(r, n);
    NextOrEndAt(r, n + 10, n + 10 + |token|, '&');
  }

  /** Two strings that agree below `n + 10` have the same `requestId=`
      matches before `n`. */
  lemma SameRequestIdsBefore(a: string, b: string, n: nat)
    requires n + 10 <= |a| && n + 10 <= |b| && a[..n + 10] == b[..n + 10]
    ensures forall j :: 0 <= j < n ==> (RequestIdAt(a, j) <==> RequestIdAt(b, j))
  {
    forall j | 0 <= j < n ensures RequestIdAt(a, j) <==> RequestIdAt(b, j) {
      assert a[j..j + 10] == a[..n + 10][j..j + 10] == b[..n + 10][j..j + 10] == b[j..j + 10];
      assert a[j + 10] == a[..n + 10][j + 10];
      assert b[j + 10] == b[..n + 10][j + 10];
    }
  }

  /** A key that sets `=` only at its last place: a copy of it that
      overlaps another copy starting at `n` starts at `n`. */
  lemma KeyDoesNotOverlap(s: string, j: nat, n: nat)
    requires StartsAt(s, j, REQUEST_KEY) && StartsAt(s, n, REQUEST_KEY)
    requires j <= n < j + 10
    ensures j == n
  {
    assert s[j + 9] == s[j..j + 10][9] == '=';
    if j + 9 < n + 10 && n <= j + 9 {
      assert s[j + 9] == s[n..n + 10][j + 9 - n];
    }
  }

  /** The request id of the URL actually requested is the fresh token,
      whenever `WithRequestId` sets one (the URL had a non-empty
      `requestId` value, or no `requestId=` at all) and the token holds no
      `&`. */
  lemma RequestIdRoundTrip(url: string, token: string)
    requires token != [] && forall k :: 0 <= k < |token| ==> token[k] != '&'
    requires RequestIdParam(url).Some? || !Contains(url, REQUEST_KEY)
    ensures RequestIdOf(WithRequestId(url, token)) == Some(token)
  {
    if RequestIdParam(url).Some? {
      RequestIdReplaced(url, token, RequestIdParam(url).value);
    } else {
      RequestIdAppended(url, token);
    }
  }

  lemma RequestIdReplaced(url: string, token: string, i: nat)
    requires token != [] && forall k :: 0 <= k < |token| ==> token[k] != '&'
    requires RequestIdParam(url) == Some(i)
    ensures RequestIdOf(WithRequestId(url, token)) == Some(token)
  {
    var j := NextOrEnd(url, i + 10, '&');
    var r := url[..i] + REQUEST_KEY + token + url[j..];
    assert r == WithRequestId(url, token);
    RequestPieces(url[..i], token, url[j..]);
    assert url[..i + 10] == url[..i] + REQUEST_KEY by {
      assert url[i..i + 10] == REQUEST_KEY;
    }
    assert r[..i + 10] == url[..i + 10];
    SameRequestIdsBefore(url, r, i);
    assert url[j..] == [] || url[j..][0] == '&';
    ReadRequestIdAfter(url[..i], token, url[j..]);
  }

  lemma RequestIdAppended(url: string, token: string)
    requires token != [] && forall k :: 0 <= k < |token| ==> token[k] != '&'
    requires !Contains(url, REQUEST_KEY)
    ensures RequestIdOf(WithRequestId(url, token)) == Some(token)
  {
    var sep := if Contains(url, "?") then "&" else "?";
    var pre := url + sep;
    var r := pre + REQUEST_KEY + token + [];
    assert r == WithRequestId(url, token);
    RequestPieces(pre, token, []);
    var n := |url|;
    assert r[..n] == url;
    assert r[n] == sep[0];
    forall k | 0 <= k < n + 1 ensures !RequestIdAt(r, k) {
      NoKeyBefore(url, r, n, k);
    }
    ReadRequestIdAfter(pre, token, []);
  }

  /** No copy of the key starts before the separator placed at `n`. */
  lemma NoKeyBefore(url: string, r: string, n: nat, k: nat)
    requires n == |url| && n < |r| && r[..n] == url && r[n] != '='
    requires !Contains(url, REQUEST_KEY) && StartsAt(r, n + 1, REQUEST_KEY)
    requires k < n + 1
    ensures !RequestIdAt(r, k)
  {
    if StartsAt(r, k, REQUEST_KEY) {
      if k + 10 <= n {
        assert r[k..k + 10] == url[k..k + 10];
        ContainsAt(url, REQUEST_KEY, k);
      } else if n < k + 9 {
        KeyDoesNotOverlap(r, k, n + 1);
      }
    }
  }

  /** The URL actually requested for page `p` of the category. */
  function PageRequest(categoryUrl: string, p: nat, token: string): string {
    WithRequestId(PageUrl(categoryUrl, p), token)
  }

  /** The URLs requested for a list of pages, in order. */
  function Requests(categoryUrl: string, pages: seq<nat>, token: nat -> string): (r: seq<string>)
    ensures |r| == |pages|
    ensures forall k :: 0 <= k < |pages| ==> r[k] == PageRequest(categoryUrl, pages[k], token(pages[k]))
  {
    seq(|pages|, k requires 0 <= k < |pages| => PageRequest(categoryUrl, pages[k], token(pages[k])))
  }

  // ---------------------------------------------------------------------
  // Batches of pages
  // ---------------------------------------------------------------------

  function Min(a: int, b: int): int {
    if a <= b then a else b
  }

  /** A batch of consecutive pages: `count` pages from `first` on. */
  datatype Batch = Batch(first: nat, count: nat)

  /** The pages of a batch, in order. */
  function Pages(b: Batch): (r: seq<nat>)
    ensures |r| == b.count
    ensures forall k :: 0 <= k < |r| ==> r[k] == b.first + k
  {
    seq(b.count, k => b.first + k)
  }

  /** The batch that starts at `page`. */
  function BatchAt(cfg: Config, page: nat): (r: Batch)
    ensures r.first == page && r.count <= cfg.pageParallel
    ensures r.count > 0 ==> page + r.count - 1 <= cfg.maxPage
    ensures r.count < cfg.pageParallel ==> page + r.count > cfg.maxPage
  {
    Batch(page, if page > cfg.maxPage then 0 else Min(cfg.pageParallel, cfg.maxPage + 1 - page))
  }

  predicate HasData(d: Option<seq<RawItem>>) {
    d.Some? && |d.value| > 0
  }

  /** Some page of the batch carried items, read page by page as the
      crawler's `anyData` flag is. */
  predicate AnyData(fetch: nat -> Option<seq<RawItem>>, first: nat, n: nat) {
    n > 0 && (AnyData(fetch, first, n - 1) || HasData(fetch(first + n - 1)))
  }

  predicate Productive(fetch: nat -> Option<seq<RawItem>>, b: Batch) {
    AnyData(fetch, b.first, b.count)
  }

  function Plan(fetch: nat -> Option<seq<RawItem>>, cfg: Config, page: nat): seq<Batch>
    decreases cfg.maxPage + 1 - page
  {
    if page > cfg.maxPage then []
    else
      var b := BatchAt(cfg, page);
      if b.count == 0 then []
      else [b] + (if Productive(fetch, b) then Plan(fetch, cfg, page + b.count) else [])
  }

  /** The first batch of the plan from `page`, and what follows it. */
  lemma PlanStep(fetch: nat -> Option<seq<RawItem>>, cfg: Config, page: nat)
    requires page <= cfg.maxPage && BatchAt(cfg, page).count > 0
    ensures var b := BatchAt(cfg, page);
            Plan(fetch, cfg, page) == [b] + (if Productive(fetch, b) then Plan(fetch, cfg, page + b.count) else [])
  {
  }

  predicate GoodBatch(cfg: Config, b: Batch) {
    1 <= b.count <= cfg.pageParallel && b.first + b.count - 1 <= cfg.maxPage
  }

  predicate Chained(plan: seq<Batch>) {
    forall c, d :: 0 <= c < |plan| && 0 <= d < |plan| && d == c + 1 ==> plan[d].first == plan[c].first + plan[c].count
  }

  function LastPage(b: Batch): int {
    b.first + b.count - 1
  }


  /** Every batch of the plan is non-empty, at most `pageParallel` wide
      and within `maxPage`. */
  lemma {:induction false} PlanGood(fetch: nat -> Option<seq<RawItem>>, cfg: Config, page: nat)
    ensures forall c :: 0 <= c < |Plan(fetch, cfg, page)| ==> GoodBatch(cfg, Plan(fetch, cfg, page)[c])
    decreases cfg.maxPage + 1 - page
  {
    if page <= cfg.maxPage && BatchAt(cfg, page).count > 0 {
      var b := BatchAt(cfg, page);
      PlanStep(fetch, cfg, page);
      if Productive(fetch, b) {
        var rest := Plan(fetch, cfg, page + b.count);
        PlanGood(fetch, cfg, page + b.count);
        var plan := Plan(fetch, cfg, page);
        forall c | 0 <= c < |plan| ensures GoodBatch(cfg, plan[c]) {
          if c > 0 { assert plan[c] == rest[c - 1]; }
        }
      }
    }
  }

  /** The plan starts at `page`, and each batch starts where the previous
      one ended. */
  lemma {:induction false} PlanChained(fetch: nat -> Option<seq<RawItem>>, cfg: Config, page: nat)
    ensures var plan := Plan(fetch, cfg, page);
            (|plan| > 0 ==> plan[0].first == page) && Chained(plan)
    decreases cfg.maxPage + 1 - page
  {
    if page <= cfg.maxPage && BatchAt(cfg, page).count > 0 {
      var b := BatchAt(cfg, page);
      PlanStep(fetch, cfg, page);
      if Productive(fetch, b) {
        var rest := Plan(fetch, cfg, page + b.count);
        PlanChained(fetch, cfg, page + b.count);
        var plan := Plan(fetch, cfg, page);
        forall c, d | 0 <= c < d < |plan| && d == c + 1 ensures plan[d].first == plan[c].first + plan[c].count {
          assert plan[d] == rest[c];
          if c > 0 { assert plan[c] == rest[c - 1]; }
        }
      }
    }
  }

  /** Every batch but the last carried items. */
  lemma {:induction false} PlanProductive(fetch: nat -> Option<seq<RawItem>>, cfg: Config, page: nat)
    ensures forall c :: 0 <= c < |Plan(fetch, cfg, page)| - 1 ==> Productive(fetch, Plan(fetch, cfg, page)[c])
    decreases cfg.maxPage + 1 - page
  {
    if page <= cfg.maxPage && BatchAt(cfg, page).count > 0 {
      var b := BatchAt(cfg, page);
      PlanStep(fetch, cfg, page);
      if Productive(fetch, b) {
        var rest := Plan(fetch, cfg, page + b.count);
        PlanProductive(fetch, cfg, page + b.count);
        var plan := Plan(fetch, cfg, page);
        forall c | 0 <= c < |plan| - 1 ensures Productive(fetch, plan[c]) {
          if c > 0 { assert plan[c] == rest[c - 1]; }
        }
      }
    }
  }

  /** Some batch is requested from any page up to `maxPage`. */
  lemma PlanNonEmpty(fetch: nat -> Option<seq<RawItem>>, cfg: Config, page: nat)
    ensures page <= cfg.maxPage && cfg.pageParallel > 0 ==> Plan(fetch, cfg, page) != []
  {
    if page <= cfg.maxPage && cfg.pageParallel > 0 {
      PlanStep(fetch, cfg, page);
    }
  }

  /** Nothing is requested from a page past `maxPage` or with an empty
      batch. */
  lemma PlanStop(fetch: nat -> Option<seq<RawItem>>, cfg: Config, page: nat)
    requires page > cfg.maxPage || BatchAt(cfg, page).count == 0
    ensures Plan(fetch, cfg, page) == []
  {
  }

  lemma LastOfCons<T>(x: T, rest: seq<T>)
    ensures ([x] + rest)[|[x] + rest| - 1] == if rest == [] then x else rest[|rest| - 1]
  {
  }

  /** A productive last batch ends at `maxPage`. */
  predicate EndsFull(fetch: nat -> Option<seq<RawItem>>, maxPage: nat, plan: seq<Batch>) {
    |plan| > 0 && Productive(fetch, plan[|plan| - 1]) ==> LastPage(plan[|plan| - 1]) == maxPage
  }

  /** When even the last batch carried items, the plan ran up to
      `maxPage`. */
  lemma {:induction false} PlanLastFull(fetch: nat -> Option<seq<RawItem>>, cfg: Config, page: nat)
    ensures EndsFull(fetch, cfg.maxPage, Plan(fetch, cfg, page))
    decreases cfg.maxPage + 1 - page
  {
    if page > cfg.maxPage || BatchAt(cfg, page).count == 0 {
      PlanStop(fetch, cfg, page);
    } else {
      var b := BatchAt(cfg, page);
      PlanStep(fetch, cfg, page);
      if Productive(fetch, b) {
        var rest := Plan(fetch, cfg, page + b.count);
        assert Plan(fetch, cfg, page) == [b] + rest;
        PlanLastFull(fetch, cfg, page + b.count);
        PlanNonEmpty(fetch, cfg, page + b.count);
        LastFullCons(fetch, cfg.maxPage, b, rest);
      } else {
        assert Plan(fetch, cfg, page) == [b] + [];
        LastFullCons(fetch, cfg.maxPage, b, []);
      }
    }
  }

  /** `[b] + rest` ends full when `rest` does, and when `b` is unproductive
      or, with nothing after it, ends at `maxPage`. */
  lemma LastFullCons(fetch: nat -> Option<seq<RawItem>>, maxPage: nat, b: Batch, rest: seq<Batch>)
    requires rest == [] && Productive(fetch, b) ==> LastPage(b) == maxPage
    requires EndsFull(fetch, maxPage, rest)
    ensures EndsFull(fetch, maxPage, [b] + rest)
  {
    LastOfCons(b, rest);
  }

  /** A batch is productive exactly when one of its pages carried items. */
  lemma {:induction false} AnyDataIff(fetch: nat -> Option<seq<RawItem>>, first: nat, n: nat)
    ensures AnyData(fetch, first, n) <==> exists p :: first <= p < first + n && HasData(fetch(p))
  {
    if n > 0 {
      AnyDataIff(fetch, first, n - 1);
      if AnyData(fetch, first, n) && !HasData(fetch(first + n - 1)) {
        var p :| first <= p < first + n - 1 && HasData(fetch(p));
        assert first <= p < first + n;
      }
      if exists p :: first <= p < first + n && HasData(fetch(p)) {
        var p :| first <= p < first + n && HasData(fetch(p));
        if p < first + n - 1 {
          assert first <= p < first + n - 1;
        }
      }
    }
  }

  /** ceil(n / width), by repeated subtraction. */
  function CeilDiv(n: nat, width: nat): nat
    requires width > 0
  {
    if n == 0 then 0 else if n <= width then 1 else 1 + CeilDiv(n - width, width)
  }

  /** The loop runs at most ceil((maxPage + 1 - page) / pageParallel)
      batches. */
  lemma {:induction false} PlanLength(fetch: nat -> Option<seq<RawItem>>, cfg: Config, page: nat)
    requires cfg.pageParallel > 0 && page <= cfg.maxPage + 1
    ensures |Plan(fetch, cfg, page)| <= CeilDiv(cfg.maxPage + 1 - page, cfg.pageParallel)
    decreases cfg.maxPage + 1 - page
  {
    if page <= cfg.maxPage {
      var b := BatchAt(cfg, page);
      if Productive(fetch, b) {
        PlanLength(fetch, cfg, page + b.count);
      }
    }
  }

  /** The pages of chained batches, taken one batch after the other, count
      up by one from the first page of the first batch. */
  lemma {:induction false} FlattenChained(batches: seq<Batch>)
    requires Chained(batches)
    ensures |batches| > 0 ==>
              |Flatten(batches)| == LastPage(batches[|batches| - 1]) + 1 - batches[0].first
    ensures |batches| > 0 ==>
              forall k :: 0 <= k < |Flatten(batches)| ==> Flatten(batches)[k] == batches[0].first + k
    decreases |batches|
  {
    if |batches| > 0 {
      var init := batches[..|batches| - 1];
      var last := batches[|batches| - 1];
      assert Chained(init) by {
        forall c, d | 0 <= c < |init| && 0 <= d < |init| && d == c + 1
          ensures init[d].first == init[c].first + init[c].count
        {
          assert init[c] == batches[c] && init[d] == batches[d];
        }
      }
      FlattenChained(init);
      var f := Flatten(batches);
      assert f == Flatten(init) + Pages(last);
      if |init| > 0 {
        assert init[0] == batches[0] && init[|init| - 1] == batches[|batches| - 2];
        assert last.first == batches[0].first + |Flatten(init)|;
      }
      forall k | 0 <= k < |f| ensures f[k] == batches[0].first + k {
        if k >= |Flatten(init)| {
          assert f[k] == Pages(last)[k - |Flatten(init)|];
        } else {
          assert f[k] == Flatten(init)[k];
        }
      }
    }
  }

  /** The pages requested for a category run 0, 1, 2, ... without a gap or
      a repeat, and none is above `maxPage`. */
  lemma PlanPages(fetch: nat -> Option<seq<RawItem>>, cfg: Config)
    ensures var pages := Flatten(Plan(fetch, cfg, 0));
            forall k :: 0 <= k < |pages| ==> pages[k] == k && pages[k] <= cfg.maxPage
  {
    var plan := Plan(fetch, cfg, 0);
    PlanChained(fetch, cfg, 0);
    PlanGood(fetch, cfg, 0);
    FlattenChained(plan);
    if |plan| > 0 {
      assert GoodBatch(cfg, plan[|plan| - 1]);
    }
  }

  lemma FiveFullPages(fetch: nat -> Option<seq<RawItem>>)
    requires forall p :: p <= 4 ==> HasData(fetch(p))
    requires forall p :: 5 <= p <= 8 ==> !HasData(fetch(p))
    ensures Plan(fetch, CONFIG, 0) == [Batch(0, 3), Batch(3, 3), Batch(6, 3)]
  {
    assert Productive(fetch, Batch(0, 3)) by { AnyDataIff(fetch, 0, 3); assert HasData(fetch(0)); }
    assert Productive(fetch, Batch(3, 3)) by { AnyDataIff(fetch, 3, 3); assert HasData(fetch(3)); }
    assert !Productive(fetch, Batch(6, 3)) by { AnyDataIff(fetch, 6, 3); }
    assert Plan(fetch, CONFIG, 6) == [Batch(6, 3)];
    assert Plan(fetch, CONFIG, 3) == [Batch(3, 3), Batch(6, 3)];
  }

  // ---------------------------------------------------------------------
  // Items
  // ---------------------------------------------------------------------

  /** Which copy of the crawler runs: src/parser.js with src/product.js,
      or the standalone index.js. */
  datatype Variant = Modular | Standalone

  /** The fresh values a run consumes: the uuids of the item at index `j`
      of page `p` are `freshId(p, j)` and `uuid(p, j)`, the request token
      of page `p` is `token(p)`, and `now` is the timestamp. */
  datatype Env = Env(freshId: (nat, nat) -> string, uuid: (nat, nat) -> string, token: nat -> string, now: string)

  /** The city a variant attaches to the category's records. */
  function CityFor(v: Variant, categoryUrl: string): Option<string> {
    match v
    case Modular => ExtractCityFromUrl(categoryUrl)
    case Standalone => None
  }

  /** The record built for an item of page `p` at index `j`. */
  function Build(v: Variant, item: Item, city: Option<string>, env: Env, p: nat, j: nat): Result<Product, ItemError> {
    match v
    case Modular => BuildProductObject(item, city, env.freshId(p, j), env.uuid(p, j), env.now)
    case Standalone => BuildProductStandalone(item, env.freshId(p, j), env.uuid(p, j), env.now)
  }

  /** How the loop treats one item: `keep` is the merchant filter and
      `build(item, p, j)` builds the record of the item at index `j` of page
      `p`; either may throw. */
  datatype Pipeline = Pipeline(keep: Item -> Result<bool, ItemError>, build: (Item, nat, nat) -> Result<Product, ItemError>)

  /** The crawler's own pipeline: `isMagnumProduct`, then the variant's
      `buildProductObject` with the category's city. */
  function PipelineFor(v: Variant, categoryUrl: string, env: Env): Pipeline {
    Pipeline(IsMagnumProduct, (item: Item, p: nat, j: nat) => Build(v, item, CityFor(v, categoryUrl), env, p, j))
  }

  /** What one element of a page offers the store: nothing when it is
      falsy, when the filter rejects it, or when filtering or building it
      throws. */
  function Candidate(pl: Pipeline, raw: RawItem, p: nat, j: nat): (r: Option<Product>)
    ensures r.Some? <==> raw.Present? && pl.keep(raw.item) == Ok(true) && pl.build(raw.item, p, j).Ok?
    ensures r.Some? ==> r.value == pl.build(raw.item, p, j).value
  {
    match raw
    case Falsy => None
    case Present(item) =>
      if pl.keep(item) == Ok(true) then
        match pl.build(item, p, j)
        case Ok(prod) => Some(prod)
        case Err(_) => None
      else None
  }

  /** With the crawler's pipeline, an element reaches the store exactly
      when it is a Magnum product whose record builds; the store is offered
      that record. */
  lemma CrawlerCandidate(v: Variant, categoryUrl: string, env: Env, raw: RawItem, p: nat, j: nat)
    ensures var r := Candidate(PipelineFor(v, categoryUrl, env), raw, p, j);
            && (r.Some? <==> raw.Present? && IsMagnumProduct(raw.item) == Ok(true)
                             && Build(v, raw.item, CityFor(v, categoryUrl), env, p, j).Ok?)
            && (r.Some? ==> r.value == Build(v, raw.item, CityFor(v, categoryUrl), env, p, j).value)
  {
  }

  function OptionToSeq<T>(o: Option<T>): seq<T> {
    match o
    case None => []
    case Some(x) => [x]
  }

  /** The records offered by the first `n` elements of page `p`. */
  function PageCandidates(pl: Pipeline, items: seq<RawItem>, n: nat, p: nat): (r: seq<Product>)
    requires n <= |items|
    ensures |r| <= n
  {
    if n == 0 then []
    else PageCandidates(pl, items, n - 1, p) + OptionToSeq(Candidate(pl, items[n - 1], p, n - 1))
  }

  /** The records offered by the first `n` pages of a batch; a page
      without items offers none. */
  function BatchCandidates(pl: Pipeline, fetch: nat -> Option<seq<RawItem>>, pages: seq<nat>, n: nat): seq<Product>
    requires n <= |pages|
  {
    if n == 0 then []
    else
      var d := fetch(pages[n - 1]);
      BatchCandidates(pl, fetch, pages, n - 1)
        + (if HasData(d) then PageCandidates(pl, d.value, |d.value|, pages[n - 1]) else [])
  }

  /** The records offered by a list of batches, in order. */
  function RunCandidates(pl: Pipeline, fetch: nat -> Option<seq<RawItem>>, batches: seq<Batch>): seq<Product> {
    if batches == [] then []
    else
      var last := batches[|batches| - 1];
      RunCandidates(pl, fetch, batches[..|batches| - 1]) + BatchCandidates(pl, fetch, Pages(last), last.count)
  }

  /** The pages of a list of batches, in order. */
  function Flatten(batches: seq<Batch>): seq<nat> {
    if batches == [] then [] else Flatten(batches[..|batches| - 1]) + Pages(batches[|batches| - 1])
  }

  /** The store is where a run of `addProduct` calls over `offered`
      leads from the state `st0`. */
  ghost predicate Tracks(store: DedupStore, st0: Seen, offered: seq<Product>)
    reads store
  {
    store.State() == Feed(st0, offered)
  }

  /** Reading one more item adds its candidate, if any, to the candidates
      of the page. */
  lemma PageCandidatesStep(offered: seq<Product>, acc: seq<Product>, pl: Pipeline, items: seq<RawItem>, j: nat, p: nat)
    requires j < |items|
    requires acc == offered + PageCandidates(pl, items, j, p)
    ensures Candidate(pl, items[j], p, j).None? ==> acc == offered + PageCandidates(pl, items, j + 1, p)
    ensures Candidate(pl, items[j], p, j).Some? ==>
              acc + [Candidate(pl, items[j], p, j).value] == offered + PageCandidates(pl, items, j + 1, p)
  {
    var c := OptionToSeq(Candidate(pl, items[j], p, j));
    assert PageCandidates(pl, items, j + 1, p) == PageCandidates(pl, items, j, p) + c;
    assert offered + (PageCandidates(pl, items, j, p) + c) == (offered + PageCandidates(pl, items, j, p)) + c;
  }

  /** Offering one record to the store: `addProduct`, counting the record
      when it is accepted. */
  method Offer(store: DedupStore, product: Product, ghost st0: Seen, ghost offered: seq<Product>, matchesIn: nat)
    returns (matches: nat)
    requires store.Valid() && Tracks(store, st0, offered)
    modifies store
    ensures store.Valid() && Tracks(store, st0, offered + [product])
    ensures matches == matchesIn + |store.allResults| - |old(store.allResults)|
  {
    var added := store.AddProduct(product);
    FeedStep(st0, offered, product);
    matches := matchesIn + (if added then 1 else 0);
  }

  /** The inner loop over the items of one page: falsy items, items the
      filter rejects and items whose processing throws are skipped; each
      record the store accepts adds one to the count. */
  method ProcessPage(store: DedupStore, pl: Pipeline, items: seq<RawItem>, p: nat,
                     ghost st0: Seen, ghost offered: seq<Product>, matchesIn: nat)
    returns (matches: nat)
    requires store.Valid() && Tracks(store, st0, offered)
    modifies store
    ensures store.Valid() && Tracks(store, st0, offered + PageCandidates(pl, items, |items|, p))
    ensures matches == matchesIn + |store.allResults| - |old(store.allResults)|
  {
    matches := matchesIn;
    var j := 0;
    ghost var acc := offered;
    assert PageCandidates(pl, items, j, p) == [];
    assert offered + [] == offered;
    while j < |items|
      invariant j <= |items|
      invariant store.Valid()
      invariant acc == offered + PageCandidates(pl, items, j, p)
      invariant Tracks(store, st0, acc)
      invariant matches == matchesIn + |store.allResults| - |old(store.allResults)|
    {
      PageCandidatesStep(offered, acc, pl, items, j, p);
      var candidate := Candidate(pl, items[j], p, j);
      if candidate.Some? {
        matches := Offer(store, candidate.value, st0, acc, matches);
        acc := acc + [candidate.value];
      }
      j := j + 1;
    }
  }

  /** Reading one more response of a batch adds the candidates of its
      page, if it carries items. */
  lemma BatchCandidatesStep(offered: seq<Product>, acc: seq<Product>, pl: Pipeline,
                            fetch: nat -> Option<seq<RawItem>>, pages: seq<nat>, i: nat)
    requires i < |pages|
    requires acc == offered + BatchCandidates(pl, fetch, pages, i)
    ensures !HasData(fetch(pages[i])) ==> acc == offered + BatchCandidates(pl, fetch, pages, i + 1)
    ensures HasData(fetch(pages[i])) ==>
              var d := fetch(pages[i]).value;
              acc + PageCandidates(pl, d, |d|, pages[i]) == offered + BatchCandidates(pl, fetch, pages, i + 1)
  {
  }

  /** One more response of a batch: the batch so far is productive when
      it was before or the new page carries items. */
  lemma AnyDataStep(fetch: nat -> Option<seq<RawItem>>, first: nat, i: nat)
    ensures AnyData(fetch, first, i + 1) == (AnyData(fetch, first, i) || HasData(Fetched(fetch, first + i)))
  {
  }

  /** The response to the request for `page`. */
  function Fetched(fetch: nat -> Option<seq<RawItem>>, page: nat): (r: Option<seq<RawItem>>)
    ensures r == fetch(page)
  {
    fetch(page)
  }

  /** The loop over the responses of one batch: pages without items are
      skipped, the others are processed in page order; `anyData` tells
      whether some page carried items. */
  method ProcessBatch(store: DedupStore, pl: Pipeline, fetch: nat -> Option<seq<RawItem>>, pages: seq<nat>,
                      ghost b: Batch, ghost st0: Seen, ghost offered: seq<Product>, matchesIn: nat)
    returns (matches: nat, anyData: bool)
    requires pages == Pages(b)
    requires store.Valid() && Tracks(store, st0, offered)
    modifies store
    ensures anyData == Productive(fetch, b)
    ensures store.Valid() && Tracks(store, st0, offered + BatchCandidates(pl, fetch, pages, |pages|))
    ensures matches == matchesIn + |store.allResults| - |old(store.allResults)|
  {
    matches := matchesIn;
    anyData := false;
    var i := 0;
    ghost var acc := offered;
    assert offered + [] == offered;
    assert !AnyData(fetch, b.first, i);
    while i < |pages|
      invariant i <= |pages|
      invariant store.Valid()
      invariant anyData == AnyData(fetch, b.first, i)
      invariant acc == offered + BatchCandidates(pl, fetch, pages, i)
      invariant Tracks(store, st0, acc)
      invariant matches == matchesIn + |store.allResults| - |old(store.allResults)|
    {
      matches, anyData, acc := ProcessResponse(store, pl, fetch, pages, i, b, st0, offered, acc, anyData, matches);
      i := i + 1;
    }
  }

  /** What one response adds: nothing when it carries no items, and
      otherwise its page's records, after which the batch is productive. */
  lemma ResponseStep(pl: Pipeline, fetch: nat -> Option<seq<RawItem>>, pages: seq<nat>, i: nat, b: Batch,
                     offered: seq<Product>, acc: seq<Product>, anyDataIn: bool, data: Option<seq<RawItem>>)
    requires pages == Pages(b) && i < |pages|
    requires data == Fetched(fetch, pages[i])
    requires anyDataIn == AnyData(fetch, b.first, i)
    requires acc == offered + BatchCandidates(pl, fetch, pages, i)
    ensures HasData(data) ==> AnyData(fetch, b.first, i + 1)
    ensures HasData(data) ==>
              acc + PageCandidates(pl, data.value, |data.value|, pages[i]) == offered + BatchCandidates(pl, fetch, pages, i + 1)
    ensures !HasData(data) ==> AnyData(fetch, b.first, i + 1) == anyDataIn
    ensures !HasData(data) ==> acc == offered + BatchCandidates(pl, fetch, pages, i + 1)
  {
    BatchCandidatesStep(offered, acc, pl, fetch, pages, i);
    assert pages[i] == b.first + i;
    AnyDataStep(fetch, b.first, i);
  }

  /** One response of the batch: skipped when it carries no items, and
      otherwise processed, which sets `anyData`. */
  method ProcessResponse(store: DedupStore, pl: Pipeline, fetch: nat -> Option<seq<RawItem>>, pages: seq<nat>, i: nat,
                         ghost b: Batch, ghost st0: Seen, ghost offered: seq<Product>, ghost acc: seq<Product>,
                         anyDataIn: bool, matchesIn: nat)
    returns (matches: nat, anyData: bool, ghost acc': seq<Product>)
    requires pages == Pages(b) && i < |pages|
    requires anyDataIn == AnyData(fetch, b.first, i)
    requires acc == offered + BatchCandidates(pl, fetch, pages, i)
    requires store.Valid() && Tracks(store, st0, acc)
    modifies store
    ensures store.Valid()
    ensures anyData == AnyData(fetch, b.first, i + 1)
    ensures acc' == offered + BatchCandidates(pl, fetch, pages, i + 1)
    ensures Tracks(store, st0, acc')
    ensures matches == matchesIn + |store.allResults| - |old(store.allResults)|
  {
    var data := Fetched(fetch, pages[i]);
    ResponseStep(pl, fetch, pages, i, b, offered, acc, anyDataIn, data);
    matches, anyData, acc' := matchesIn, anyDataIn, acc;
    if HasData(data) {
      anyData := true;
      matches := ProcessPage(store, pl, data.value, pages[i], st0, acc, matchesIn);
      acc' := acc + PageCandidates(pl, data.value, |data.value|, pages[i]);
    }
  }

  /** The inner loop that lists the URLs of the batch starting at `page`. */
  method BatchUrls(categoryUrl: string, cfg: Config, page: nat, token: nat -> string)
    returns (pageUrls: seq<string>, pageNumbers: seq<nat>)
    ensures pageNumbers == Pages(BatchAt(cfg, page))
    ensures pageUrls == Requests(categoryUrl, pageNumbers, token)
  {
    pageUrls := [];
    pageNumbers := [];
    var i := 0;
    ghost var n := BatchAt(cfg, page).count;
    assert Pages(Batch(page, 0)) == [];
    while i < cfg.pageParallel
      invariant i <= n
      invariant pageNumbers == Pages(Batch(page, i))
      invariant pageUrls == Requests(categoryUrl, pageNumbers, token)
    {
      var p: nat := page + i;
      if p > cfg.maxPage {
        break;
      }
      pageUrls, pageNumbers := PushPage(categoryUrl, page, i, token, pageUrls, pageNumbers);
      i := i + 1;
    }
    BatchEnds(cfg, page, i);
  }

  /** One round of that loop: the URL of page `page + i` is built and
      queued. */
  method PushPage(categoryUrl: string, page: nat, i: nat, token: nat -> string,
                  pageUrlsIn: seq<string>, pageNumbersIn: seq<nat>)
    returns (pageUrls: seq<string>, pageNumbers: seq<nat>)
    requires pageNumbersIn == Pages(Batch(page, i))
    requires pageUrlsIn == Requests(categoryUrl, pageNumbersIn, token)
    ensures pageNumbers == Pages(Batch(page, i + 1))
    ensures pageUrls == Requests(categoryUrl, pageNumbers, token)
  {
    var p: nat := page + i;
    var paginatedUrl := PageUrl(categoryUrl, p);
    paginatedUrl := WithRequestId(paginatedUrl, token(p));
    RequestsSnoc(categoryUrl, pageNumbersIn, p, token);
    PagesSnoc(page, i);
    pageUrls := pageUrlsIn + [paginatedUrl];
    pageNumbers := pageNumbersIn + [p];
  }

  /** The loop that lists a batch stops after `pageParallel` pages or at
      the first page past `maxPage`, whichever comes first. */
  lemma BatchEnds(cfg: Config, page: nat, i: nat)
    requires i <= BatchAt(cfg, page).count
    requires i >= cfg.pageParallel || page + i > cfg.maxPage
    ensures Batch(page, i) == BatchAt(cfg, page)
  {
  }

  /** One more page of a batch. */
  lemma PagesSnoc(first: nat, n: nat)
    ensures Pages(Batch(first, n + 1)) == Pages(Batch(first, n)) + [first + n]
  {
  }

  /** One more request. */
  lemma RequestsSnoc(categoryUrl: string, pages: seq<nat>, p: nat, token: nat -> string)
    ensures Requests(categoryUrl, pages + [p], token) ==
              Requests(categoryUrl, pages, token) + [WithRequestId(PageUrl(categoryUrl, p), token(p))]
  {
  }

  /** One more batch adds its requests and its candidates. */
  lemma RunStep(pl: Pipeline, fetch: nat -> Option<seq<RawItem>>, batches: seq<Batch>, b: Batch)
    ensures Flatten(batches + [b]) == Flatten(batches) + Pages(b)
    ensures RunCandidates(pl, fetch, batches + [b]) == RunCandidates(pl, fetch, batches) + BatchCandidates(pl, fetch, Pages(b), b.count)
  {
    assert (batches + [b])[..|batches|] == batches;
  }

  /** The requests of two runs of pages, one after the other. */
  lemma RequestsAppend(categoryUrl: string, a: seq<nat>, b: seq<nat>, token: nat -> string)
    ensures Requests(categoryUrl, a + b, token) == Requests(categoryUrl, a, token) + Requests(categoryUrl, b, token)
  {
  }

  /** The plan from `page` on, after the batches `done`: the shape of
      the crawler's loop, which appends one batch per round. */
  function PlanFrom(fetch: nat -> Option<seq<RawItem>>, cfg: Config, done: seq<Batch>, page: nat): seq<Batch>
    decreases cfg.maxPage + 1 - page
  {
    if page > cfg.maxPage then done
    else
      var b := BatchAt(cfg, page);
      if b.count == 0 then done
      else if Productive(fetch, b) then PlanFrom(fetch, cfg, done + [b], page + b.count)
      else done + [b]
  }

  /** The loop stops: nothing is left to request from `page`. */
  lemma PlanFromStop(fetch: nat -> Option<seq<RawItem>>, cfg: Config, done: seq<Batch>, page: nat)
    requires page > cfg.maxPage || BatchAt(cfg, page).count == 0
    ensures PlanFrom(fetch, cfg, done, page) == done
  {
  }

  /** One round of the loop: the batch from `page` is appended, and the
      loop goes on after it exactly when some page of it carried items. */
  lemma PlanFromStep(fetch: nat -> Option<seq<RawItem>>, cfg: Config, done: seq<Batch>, page: nat)
    requires page <= cfg.maxPage && BatchAt(cfg, page).count > 0
    ensures var b := BatchAt(cfg, page);
            PlanFrom(fetch, cfg, done, page) ==
              (if Productive(fetch, b) then PlanFrom(fetch, cfg, done + [b], page + b.count) else done + [b])
  {
  }

  /** The loop's bookkeeping after one round: the batch `b` from `page`
      has been requested, and the loop goes on exactly when it carried
      items. */
  lemma PlanRound(fetch: nat -> Option<seq<RawItem>>, cfg: Config, plan: seq<Batch>, batches: seq<Batch>, page: nat,
                  b: Batch, goOn: bool, batches': seq<Batch>, page': nat)
    requires plan == PlanFrom(fetch, cfg, batches, page)
    requires page <= cfg.maxPage && b == BatchAt(cfg, page) && b.count > 0
    requires goOn == Productive(fetch, b)
    requires batches' == batches + [b] && page' == page + b.count
    ensures page' <= cfg.maxPage + 1
    ensures goOn ==> plan == PlanFrom(fetch, cfg, batches', page')
    ensures !goOn ==> plan == batches'
  {
    PlanFromStep(fetch, cfg, batches, page);
  }

  lemma AppendAssoc<T>(a: seq<T>, x: T, c: seq<T>)
    ensures (a + [x]) + c == a + ([x] + c)
  {
  }

  /** The loop's plan is `Plan`. */
  lemma {:induction false} PlanFromIsPlan(fetch: nat -> Option<seq<RawItem>>, cfg: Config, done: seq<Batch>, page: nat)
    ensures PlanFrom(fetch, cfg, done, page) == done + Plan(fetch, cfg, page)
    decreases cfg.maxPage + 1 - page
  {
    if page > cfg.maxPage || BatchAt(cfg, page).count == 0 {
      assert done + [] == done;
    } else {
      var b := BatchAt(cfg, page);
      PlanStep(fetch, cfg, page);
      PlanFromStep(fetch, cfg, done, page);
      if Productive(fetch, b) {
        PlanFromIsPlan(fetch, cfg, done + [b], page + b.count);
        AppendAssoc(done, b, Plan(fetch, cfg, page + b.count));
      } else {
        assert [b] + [] == [b];
      }
    }
  }

  /** One round of `processCategory`'s loop, after the URLs of the batch
      from `page` are listed: fetch and process the batch, and record its
      requests. `batches'` is the list of batches requested so far. */
  method ProcessRound(store: DedupStore, pl: Pipeline, categoryUrl: string, cfg: Config,
                      fetch: nat -> Option<seq<RawItem>>, token: nat -> string, page: nat,
                      pageUrls: seq<string>, pageNumbers: seq<nat>,
                      ghost st0: Seen, ghost plan: seq<Batch>, ghost batches: seq<Batch>,
                      matchesIn: nat, requestsIn: seq<string>)
    returns (matches: nat, anyData: bool, requests: seq<string>, page': nat, ghost batches': seq<Batch>)
    requires page <= cfg.maxPage
    requires pageNumbers == Pages(BatchAt(cfg, page)) && |pageNumbers| > 0
    requires pageUrls == Requests(categoryUrl, pageNumbers, token)
    requires plan == PlanFrom(fetch, cfg, batches, page)
    requires store.Valid() && Tracks(store, st0, RunCandidates(pl, fetch, batches))
    requires requestsIn == Requests(categoryUrl, Flatten(batches), token)
    modifies store
    ensures page' == page + |pageNumbers| <= cfg.maxPage + 1
    ensures anyData ==> plan == PlanFrom(fetch, cfg, batches', page')
    ensures !anyData ==> plan == batches'
    ensures store.Valid() && Tracks(store, st0, RunCandidates(pl, fetch, batches'))
    ensures requests == Requests(categoryUrl, Flatten(batches'), token)
    ensures matches == matchesIn + |store.allResults| - |old(store.allResults)|
  {
    ghost var b := BatchAt(cfg, page);
    matches, anyData := ProcessBatch(store, pl, fetch, pageNumbers, b, st0, RunCandidates(pl, fetch, batches), matchesIn);
    RunStep(pl, fetch, batches, b);
    RequestsAppend(categoryUrl, Flatten(batches), pageNumbers, token);
    requests := requestsIn + pageUrls;
    batches' := batches + [b];
    page' := page + |pageNumbers|;
    PlanRound(fetch, cfg, plan, batches, page, b, anyData, batches', page');
  }

  /** One pass of the loop of `processCategory` from `page`: stop when
      `page` is past the last page or the batch is empty, and otherwise
      request the batch, process it, and go on after it exactly when some
      page of it carried items. `batches'` lists the batches requested so far. */
  method CategoryRound(store: DedupStore, pl: Pipeline, categoryUrl: string, cfg: Config,
                       fetch: nat -> Option<seq<RawItem>>, token: nat -> string, page: nat,
                       ghost st0: Seen, ghost plan: seq<Batch>, ghost batches: seq<Batch>,
                       matchesIn: nat, requestsIn: seq<string>)
    returns (matches: nat, requests: seq<string>, page': nat, goOn: bool, ghost batches': seq<Batch>)
    requires page <= cfg.maxPage + 1
    requires plan == PlanFrom(fetch, cfg, batches, page)
    requires store.Valid() && Tracks(store, st0, RunCandidates(pl, fetch, batches))
    requires requestsIn == Requests(categoryUrl, Flatten(batches), token)
    modifies store
    ensures page <= page' <= cfg.maxPage + 1
    ensures goOn ==> page < page' && plan == PlanFrom(fetch, cfg, batches', page')
    ensures !goOn ==> plan == batches'
    ensures store.Valid() && Tracks(store, st0, RunCandidates(pl, fetch, batches'))
    ensures requests == Requests(categoryUrl, Flatten(batches'), token)
    ensures matches == matchesIn + |store.allResults| - |old(store.allResults)|
  {
    matches, requests, page', goOn, batches' := matchesIn, requestsIn, page, false, batches;
    if page > cfg.maxPage {
      PlanFromStop(fetch, cfg, batches, page);
      return;
    }
    var pageUrls, pageNumbers := BatchUrls(categoryUrl, cfg, page, token);
    if |pageNumbers| == 0 {
      PlanFromStop(fetch, cfg, batches, page);
      return;
    }
    matches, goOn, requests, page', batches' :=
      ProcessRound(store, pl, categoryUrl, cfg, fetch, token, page, pageUrls, pageNumbers, st0, plan, batches, matchesIn, requestsIn);
  }

  /** `processCategory`: the category name is decoded for the log before
      anything is fetched; `nameDecodes` says whether `decodeURIComponent`
      accepts it. A malformed `%` sequence makes the call reject with a
      `URIError`: nothing is requested and the store is untouched (None).
      Otherwise the pages are crawled as `CrawlPages` says and the number
      of records the store accepted is returned. */
  method ProcessCategory(store: DedupStore, pl: Pipeline, categoryUrl: string, cfg: Config,
                         fetch: nat -> Option<seq<RawItem>>, token: nat -> string, nameDecodes: bool)
    returns (matches: Option<nat>, requests: seq<string>)
    requires store.Valid()
    modifies store
    ensures store.Valid()
    ensures !nameDecodes ==>
              && matches.None? && requests == [] && unchanged(store)
    ensures nameDecodes ==>
              && requests == Requests(categoryUrl, Flatten(Plan(fetch, cfg, 0)), token)
              && store.allResults ==
                   old(store.allResults) + Accept(old(store.seenIds), RunCandidates(pl, fetch, Plan(fetch, cfg, 0)))
              && matches == Some(|Accept(old(store.seenIds), RunCandidates(pl, fetch, Plan(fetch, cfg, 0)))|)
  {
    if !nameDecodes {
      return None, [];
    }
    var n;
    n, requests := CrawlPages(store, pl, categoryUrl, cfg, fetch, token);
    matches := Some(n);
  }

  /** The loop of `processCategory`: request the batches of `Plan` in
      order, hand the records of every Magnum item to the store, and count
      the records the store accepted. `requests` lists the URLs requested,
      in order. */
  method CrawlPages(store: DedupStore, pl: Pipeline, categoryUrl: string, cfg: Config,
                    fetch: nat -> Option<seq<RawItem>>, token: nat -> string)
    returns (matches: nat, requests: seq<string>)
    requires store.Valid()
    modifies store
    ensures store.Valid()
    ensures requests == Requests(categoryUrl, Flatten(Plan(fetch, cfg, 0)), token)
    ensures store.allResults ==
              old(store.allResults) + Accept(old(store.seenIds), RunCandidates(pl, fetch, Plan(fetch, cfg, 0)))
    ensures matches == |Accept(old(store.seenIds), RunCandidates(pl, fetch, Plan(fetch, cfg, 0)))|
  {
    var page := 0;
    var keepGoing := true;
    matches := 0;
    requests := [];
    ghost var batches: seq<Batch> := [];
    ghost var st0 := store.State();
    ghost var plan := PlanFrom(fetch, cfg, [], 0);
    while keepGoing
      invariant page <= cfg.maxPage + 1
      invariant keepGoing ==> plan == PlanFrom(fetch, cfg, batches, page)
      invariant !keepGoing ==> plan == batches
      invariant store.Valid()
      invariant requests == Requests(categoryUrl, Flatten(batches), token)
      invariant Tracks(store, st0, RunCandidates(pl, fetch, batches))
      invariant matches == |store.allResults| - |old(store.allResults)|
      decreases cfg.maxPage + 1 - page + (if keepGoing then 1 else 0)
    {
      matches, requests, page, keepGoing, batches :=
        CategoryRound(store, pl, categoryUrl, cfg, fetch, token, page, st0, plan, batches, matches, requests);
    }
    CategoryOutcome(pl, fetch, cfg, st0, store.State(), batches);
  }

  /** When the loop of `processCategory` stops, the batches requested are
      the plan, and the store holds what `addProduct` accepted of the plan's
      candidates. */
  lemma CategoryOutcome(pl: Pipeline, fetch: nat -> Option<seq<RawItem>>, cfg: Config,
                        st0: Seen, st: Seen, batches: seq<Batch>)
    requires batches == PlanFrom(fetch, cfg, [], 0)
    requires st == Feed(st0, RunCandidates(pl, fetch, batches))
    ensures batches == Plan(fetch, cfg, 0)
    ensures st.results == st0.results + Accept(st0.ids, RunCandidates(pl, fetch, batches))
  {
    PlanFromIsPlan(fetch, cfg, [], 0);
    assert [] + Plan(fetch, cfg, 0) == Plan(fetch, cfg, 0);
    FeedIsAccept(st0.results, st0.ids, RunCandidates(pl, fetch, batches));
  }
}
