/**
 * The search-link generator (kaspi_generator.js): for each category URL it
 * asks a language model for a few search phrases and emits one copy of the
 * URL per phrase, with the phrase as `text` and a fresh `requestId`.
 *
 * The language-model call, the JSON parser, `decodeURIComponent`,
 * `encodeURIComponent`, the random request ids and sleeping are outside
 * the model: their results are inputs, and pauses are recorded instead of
 * taken.
 */
module Generator {
  import opened Wrappers
  import opened Text

  const PHRASES_PER_CATEGORY := 5

  // ---------------------------------------------------------------------
  // extractCategoryFromQ: /:category:([^:]+)/i
  // ---------------------------------------------------------------------

  const CATEGORY_TAG := ":category:"

  /** The pattern matches at `p`: the tag in any case, then at least one
      character other than ':'. */
  predicate CategoryAt(q: string, p: nat) {
    StartsAtIgnoringCase(q, p, CATEGORY_TAG) && p + 10 < |q| && q[p + 10] != ':'
  }

  /** The leftmost match. */
  function CategoryMatch(q: string): (r: Option<nat>)
    ensures r.Some? ==> CategoryAt(q, r.value)
    ensures r.Some? ==> forall p :: 0 <= p < r.value ==> !CategoryAt(q, p)
    ensures r.None? ==> forall p :: 0 <= p ==> !CategoryAt(q, p)
  {
    var m := (p: nat) => CategoryAt(q, p);
    assert forall p: nat :: m(p) == CategoryAt(q, p);
    Find(0, |q|, m)
  }

  predicate NotColon(c: char) { c != ':' }

  /** `extractCategoryFromQ`: the text after the first tag up to the next
      ':' or the end, trimmed; null without a match. */
  function ExtractCategoryFromQ(q: string): (r: Option<string>)
    ensures r.None? <==> forall p :: 0 <= p ==> !CategoryAt(q, p)
    ensures r.Some? ==> forall k :: 0 <= k < |r.value| ==> r.value[k] != ':'
  {
    match CategoryMatch(q)
    case None => None
    case Some(p) =>
      var captured := q[p + 10..SpanEnd(q, p + 10, NotColon)];
      TrimKeepsNoColon(captured);
      Some(TrimJs(captured))
  }

  lemma TrimKeepsNoColon(s: string)
    requires forall k :: 0 <= k < |s| ==> s[k] != ':'
    ensures forall k :: 0 <= k < |TrimJs(s)| ==> TrimJs(s)[k] != ':'
  {
    var c := TrimJs(s);
    var a, b :| 0 <= a <= b <= |s| && c == s[a..b];
  }

  /** The category a URL is expanded for: the extracted one when it is
      not empty, else the whole decoded `q`, else `товары`. */
  function CategoryFor(qDecoded: string): (c: string)
    ensures c != ""
    ensures c == qDecoded || c == "товары" || ExtractCategoryFromQ(qDecoded) == Some(c)
  {
    var extracted := ExtractCategoryFromQ(qDecoded);
    if extracted.Some? && extracted.value != "" then extracted.value
    else if qDecoded != "" then qDecoded
    else "товары"
  }

  /** A name already free of surrounding blanks is its own trim. */
  lemma TrimOfTrimmed(name: string)
    requires name != [] && !JsSpace(name[0]) && !JsSpace(name[|name| - 1])
    ensures TrimJs(name) == name
  {
    SpanEndAt(name, 0, 0, JsSpace);
    assert SpanStartBack(name, |name|, JsSpace) == |name|;
  }

  /** Round trip: the category tag followed by a trimmed name without ':'
      and then by the end of `q` or a ':' yields that name. */
  lemma CategoryOfTaggedQ(name: string, tail: string)
    requires name != [] && !JsSpace(name[0]) && !JsSpace(name[|name| - 1])
    requires forall k :: 0 <= k < |name| ==> name[k] != ':'
    requires tail == [] || tail[0] == ':'
    ensures ExtractCategoryFromQ(CATEGORY_TAG + name + tail) == Some(name)
    ensures CategoryFor(CATEGORY_TAG + name + tail) == name
  {
    var q := CATEGORY_TAG + name + tail;
    assert q[..10] == CATEGORY_TAG;
    assert StartsAtIgnoringCase(q, 0, CATEGORY_TAG) by {
      forall k | 0 <= k < 10 ensures SameLetter(q[k], CATEGORY_TAG[k]) {
        assert q[k] == CATEGORY_TAG[k];
      }
    }
    assert q[10] == name[0];
    assert CategoryMatch(q) == Some(0);
    var e := 10 + |name|;
    assert forall k :: 10 <= k < e ==> q[k] == name[k - 10];
    SpanEndAt(q, 10, e, NotColon);
    assert q[10..e] == name;
    TrimOfTrimmed(name);
  }

  // ---------------------------------------------------------------------
  // Query parameters rewritten with /([?&])key[^&]*/
  // ---------------------------------------------------------------------

  const TEXT_KEY := "text="
  const REQUEST_KEY := "requestId="

  predicate IsSeparator(c: char) { c == '?' || c == '&' }

  /** A key is not empty and holds no separator. */
  predicate ValidKey(key: string) {
    |key| > 0 && forall k :: 0 <= k < |key| ==> !IsSeparator(key[k])
  }

  /** `[?&]key` matches at `i`; the value, `[^&]*`, may be empty. */
  predicate ParamAt(s: string, i: nat, key: string) {
    i < |s| && IsSeparator(s[i]) && StartsAt(s, i + 1, key)
  }

  /** Where the first match starts. */
  function ParamPos(s: string, key: string): (r: Option<nat>)
    ensures r.Some? ==> ParamAt(s, r.value, key)
    ensures r.Some? ==> forall j :: 0 <= j < r.value ==> !ParamAt(s, j, key)
    ensures r.None? ==> forall j :: 0 <= j ==> !ParamAt(s, j, key)
  {
    ParamPosFrom(s, key, 0)
  }

  function ParamPosFrom(s: string, key: string, j: nat): (r: Option<nat>)
    decreases |s| - j
    ensures r.Some? ==> j <= r.value && ParamAt(s, r.value, key)
    ensures r.Some? ==> forall k :: j <= k < r.value ==> !ParamAt(s, k, key)
    ensures r.None? ==> forall k :: j <= k ==> !ParamAt(s, k, key)
  {
    if j >= |s| then None
    else if ParamAt(s, j, key) then Some(j)
    else ParamPosFrom(s, key, j + 1)
  }

  /** The value of the first `key` parameter: up to the next '&' or the
      end. */
  function ParamValue(s: string, key: string): Option<string> {
    match ParamPos(s, key)
    case None => None
    case Some(i) =>
      var b := i + 1 + |key|;
      Some(s[b..NextOrEnd(s, b, '&')])
  }

  /** Replaces the first `([?&])key[^&]*` by the same separator, `key`
      and `v` when there is one, else appends `sep + key + v`. The replacement keeps the separator and
      everything before it, and everything from the '&' that ended the
      old value. */
  function SetParam(s: string, key: string, v: string, sep: char): (r: string) {
    match ParamPos(s, key)
    case Some(i) => s[..i + 1] + key + v + s[NextOrEnd(s, i + 1 + |key|, '&')..]
    case None => s + [sep] + key + v
  }

  /** What `SetParam` leaves alone: the separator and everything before
      it and everything from the '&' that ended the old value, or the
      whole string when the parameter is appended. */
  lemma SetParamKeeps(s: string, key: string, v: string, sep: char)
    ensures var r := SetParam(s, key, v, sep);
            ParamPos(s, key).Some? ==> var i := ParamPos(s, key).value;
              var j := NextOrEnd(s, i + 1 + |key|, '&');
              && |r| == i + 1 + |key| + |v| + |s| - j
              && r[..i + 1] == s[..i + 1] && r[|r| - (|s| - j)..] == s[j..]
    ensures var r := SetParam(s, key, v, sep);
            ParamPos(s, key).None? ==> |r| == |s| + 1 + |key| + |v| && r[..|s|] == s && r[|s|] == sep
  {
    var r := SetParam(s, key, v, sep);
    if ParamPos(s, key).Some? {
      var i := ParamPos(s, key).value;
      var j := NextOrEnd(s, i + 1 + |key|, '&');
      assert r[..i + 1] == s[..i + 1];
      assert r[|r| - (|s| - j)..] == s[j..];
    } else {
      assert r[..|s|] == s;
    }
  }

  /** The pieces of `pre + key + v + post`, read back by index. */
  lemma Pieces(pre: string, key: string, v: string, post: string)
    ensures var r := pre + key + v + post;
            var n := |pre|;
            && |r| == n + |key| + |v| + |post|
            && r[..n] == pre
            && StartsAt(r, n, key)
            && (forall k :: n + |key| <= k < n + |key| + |v| ==> r[k] == v[k - n - |key|])
            && r[n + |key|..n + |key| + |v|] == v
            && (post != [] ==> r[n + |key| + |v|] == post[0])
  {
    var r := pre + key + v + post;
    var n := |pre|;
    assert r == (pre + key) + v + post;
    assert r[n..n + |key|] == (pre + key)[n..];
  }

  /** A match with none before it is the first match. */
  lemma FirstParam(s: string, key: string, i: nat)
    requires ParamAt(s, i, key)
    requires forall j :: 0 <= j < i ==> !ParamAt(s, j, key)
    ensures ParamPos(s, key) == Some(i)
  {
    assert ParamPos(s, key).Some?;
  }

  /** Two strings that agree below `n + 1 + |key|` have the same matches
      before `n`. */
  lemma SameParamsBefore(a: string, b: string, key: string, n: nat)
    requires n + 1 + |key| <= |a| && n + 1 + |key| <= |b|
    requires a[..n + 1 + |key|] == b[..n + 1 + |key|]
    ensures forall j :: 0 <= j < n ==> (ParamAt(a, j, key) <==> ParamAt(b, j, key))
  {
    forall j | 0 <= j < n ensures ParamAt(a, j, key) <==> ParamAt(b, j, key) {
      AgreeBelow(b, a, key, j, n + 1 + |key|);
    }
  }

  /** Strings that agree below `n` agree on every slice below `n`. */
  lemma SliceAgree(s: string, r: string, n: nat, lo: nat, hi: nat)
    requires n <= |s| && n <= |r| && r[..n] == s[..n] && lo <= hi <= n
    ensures r[lo..hi] == s[lo..hi]
  {
    forall m | lo <= m < hi ensures r[m] == s[m] {
      assert r[m] == r[..n][m];
      assert s[m] == s[..n][m];
    }
  }

  /** Round trip: after `SetParam`, the first `key` parameter holds `v`,
      whether it replaced a value or appended the parameter. */
  lemma SetParamRoundTrip(s: string, key: string, v: string, sep: char)
    requires ValidKey(key) && IsSeparator(sep)
    requires forall k :: 0 <= k < |v| ==> v[k] != '&'
    ensures ParamValue(SetParam(s, key, v, sep), key) == Some(v)
  {
    if ParamPos(s, key).Some? {
      SetParamReplaced(s, key, v, sep, ParamPos(s, key).value);
    } else {
      SetParamAppended(s, key, v, sep);
    }
  }

  lemma SetParamReplaced(s: string, key: string, v: string, sep: char, i: nat)
    requires ValidKey(key)
    requires forall k :: 0 <= k < |v| ==> v[k] != '&'
    requires ParamPos(s, key) == Some(i)
    ensures ParamValue(SetParam(s, key, v, sep), key) == Some(v)
  {
    var j := NextOrEnd(s, i + 1 + |key|, '&');
    assert SetParam(s, key, v, sep) == s[..i + 1] + key + v + s[j..];
    ReplacedParamValue(s, key, v, i, j);
  }

  lemma ReplacedParamValue(s: string, key: string, v: string, i: nat, j: nat)
    requires ParamPos(s, key) == Some(i) && i + 1 + |key| <= j <= |s| && (j == |s| || s[j] == '&')
    requires forall k :: 0 <= k < |v| ==> v[k] != '&'
    ensures ParamValue(s[..i + 1] + key + v + s[j..], key) == Some(v)
  {
    ReplacedPos(s, key, v, i, j);
    ReplacedValue(s, key, v, i, j);
  }

  lemma ReplacedPos(s: string, key: string, v: string, i: nat, j: nat)
    requires ParamPos(s, key) == Some(i) && i + 1 + |key| <= j <= |s|
    ensures ParamPos(s[..i + 1] + key + v + s[j..], key) == Some(i)
  {
    var pre := s[..i + 1];
    var r := pre + key + v + s[j..];
    var m := i + 1 + |key|;
    Pieces(pre, key, v, s[j..]);
    assert s[..m] == pre + key by {
      assert s[i + 1..m] == key;
    }
    assert r[..m] == s[..m];
    SameParamsBefore(s, r, key, i);
    assert r[i] == s[i];
    FirstParam(r, key, i);
  }

  lemma ReplacedValue(s: string, key: string, v: string, i: nat, j: nat)
    requires i + 1 + |key| <= j <= |s| && (j == |s| || s[j] == '&')
    requires forall k :: 0 <= k < |v| ==> v[k] != '&'
    ensures var r := s[..i + 1] + key + v + s[j..];
            var m := i + 1 + |key|;
            m + |v| <= |r| && NextOrEnd(r, m, '&') == m + |v| && r[m..m + |v|] == v
  {
    var pre := s[..i + 1];
    var r := pre + key + v + s[j..];
    var m := i + 1 + |key|;
    Pieces(pre, key, v, s[j..]);
    assert s[j..] == [] || s[j..][0] == '&';
    NextOrEndAt(r, m, m + |v|, '&');
  }

  lemma SetParamAppended(s: string, key: string, v: string, sep: char)
    requires ValidKey(key) && IsSeparator(sep)
    requires forall k :: 0 <= k < |v| ==> v[k] != '&'
    requires ParamPos(s, key).None?
    ensures ParamValue(SetParam(s, key, v, sep), key) == Some(v)
  {
    var n := |s|;
    var pre := s + [sep];
    var r := pre + key + v + [];
    assert r == SetParam(s, key, v, sep);
    Pieces(pre, key, v, []);
    assert r[n] == sep;
    forall p | 0 <= p < n ensures !ParamAt(r, p, key) {
      NoParamBeforeAppended(s, key, r, p);
    }
    FirstParam(r, key, n);
    NextOrEndAt(r, n + 1 + |key|, |r|, '&');
  }

  /** No match starts inside the original string: one that fits in it
      would be a match of it, and one that does not would cover the
      separator placed at its end. */
  lemma NoParamBeforeAppended(s: string, key: string, r: string, p: nat)
    requires ValidKey(key) && ParamPos(s, key).None?
    requires |s| < |r| && r[..|s|] == s && IsSeparator(r[|s|])
    requires p < |s|
    ensures !ParamAt(r, p, key)
  {
    if p + 1 + |key| <= |s| {
      AgreeWithin(s, r, key, p);
    } else {
      CoversSeparator(r, key, p, |s|);
    }
  }

  lemma AgreeWithin(s: string, r: string, key: string, p: nat)
    requires |s| <= |r| && r[..|s|] == s && p + 1 + |key| <= |s|
    ensures ParamAt(r, p, key) == ParamAt(s, p, key)
  {
    AgreeBelow(s, r, key, p, |s|);
  }

  /** Strings that agree below `n` agree on the matches that fit below
      `n`. */
  lemma AgreeBelow(s: string, r: string, key: string, p: nat, n: nat)
    requires n <= |s| && n <= |r| && r[..n] == s[..n] && p + 1 + |key| <= n
    ensures ParamAt(r, p, key) == ParamAt(s, p, key)
  {
    SliceAgree(s, r, n, p + 1, p + 1 + |key|);
    assert r[p] == r[..n][p];
    assert s[p] == s[..n][p];
  }

  lemma CoversSeparator(r: string, key: string, p: nat, n: nat)
    requires ValidKey(key) && p < n < p + 1 + |key| && n < |r| && IsSeparator(r[n])
    ensures !StartsAt(r, p + 1, key)
  {
    if p + 1 + |key| <= |r| {
      assert r[n] == r[p + 1..p + 1 + |key|][n - p - 1];
    }
  }

  // ---------------------------------------------------------------------
  // The links generated for one URL
  // ---------------------------------------------------------------------

  /** The phrase as `text`: replaced in place, or appended with '&' when
      the URL already has a '?', with '?' otherwise. */
  function WithText(u: string, encodedPhrase: string): (r: string) {
    SetParam(u, TEXT_KEY, encodedPhrase, if '?' in u then '&' else '?')
  }

  /** A fresh `requestId`: replaced in place, or appended with '&'. */
  function WithRequestId(u: string, rid: string): (r: string) {
    SetParam(u, REQUEST_KEY, rid, '&')
  }

  /** `randomRequestId()`: 16 random bytes in lower-case hex. */
  predicate IsRequestId(rid: string) {
    |rid| == 32 && forall k :: 0 <= k < |rid| ==> ('0' <= rid[k] <= '9' || 'a' <= rid[k] <= 'f')
  }

  /** The link for one phrase. */
  function Link(originalUrl: string, encodedPhrase: string, rid: string): (r: string) {
    WithRequestId(WithText(originalUrl, encodedPhrase), rid)
  }

  /** `phrases.map(...)`: `encode` is `encodeURIComponent` and `rid(k)` the
      request id drawn for phrase `k`. */
  function Links(originalUrl: string, phrases: seq<string>, encode: string -> string, rid: nat -> string): (r: seq<string>)
    ensures |r| == |phrases|
  {
    seq(|phrases|, k requires 0 <= k < |phrases| => Link(originalUrl, encode(phrases[k]), rid(k)))
  }

  predicate NoAmpersand(v: string) {
    forall k :: 0 <= k < |v| ==> v[k] != '&'
  }

  lemma TextKeyIsValid()
    ensures ValidKey(TEXT_KEY)
  {
  }

  lemma RequestKeyIsValid()
    ensures ValidKey(REQUEST_KEY)
  {
  }

  /** The text set on a URL reads back as the encoded phrase. */
  lemma TextRoundTrip(u: string, encodedPhrase: string)
    requires NoAmpersand(encodedPhrase)
    ensures ParamValue(WithText(u, encodedPhrase), TEXT_KEY) == Some(encodedPhrase)
  {
    TextKeyIsValid();
    SetParamRoundTrip(u, TEXT_KEY, encodedPhrase, if '?' in u then '&' else '?');
  }

  /** Every generated link carries the request id drawn for its phrase. */
  lemma LinksCarryFreshIds(originalUrl: string, phrases: seq<string>, encode: string -> string, rid: nat -> string, k: nat)
    requires k < |phrases| && IsRequestId(rid(k))
    ensures ParamValue(Links(originalUrl, phrases, encode, rid)[k], REQUEST_KEY) == Some(rid(k))
  {
    RequestKeyIsValid();
    SetParamRoundTrip(WithText(originalUrl, encode(phrases[k])), REQUEST_KEY, rid(k), '&');
  }

  // ---------------------------------------------------------------------
  // Setting the request id keeps the phrase
  // ---------------------------------------------------------------------

  /** Every '?' comes before any separator: the URL has at most one query
      string, and no parameter value holds a '?'. */
  predicate OneQuery(u: string) {
    forall k :: 0 <= k < |u| && u[k] == '?' ==> forall m :: 0 <= m < k ==> !IsSeparator(u[m])
  }

  predicate NoSeparator(v: string) {
    forall k :: 0 <= k < |v| ==> !IsSeparator(v[k])
  }

  /** Shifted copies have shifted matches. */
  lemma ParamAtShift(r: string, c: nat, s: string, j: nat, key: string, t: nat)
    requires c <= |r| && j <= |s| && r[c..] == s[j..]
    ensures ParamAt(r, c + t, key) == ParamAt(s, j + t, key)
  {
    assert |r| - c == |s[j..]| == |s| - j;
    if j + t < |s| {
      assert r[c + t] == r[c..][t] == s[j..][t] == s[j + t];
      if j + t + 1 + |key| <= |s| {
        forall m | c + t + 1 <= m < c + t + 1 + |key| ensures r[m] == s[m - c + j] {
          assert r[m] == r[c..][m - c];
          assert s[m - c + j] == s[j..][m - c];
        }
        assert r[c + t + 1..c + t + 1 + |key|] == s[j + t + 1..j + t + 1 + |key|];
      }
    }
  }

  lemma NextOrEndShift(r: string, c: nat, s: string, j: nat, t: nat, ch: char)
    requires c <= |r| && j + t <= |s| && r[c..] == s[j..]
    ensures NextOrEnd(r, c + t, ch) == NextOrEnd(s, j + t, ch) + c - j
  {
    var e := NextOrEnd(s, j + t, ch);
    forall k | c + t <= k < e + c - j ensures r[k] != ch {
      assert r[k] == r[c..][k - c] == s[j..][k - c] == s[k - c + j];
    }
    if e + c - j < |r| {
      assert r[e + c - j] == r[c..][e - j] == s[j..][e - j] == s[e];
    }
    NextOrEndAt(r, c + t, e + c - j, ch);
  }

  /** No separator lies inside a key that matched at `i`. */
  lemma OutsideKey(s: string, i: nat, key: string, m: nat)
    requires ValidKey(key) && StartsAt(s, i + 1, key) && m < |s| && IsSeparator(s[m])
    ensures m <= i || i + 1 + |key| <= m
  {
    forall k | i < k < i + 1 + |key| ensures !IsSeparator(s[k]) {
      assert s[k] == s[i + 1..i + 1 + |key|][k - i - 1];
    }
  }

  /** Nor inside the value that follows it, in a URL with one query
      string. */
  lemma OutsideValue(s: string, i: nat, key: string, m: nat)
    requires OneQuery(s) && ParamAt(s, i, key) && i < m < |s| && IsSeparator(s[m])
    ensures m < i + 1 + |key| || NextOrEnd(s, i + 1 + |key|, '&') <= m
  {
    assert s[m] != '?';
  }

  /** Setting `k2` keeps the value of another key `k1`, when `k2`'s new
      value holds no separator and the URL has one query string. */
  lemma SetParamKeepsOther(s: string, k1: string, k2: string, v2: string, i1: nat)
    requires ValidKey(k1) && ValidKey(k2) && k1[0] != k2[0]
    requires OneQuery(s) && NoSeparator(v2)
    requires ParamPos(s, k1) == Some(i1)
    ensures ParamValue(SetParam(s, k2, v2, '&'), k1) == ParamValue(s, k1)
  {
    match ParamPos(s, k2)
    case None =>
      KeepsOtherAppended(s, k1, k2, v2, i1);
    case Some(i2) =>
      var j2 := NextOrEnd(s, i2 + 1 + |k2|, '&');
      assert SetParam(s, k2, v2, '&') == s[..i2 + 1] + k2 + v2 + s[j2..];
      KeepsOtherReplaced(s, k1, k2, v2, i1, i2);
  }

  lemma KeepsOtherReplaced(s: string, k1: string, k2: string, v2: string, i1: nat, i2: nat)
    requires ValidKey(k1) && ValidKey(k2) && k1[0] != k2[0]
    requires OneQuery(s) && NoSeparator(v2)
    requires ParamPos(s, k1) == Some(i1) && ParamAt(s, i2, k2)
    ensures var j2 := NextOrEnd(s, i2 + 1 + |k2|, '&');
            ParamValue(s[..i2 + 1] + k2 + v2 + s[j2..], k1) == ParamValue(s, k1)
  {
    var j2 := NextOrEnd(s, i2 + 1 + |k2|, '&');
    var r := s[..i2 + 1] + k2 + v2 + s[j2..];
    NoMatchAtOtherKey(s, k1, k2, i2);
    OutsideKey(s, i2, k2, i1);
    OutsideKey(s, i1, k1, i2);
    if i2 > i1 {
      OutsideValue(s, i1, k1, i2);
      assert r[..i2 + 1] == s[..i2 + 1];
      PrefixValue(s, r, k1, i1, i2 + 1);
    } else {
      OutsideValue(s, i2, k2, i1);
      KeepsOtherBefore(s, r, k1, k2, v2, i1, i2, j2);
    }
  }

  lemma KeepsOtherAppended(s: string, k1: string, k2: string, v2: string, i1: nat)
    requires ParamPos(s, k1) == Some(i1) && ParamPos(s, k2).None?
    ensures ParamValue(s + ['&'] + k2 + v2, k1) == ParamValue(s, k1)
  {
    var r := s + ['&'] + k2 + v2;
    var b1 := i1 + 1 + |k1|;
    var e1 := NextOrEnd(s, b1, '&');
    assert r[..|s|] == s;
    forall p | 0 <= p <= i1 ensures ParamAt(r, p, k1) == ParamAt(s, p, k1) {
      AgreeWithin(s, r, k1, p);
    }
    FirstParam(r, k1, i1);
    forall k | b1 <= k < e1 ensures r[k] != '&' {
      assert r[k] == s[k];
    }
    assert e1 < |r| && r[e1] == '&' by {
      if e1 < |s| {
        assert r[e1] == s[e1];
      } else {
        assert r[|s|] == '&';
      }
    }
    NextOrEndAt(r, b1, e1, '&');
    assert r[b1..e1] == s[b1..e1];
  }

  /** A value that ends below `n` survives any change from `n` on. */
  lemma PrefixValue(s: string, r: string, key: string, i1: nat, n: nat)
    requires ParamPos(s, key) == Some(i1)
    requires i1 + 1 + |key| <= |s| && NextOrEnd(s, i1 + 1 + |key|, '&') < n <= |s|
    requires n <= |r| && r[..n] == s[..n]
    ensures ParamValue(r, key) == ParamValue(s, key)
  {
    var b1 := i1 + 1 + |key|;
    var e1 := NextOrEnd(s, b1, '&');
    forall p | 0 <= p <= i1 ensures ParamAt(r, p, key) == ParamAt(s, p, key) {
      AgreeBelow(s, r, key, p, n);
    }
    FirstParam(r, key, i1);
    forall k | b1 <= k <= e1 ensures r[k] == s[k] {
      assert r[k] == r[..n][k];
    }
    NextOrEndAt(r, b1, e1, '&');
    assert r[b1..e1] == s[b1..e1];
    SameValue(r, s, key, i1, i1);
  }

  /** Replacing `k2`'s value before the first `k1` match moves that match
      but keeps its value. */
  lemma KeepsOtherBefore(s: string, r: string, k1: string, k2: string, v2: string, i1: nat, i2: nat, j2: nat)
    requires ValidKey(k1) && ValidKey(k2) && k1[0] != k2[0] && NoSeparator(v2)
    requires ParamPos(s, k1) == Some(i1) && i2 < |s| && IsSeparator(s[i2])
    requires i2 + 1 + |k2| <= j2 <= i1
    requires r == s[..i2 + 1] + k2 + v2 + s[j2..]
    ensures ParamValue(r, k1) == ParamValue(s, k1)
  {
    ReplacedShape(s[..i2 + 1], k2, v2, s[j2..], r);
    NoMatchBeforeShifted(s, r, k1, k2, v2, i1, i2, j2);
    ShiftedValue(s, r, k1, i1, j2, i2 + 1 + |k2| + |v2|);
  }

  lemma ReplacedShape(pre: string, key: string, v: string, post: string, r: string)
    requires r == pre + key + v + post
    ensures |r| == |pre| + |key| + |v| + |post|
    ensures r[..|pre|] == pre && StartsAt(r, |pre|, key)
    ensures forall k :: |pre| + |key| <= k < |pre| + |key| + |v| ==> r[k] == v[k - |pre| - |key|]
    ensures r[|pre| + |key| + |v|..] == post
  {
    Pieces(pre, key, v, post);
    assert r[|pre| + |key| + |v|..] == post;
  }

  /** The value of a first match moved from `i1` in `s` to the same place
      in a copy of `s[j2..]` starting at `c`. */
  lemma ShiftedValue(s: string, r: string, key: string, i1: nat, j2: nat, c: nat)
    requires j2 <= i1 && ParamPos(s, key) == Some(i1) && c <= |r| && r[c..] == s[j2..]
    requires forall p :: 0 <= p < c + (i1 - j2) ==> !ParamAt(r, p, key)
    ensures ParamValue(r, key) == ParamValue(s, key)
  {
    var i1' := c + (i1 - j2);
    ShiftedPos(s, r, key, i1, j2, c);
    ShiftedSlice(s, r, i1 + 1 + |key|, j2, c, i1' + 1 + |key|);
    SameValue(r, s, key, i1', i1);
  }

  lemma ShiftedPos(s: string, r: string, key: string, i1: nat, j2: nat, c: nat)
    requires j2 <= i1 && ParamAt(s, i1, key) && c <= |r| && r[c..] == s[j2..]
    requires forall p :: 0 <= p < c + (i1 - j2) ==> !ParamAt(r, p, key)
    ensures ParamPos(r, key) == Some(c + (i1 - j2))
  {
    ParamAtShift(r, c, s, j2, key, i1 - j2);
    FirstParam(r, key, c + (i1 - j2));
  }

  /** A value read from `b` in `s` is read from the same place in a copy
      of `s[j..]` starting at `c`. */
  lemma ShiftedSlice(s: string, r: string, b: nat, j: nat, c: nat, rb: nat)
    requires j <= b <= |s| && c <= |r| && r[c..] == s[j..] && rb == c + (b - j)
    ensures rb <= |r| && r[rb..NextOrEnd(r, rb, '&')] == s[b..NextOrEnd(s, b, '&')]
  {
    var e := NextOrEnd(s, b, '&');
    NextOrEndShift(r, c, s, j, b - j, '&');
    assert r[c..][b - j..e - j] == s[j..][b - j..e - j];
  }

  /** Two first matches with equal values. */
  lemma SameValue(r: string, s: string, key: string, i: nat, j: nat)
    requires ParamPos(r, key) == Some(i) && ParamPos(s, key) == Some(j)
    requires r[i + 1 + |key|..NextOrEnd(r, i + 1 + |key|, '&')] == s[j + 1 + |key|..NextOrEnd(s, j + 1 + |key|, '&')]
    ensures ParamValue(r, key) == ParamValue(s, key)
  {
  }

  /** After `k2`'s value is replaced, nothing before the moved `k1` match
      is a `k1` match. */
  lemma NoMatchBeforeShifted(s: string, r: string, k1: string, k2: string, v2: string, i1: nat, i2: nat, j2: nat)
    requires ValidKey(k1) && ValidKey(k2) && k1[0] != k2[0] && NoSeparator(v2)
    requires ParamPos(s, k1) == Some(i1) && i2 < |s| && IsSeparator(s[i2])
    requires i2 + 1 + |k2| <= j2 <= i1
    requires |r| == i2 + 1 + |k2| + |v2| + (|s| - j2)
    requires r[..i2 + 1] == s[..i2 + 1] && StartsAt(r, i2 + 1, k2)
    requires forall k :: i2 + 1 + |k2| <= k < i2 + 1 + |k2| + |v2| ==> r[k] == v2[k - i2 - 1 - |k2|]
    requires r[i2 + 1 + |k2| + |v2|..] == s[j2..]
    ensures forall p :: 0 <= p < i2 + 1 + |k2| + |v2| + (i1 - j2) ==> !ParamAt(r, p, k1)
  {
    var b2 := i2 + 1 + |k2|;
    var c := b2 + |v2|;
    forall p | 0 <= p < i2 ensures !ParamAt(r, p, k1) {
      NoMatchInPrefix(s, r, k1, p, i2);
    }
    NoMatchAtOtherKey(r, k1, k2, i2);
    forall p | i2 < p < c ensures !ParamAt(r, p, k1) {
      if p < b2 {
        assert r[p] == r[i2 + 1..b2][p - i2 - 1];
      }
    }
    forall p | c <= p < c + (i1 - j2) ensures !ParamAt(r, p, k1) {
      ParamAtShift(r, c, s, j2, k1, p - c);
    }
  }

  lemma NoMatchInPrefix(s: string, r: string, key: string, p: nat, n: nat)
    requires ValidKey(key) && n < |s| && n < |r| && r[..n + 1] == s[..n + 1] && IsSeparator(s[n])
    requires p < n && !ParamAt(s, p, key)
    ensures !ParamAt(r, p, key)
  {
    if p + 1 + |key| <= n + 1 {
      AgreeBelow(s, r, key, p, n + 1);
    } else {
      assert r[n] == r[..n + 1][n];
      CoversSeparator(r, key, p, n);
    }
  }

  lemma NoMatchAtOtherKey(r: string, k1: string, k2: string, i: nat)
    requires ValidKey(k1) && ValidKey(k2) && k1[0] != k2[0] && StartsAt(r, i + 1, k2)
    ensures !ParamAt(r, i, k1)
  {
    assert r[i + 1] == r[i + 1..i + 1 + |k2|][0];
    if i + 1 + |k1| <= |r| {
      assert r[i + 1..i + 1 + |k1|][0] == r[i + 1];
    }
  }

  // ---------------------------------------------------------------------
  // A link carries its phrase and its request id
  // ---------------------------------------------------------------------

  /** Setting a parameter keeps the URL to one query string, unless a '?'
      is appended to a URL that already has separators. */
  lemma SetParamKeepsOneQuery(u: string, key: string, v: string, sep: char)
    requires OneQuery(u) && ValidKey(key) && NoSeparator(v) && IsSeparator(sep)
    requires sep == '&' || NoSeparator(u)
    ensures OneQuery(SetParam(u, key, v, sep))
  {
    match ParamPos(u, key)
    case None =>
      AppendKeepsOneQuery(u, key, v, sep);
    case Some(i) =>
      var j := NextOrEnd(u, i + 1 + |key|, '&');
      ReplaceKeepsOneQuery(u, u[..i + 1] + key + v + u[j..], key, v, i, j);
  }

  lemma AppendKeepsOneQuery(u: string, key: string, v: string, sep: char)
    requires OneQuery(u) && ValidKey(key) && NoSeparator(v) && IsSeparator(sep)
    requires sep == '&' || NoSeparator(u)
    ensures OneQuery(u + [sep] + key + v)
  {
    var r := u + [sep] + key + v;
    forall k | |u| < k < |r| ensures r[k] != '?' {
      if k <= |u| + |key| {
        assert r[k] == key[k - |u| - 1];
      } else {
        assert r[k] == v[k - |u| - 1 - |key|];
      }
    }
    forall k | 0 <= k <= |u| && r[k] == '?' ensures forall m :: 0 <= m < k ==> !IsSeparator(r[m]) {
      forall m | 0 <= m < k ensures r[m] == u[m] {
      }
      if k < |u| {
        assert r[k] == u[k];
      }
    }
  }

  lemma ReplaceKeepsOneQuery(u: string, r: string, key: string, v: string, i: nat, j: nat)
    requires OneQuery(u) && ValidKey(key) && NoSeparator(v)
    requires i < |u| && IsSeparator(u[i]) && i + 1 + |key| <= j <= |u|
    requires r == u[..i + 1] + key + v + u[j..]
    ensures OneQuery(r)
  {
    ReplacedShape(u[..i + 1], key, v, u[j..], r);
    var c := i + 1 + |key| + |v|;
    forall k | c <= k < |r| ensures r[k] != '?' {
      assert r[k] == r[c..][k - c] == u[j..][k - c] == u[k - c + j];
    }
    forall k | i < k < c ensures r[k] != '?' {
      if k < i + 1 + |key| {
        assert r[k] == r[i + 1..i + 1 + |key|][k - i - 1];
      }
    }
    forall k | 0 <= k <= i && r[k] == '?' ensures forall m :: 0 <= m < k ==> !IsSeparator(r[m]) {
      forall m | 0 <= m <= k ensures r[m] == u[m] {
        assert r[m] == r[..i + 1][m];
      }
    }
  }

  lemma RequestIdHasNoSeparator(rid: string)
    requires IsRequestId(rid)
    ensures NoSeparator(rid)
  {
  }

  /** A link reads back the encoded phrase as `text` and the fresh id as
      `requestId`, when the phrase and the URL's query are well formed. */
  lemma LinkCarriesPhrase(originalUrl: string, encodedPhrase: string, rid: string)
    requires OneQuery(originalUrl) && ('?' in originalUrl || NoSeparator(originalUrl))
    requires NoSeparator(encodedPhrase) && IsRequestId(rid)
    ensures ParamValue(Link(originalUrl, encodedPhrase, rid), TEXT_KEY) == Some(encodedPhrase)
    ensures ParamValue(Link(originalUrl, encodedPhrase, rid), REQUEST_KEY) == Some(rid)
  {
    var t := WithText(originalUrl, encodedPhrase);
    TextKeyIsValid();
    RequestKeyIsValid();
    TextRoundTrip(originalUrl, encodedPhrase);
    SetParamKeepsOneQuery(originalUrl, TEXT_KEY, encodedPhrase, if '?' in originalUrl then '&' else '?');
    RequestIdHasNoSeparator(rid);
    SetParamKeepsOther(t, TEXT_KEY, REQUEST_KEY, rid, ParamPos(t, TEXT_KEY).value);
    SetParamRoundTrip(t, REQUEST_KEY, rid, '&');
  }

  /** Every generated link carries its own phrase and its own request id. */
  lemma LinksCarryPhrases(originalUrl: string, phrases: seq<string>, encode: string -> string, rid: nat -> string, k: nat)
    requires OneQuery(originalUrl) && ('?' in originalUrl || NoSeparator(originalUrl))
    requires k < |phrases| && NoSeparator(encode(phrases[k])) && IsRequestId(rid(k))
    ensures ParamValue(Links(originalUrl, phrases, encode, rid)[k], TEXT_KEY) == Some(encode(phrases[k]))
    ensures ParamValue(Links(originalUrl, phrases, encode, rid)[k], REQUEST_KEY) == Some(rid(k))
  {
    LinkCarriesPhrase(originalUrl, encode(phrases[k]), rid(k));
  }

  // ---------------------------------------------------------------------
  // Phrases recovered from a reply that is not a JSON array
  // ---------------------------------------------------------------------

  const EMPTY_REPLY := "empty response from OpenAI"
  const UNPARSABLE_REPLY := "cannot parse OpenAI output"

  /** `arr.slice(0, n)`. */
  function Take<T>(xs: seq<T>, n: nat): (r: seq<T>)
    ensures |r| <= n && |r| <= |xs|
    ensures |r| == n || r == xs
    ensures r == xs[..|r|]
  {
    if |xs| <= n then xs else xs[..n]
  }

  /** `parts.map(f).filter(Boolean)`: the non-empty images, in order. */
  function KeepNonEmpty(parts: seq<string>, f: string -> string): (r: seq<string>)
    ensures |r| <= |parts|
    ensures forall k :: 0 <= k < |r| ==> r[k] != ""
  {
    if parts == [] then []
    else
      var last := f(parts[|parts| - 1]);
      KeepNonEmpty(parts[..|parts| - 1], f) + (if last == "" then [] else [last])
  }

  lemma {:induction false} KeepNonEmptyAppend(a: seq<string>, b: seq<string>, f: string -> string)
    ensures KeepNonEmpty(a + b, f) == KeepNonEmpty(a, f) + KeepNonEmpty(b, f)
    decreases |b|
  {
    if b == [] {
      assert a + b == a;
    } else {
      var init := b[..|b| - 1];
      assert (a + b)[..|a + b| - 1] == a + init;
      assert (a + b)[|a + b| - 1] == b[|b| - 1];
      KeepNonEmptyAppend(a, init, f);
    }
  }

  /** No cleaned line starts with a marker or a blank. */
  lemma {:induction false} CleanedStartClean(parts: seq<string>)
    ensures forall k :: 0 <= k < |KeepNonEmpty(parts, CleanLine)| ==> !IsMarkerOrSpace(KeepNonEmpty(parts, CleanLine)[k][0])
    decreases |parts|
  {
    if parts != [] {
      CleanedStartClean(parts[..|parts| - 1]);
    }
  }

  /** No line kept by the as-written cleaning starts with a blank. */
  lemma {:induction false} KeptStartNoBlank(parts: seq<string>)
    ensures forall k :: 0 <= k < |KeepNonEmpty(parts, CleanLineAsWritten)| ==> !JsSpace(KeepNonEmpty(parts, CleanLineAsWritten)[k][0])
    decreases |parts|
  {
    if parts != [] {
      KeptStartNoBlank(parts[..|parts| - 1]);
    }
  }

  /** `txt.split(/\r?\n/).map(l => l.trim()).filter(Boolean)`. Splitting on
      "\n" alone gives the same lines: a '\r' left at the end of a piece
      is removed by the trim (TrimDropsCarriageReturn). */
  function Lines(txt: string): seq<string> {
    KeepNonEmpty(Split(txt, "\n"), TrimJs)
  }

  /** `txt.split(',').map(s => s.trim()).filter(Boolean)`. */
  function CommaPieces(txt: string): seq<string> {
    KeepNonEmpty(Split(txt, ","), TrimJs)
  }

  lemma SpanStartBackAt(s: string, i: nat, j: nat, p: char -> bool)
    requires j <= i <= |s|
    requires forall k :: j <= k < i ==> p(s[k])
    requires j > 0 ==> !p(s[j - 1])
    ensures SpanStartBack(s, i, p) == j
  {
  }

  /** A trailing carriage return does not change a trimmed line. */
  lemma TrimDropsCarriageReturn(line: string)
    ensures TrimJs(line + ['\r']) == TrimJs(line)
  {
    TrimDropsTrailing(line, '\r', JsSpace);
  }

  lemma TrimDropsTrailing(line: string, c: char, p: char -> bool)
    requires p(c)
    ensures Trim(line + [c], p) == Trim(line, p)
  {
    var t := line + [c];
    assert p(t[|line|]);
    var a := SpanEnd(line, 0, p);
    if a == |line| {
      SpanEndAt(t, 0, |t|, p);
    } else {
      SpanEndAt(t, 0, a, p);
      var b := SpanStartBack(line, |line|, p);
      SpanStartBackAt(t, |t|, b, p);
      assert t[a..b] == line[a..b];
    }
  }

  /** The characters the cleaning regex treats as a list marker:
      `[-•\d\.\)]`. */
  predicate IsBullet(c: char) {
    c == '-' || c == '•' || IsDigit(c) || c == '.' || c == ')'
  }

  predicate IsMarkerOrSpace(c: char) { IsBullet(c) || JsSpace(c) }

  /** The `line.replace(...)` of the fallback loop as written, with the
      pattern `^\s*[-•\d\.\)]\s*`, then `trim()`: one marker character
      and the blanks around it are removed. */
  function CleanLineAsWritten(line: string): (r: string)
    ensures r == "" || !JsSpace(r[0])
  {
    var a := SpanEnd(line, 0, JsSpace);
    if a < |line| && IsBullet(line[a]) then TrimJs(line[a + 1..]) else TrimJs(line)
  }

  /** Where the as-written cleaning stops: past the leading blanks, at most
      one marker, and the blanks after it. */
  function SingleMarkerEnd(line: string): (d: nat)
    ensures d <= |line|
  {
    var a := SpanEnd(line, 0, JsSpace);
    var c := if a < |line| && IsBullet(line[a]) then a + 1 else a;
    SpanEnd(line, c, JsSpace)
  }

  /** The as-written cleaning differs from the intended one only on lines
      with a second marker: when no marker follows the first one (and the
      blanks around it), both give the same text. */
  lemma AsWrittenAgreesOnSingleMarker(line: string)
    requires var d := SingleMarkerEnd(line); d == |line| || !IsBullet(line[d])
    ensures CleanLineAsWritten(line) == CleanLine(line)
  {
    var a := SpanEnd(line, 0, JsSpace);
    var c := if a < |line| && IsBullet(line[a]) then a + 1 else a;
    var d := SpanEnd(line, c, JsSpace);
    MarkerRunEnd(line, a, c, d);
    BlanksBeforeText(line, c, d);
    if c == a {
      TrimSkipsBlanks(line, c, JsSpace);
    }
  }

  /** The whole leading run of markers and blanks ends where the single
      marker and its blanks end, when no second marker follows. */
  lemma MarkerRunEnd(line: string, a: nat, c: nat, d: nat)
    requires a == SpanEnd(line, 0, JsSpace)
    requires c == if a < |line| && IsBullet(line[a]) then a + 1 else a
    requires d == SpanEnd(line, c, JsSpace)
    requires d == |line| || !IsBullet(line[d])
    ensures SpanEnd(line, 0, IsMarkerOrSpace) == d
  {
    SpanEndAt(line, 0, d, IsMarkerOrSpace);
  }

  /** Blanks between `c` and `d` do not change the trimmed rest. */
  lemma BlanksBeforeText(line: string, c: nat, d: nat)
    requires c <= |line| && d == SpanEnd(line, c, JsSpace)
    ensures TrimJs(line[c..]) == TrimJs(line[d..])
  {
    var v := line[c..];
    forall k | 0 <= k < d - c ensures JsSpace(v[k]) {
      assert v[k] == line[c + k];
    }
    if d < |line| {
      assert v[d - c] == line[d];
    }
    SpanEndAt(v, 0, d - c, JsSpace);
    TrimSkipsBlanks(v, d - c, JsSpace);
    assert v[d - c..] == line[d..];
  }

  /** Trimming ignores leading characters that the trim would remove. */
  lemma TrimSkipsBlanks(t: string, j: nat, p: char -> bool)
    requires j <= |t| && j <= SpanEnd(t, 0, p)
    ensures Trim(t, p) == Trim(t[j..], p)
  {
    TrimBetween(t, p);
    TrimBetween(t[j..], p);
    CutSkipsBlanks(t, j, p);
  }

  /** What `Trim` keeps: the text between the leading and the trailing run
      of `p`. */
  function Cut(s: string, p: char -> bool): string {
    var a := SpanEnd(s, 0, p);
    if a == |s| then "" else s[a..SpanStartBack(s, |s|, p)]
  }

  /** `Cut` ignores leading characters of the run of `p`. */
  lemma {:induction false} CutSkipsBlanks(t: string, j: nat, p: char -> bool)
    requires j <= |t| && j <= SpanEnd(t, 0, p)
    ensures Cut(t, p) == Cut(t[j..], p)
  {
    var u := t[j..];
    var at, au := SpanEnd(t, 0, p), SpanEnd(u, 0, p);
    SpanEndShift(t, j, u, p);
    if au < |u| {
      var bt, bu := SpanStartBack(t, |t|, p), SpanStartBack(u, |u|, p);
      SpanStartBackShift(t, j, u, p);
      CutIs(t, p, at, bt);
      CutIs(u, p, au, bu);
      assert at == j + au && bt == j + bu;
      SameCut(t, j, u, au, bu, t[at..bt], Cut(u, p));
    } else {
      CutIsEmpty(t, p);
      CutIsEmpty(u, p);
    }
  }

  /** A slice of a suffix is a slice of the whole sequence. */
  lemma SameCut(t: string, j: nat, u: string, a: nat, b: nat, x: string, y: string)
    requires j <= |t| && u == t[j..] && a <= b <= |u|
    requires x == t[j + a..j + b] && y == u[a..b]
    ensures x == y
  {
  }

  /** `Cut` of text that is not all `p`. */
  lemma CutIs(s: string, p: char -> bool, a: nat, b: nat)
    requires a == SpanEnd(s, 0, p) < |s| && b == SpanStartBack(s, |s|, p)
    ensures a <= b && Cut(s, p) == s[a..b]
  {
  }

  /** `Cut` of text that is all `p`. */
  lemma CutIsEmpty(s: string, p: char -> bool)
    requires SpanEnd(s, 0, p) == |s|
    ensures Cut(s, p) == ""
  {
  }

  /** `Trim` cuts between the leading and the trailing run of `p`. */
  lemma TrimBetween(s: string, p: char -> bool)
    ensures Trim(s, p) == Cut(s, p)
  {
  }

  /** The run of `p` from 0 goes through a prefix of `p` characters. */
  lemma SpanEndShift(t: string, j: nat, u: string, p: char -> bool)
    requires j <= |t| && u == t[j..] && j <= SpanEnd(t, 0, p)
    ensures SpanEnd(t, 0, p) == j + SpanEnd(u, 0, p)
  {
    var e := SpanEnd(t, 0, p);
    forall k | 0 <= k < e - j ensures p(u[k]) {
      assert u[k] == t[k + j];
    }
    if e < |t| {
      assert u[e - j] == t[e];
    }
    SpanEndAt(u, 0, e - j, p);
  }

  /** The trailing run of `p` is found at the same place in a suffix that
      still holds a character outside `p`. */
  lemma SpanStartBackShift(t: string, j: nat, u: string, p: char -> bool)
    requires j <= |t| && u == t[j..] && SpanEnd(u, 0, p) < |u|
    ensures SpanStartBack(t, |t|, p) == j + SpanStartBack(u, |u|, p)
  {
    var a := SpanEnd(u, 0, p);
    var b := SpanStartBack(u, |u|, p);
    assert !p(u[a]);
    assert b > a;
    forall k | j + b <= k < |t| ensures p(t[k]) {
      assert t[k] == u[k - j];
    }
    assert t[j + b - 1] == u[b - 1];
    SpanStartBackAt(t, |t|, j + b, p);
  }

  /** The cleaning the comment beside it describes ("1.", "-", "•"): the
      whole leading run of markers and blanks. */
  function CleanLine(line: string): (r: string)
    ensures r == "" || !IsMarkerOrSpace(r[0])
  {
    var b := SpanEnd(line, 0, IsMarkerOrSpace);
    TrimStartsWithFirst(line[b..]);
    TrimJs(line[b..])
  }

  /** A string that does not start with a blank keeps its first character
      when trimmed. */
  lemma TrimStartsWithFirst(t: string)
    ensures t != "" && !JsSpace(t[0]) ==> TrimJs(t) != "" && TrimJs(t)[0] == t[0]
  {
    if t != "" && !JsSpace(t[0]) {
      SpanEndAt(t, 0, 0, JsSpace);
    }
  }

  /** The as-written cleaning leaves the '.' of a numbered line. */
  lemma NumberedLineAsWritten()
    ensures CleanLineAsWritten("1. x") == ". x"
  {
    var line := "1. x";
    SpanEndAt(line, 0, 0, JsSpace);
    assert line[1..] == ". x";
    TrimOfTrimmed(". x");
  }

  /** The corrected cleaning removes the whole number. */
  lemma NumberedLineCleaned()
    ensures CleanLine("1. x") == "x"
  {
    var line := "1. x";
    SpanEndAt(line, 0, 3, IsMarkerOrSpace);
    assert line[3..] == "x";
    TrimOfTrimmed("x");
  }

  /** The cleaned lines, kept while they are fewer than `n`; with `n == 0`
      the loop still looks at the first line before it stops. */
  function CandidatesOf(lines: seq<string>, n: nat): seq<string> {
    if n == 0 then KeepNonEmpty(lines[..if lines == [] then 0 else 1], CleanLineAsWritten)
    else Take(KeepNonEmpty(lines, CleanLineAsWritten), n)
  }

  /** The `for (const line of lines)` loop with its early `break`. */
  method CollectCandidates(lines: seq<string>, n: nat) returns (candidates: seq<string>)
    ensures n > 0 ==> candidates == Take(KeepNonEmpty(lines, CleanLineAsWritten), n)
    ensures n == 0 ==> candidates == KeepNonEmpty(lines[..if lines == [] then 0 else 1], CleanLineAsWritten)
  {
    candidates := [];
    for i := 0 to |lines|
      invariant candidates == KeepNonEmpty(lines[..i], CleanLineAsWritten)
      invariant i > 0 ==> |candidates| < n
    {
      var cleaned := CleanLineAsWritten(lines[i]);
      KeepNonEmptyStep(lines, i, CleanLineAsWritten);
      if cleaned != "" {
        candidates := candidates + [cleaned];
      }
      if |candidates| >= n {
        CandidatesStop(lines, n, i + 1);
        return;
      }
    }
    assert lines[..|lines|] == lines;
  }

  /** One more element keeps its image when that is not empty. */
  lemma KeepNonEmptyStep(parts: seq<string>, i: nat, f: string -> string)
    requires i < |parts|
    ensures KeepNonEmpty(parts[..i + 1], f) ==
              KeepNonEmpty(parts[..i], f) + (if f(parts[i]) == "" then [] else [f(parts[i])])
  {
    assert parts[..i + 1][..i] == parts[..i];
  }

  /** Stopping as soon as `n` candidates are in hand gives the first `n`. */
  lemma CandidatesStop(lines: seq<string>, n: nat, i: nat)
    requires 0 < i <= |lines|
    requires n > 0 ==> |KeepNonEmpty(lines[..i], CleanLineAsWritten)| == n
    ensures n > 0 ==> KeepNonEmpty(lines[..i], CleanLineAsWritten) == Take(KeepNonEmpty(lines, CleanLineAsWritten), n)
  {
    assert lines == lines[..i] + lines[i..];
    KeepNonEmptyAppend(lines[..i], lines[i..], CleanLineAsWritten);
  }

  /** `String(s).trim()` of each of the first `n` elements of a parsed JSON
      array (given as the strings `String` makes of them). */
  function TrimmedArray(arr: seq<string>, n: nat): (r: seq<string>)
    ensures |r| == |Take(arr, n)|
    ensures forall k :: 0 <= k < |r| ==> r[k] == TrimJs(arr[k])
  {
    var head := Take(arr, n);
    seq(|head|, k requires 0 <= k < |head| => TrimJs(head[k]))
  }

  /** The phrases `generatePhrasesForCategory` returns for a reply, or the
      error it throws. `content` is the reply's message content (None when
      missing); `parsed` is `JSON.parse` of the trimmed content when that
      yields an array, None when it throws or yields anything else. */
  function Phrases(content: Option<string>, parsed: Option<seq<string>>, n: nat): Result<seq<string>, string> {
    var txt := if content.Some? then TrimJs(content.value) else "";
    if txt == "" then Err(EMPTY_REPLY)
    else if parsed.Some? then Ok(TrimmedArray(parsed.value, n))
    else
      var candidates := CandidatesOf(Lines(txt), n);
      if candidates != [] then Ok(Take(candidates, n))
      else if CommaPieces(txt) != [] then Ok(Take(CommaPieces(txt), n))
      else Err(UNPARSABLE_REPLY)
  }

  /** `generatePhrasesForCategory` after the reply has arrived. */
  method GeneratePhrases(content: Option<string>, parsed: Option<seq<string>>, n: nat) returns (r: Result<seq<string>, string>)
    ensures r == Phrases(content, parsed, n)
    ensures r.Ok? ==> |r.value| <= n
  {
    var txt := if content.Some? then TrimJs(content.value) else "";
    if txt == "" {
      return Err(EMPTY_REPLY);
    }
    if parsed.Some? {
      return Ok(TrimmedArray(parsed.value, n));
    }
    var candidates := CollectCandidates(Lines(txt), n);
    if candidates != [] {
      return Ok(Take(candidates, n));
    }
    var byCommas := CommaPieces(txt);
    if byCommas != [] {
      return Ok(Take(byCommas, n));
    }
    return Err(UNPARSABLE_REPLY);
  }

  /** With `n > 0`, the call fails exactly when the reply is blank, or when
      it is not an array and neither a cleaned line nor a comma-separated
      piece survives. */
  lemma PhrasesFailure(content: Option<string>, parsed: Option<seq<string>>, n: nat)
    requires n > 0
    ensures var txt := if content.Some? then TrimJs(content.value) else "";
            Phrases(content, parsed, n).Err? <==>
              txt == "" ||
              (parsed.None? && KeepNonEmpty(Lines(txt), CleanLineAsWritten) == [] && CommaPieces(txt) == [])
  {
  }

  /** Taking `n` twice is taking `n` once. */
  lemma TakeTwice<T>(xs: seq<T>, n: nat)
    ensures Take(Take(xs, n), n) == Take(xs, n)
  {
  }

  /** The comma split is the last resort: when a cleaned line survives, the
      phrases are the first `n` cleaned lines, none empty and none starting
      with a blank. */
  lemma LinesBeforeCommas(content: Option<string>, n: nat)
    requires n > 0 && content.Some? && TrimJs(content.value) != ""
    requires KeepNonEmpty(Lines(TrimJs(content.value)), CleanLineAsWritten) != []
    ensures var r := Phrases(content, None, n);
            && r == Ok(Take(KeepNonEmpty(Lines(TrimJs(content.value)), CleanLineAsWritten), n))
            && forall k :: 0 <= k < |r.value| ==> r.value[k] != "" && !JsSpace(r.value[k][0])
  {
    var kept := KeepNonEmpty(Lines(TrimJs(content.value)), CleanLineAsWritten);
    TakeTwice(kept, n);
    assert Take(kept, n) != [];
    assert Phrases(content, None, n) == Ok(Take(kept, n));
    KeptStartNoBlank(Lines(TrimJs(content.value)));
  }

  // ---------------------------------------------------------------------
  // retry
  // ---------------------------------------------------------------------

  function Pow2(i: nat): (r: nat)
    ensures r >= 1
  {
    if i == 0 then 1 else 2 * Pow2(i - 1)
  }

  /** The waits after the first `k` failures: `delayMs * 2^i`. */
  function Backoff(delayMs: nat, k: nat): (r: seq<nat>)
    ensures |r| == k
    ensures forall i :: 0 <= i < k ==> r[i] == delayMs * Pow2(i)
  {
    seq(k, i requires 0 <= i < k => delayMs * Pow2(i))
  }

  function Sum(xs: seq<nat>): nat {
    if xs == [] then 0 else Sum(xs[..|xs| - 1]) + xs[|xs| - 1]
  }

  /** The waits add up to `delayMs * (2^k - 1)`. */
  lemma {:induction false} BackoffTotal(delayMs: nat, k: nat)
    ensures Sum(Backoff(delayMs, k)) == delayMs * (Pow2(k) - 1)
  {
    if k > 0 {
      var b := Backoff(delayMs, k);
      var p := Pow2(k - 1);
      assert b[..k - 1] == Backoff(delayMs, k - 1);
      assert Sum(b) == Sum(Backoff(delayMs, k - 1)) + delayMs * p;
      BackoffTotal(delayMs, k - 1);
      MulAdd(delayMs, p - 1, p);
    }
  }

  lemma MulAdd(a: int, x: int, y: int)
    ensures a * x + a * y == a * (x + y)
  {
  }

  /** The attempt `retry` stops at: the first success among attempts
      `i..retries`, or `retries` when all of them fail. */
  function StopAt<T>(attempt: nat -> Result<T, string>, i: nat, retries: nat): (r: nat)
    requires i <= retries
    decreases retries - i
    ensures i <= r <= retries
    ensures forall j :: i <= j < r ==> attempt(j).Err?
    ensures attempt(r).Ok? || r == retries
  {
    if i == retries || attempt(i).Ok? then i else StopAt(attempt, i + 1, retries)
  }

  /** `retry(fn, retries, delayMs)`: `attempt(i)` is the outcome of the
      `i`-th call of `fn`. Returns the outcome it settles on, how many
      calls it made and the waits it slept between them. */
  method Retry<T>(attempt: nat -> Result<T, string>, retries: nat, delayMs: nat)
    returns (r: Result<T, string>, calls: nat, waits: seq<nat>)
    ensures calls == StopAt(attempt, 0, retries) + 1
    ensures r == attempt(calls - 1)
    ensures waits == Backoff(delayMs, calls - 1)
  {
    r := Err("");
    calls := 0;
    waits := [];
    for i := 0 to retries + 1
      invariant calls == i
      invariant forall j :: 0 <= j < i ==> attempt(j).Err?
      invariant i > 0 ==> r == attempt(i - 1)
      invariant waits == Backoff(delayMs, if i <= retries then i else retries)
    {
      calls := calls + 1;
      r := attempt(i);
      if r.Ok? {
        FirstSuccess(attempt, i, retries);
        return;
      }
      if i < retries {
        waits := waits + [delayMs * Pow2(i)];
      }
    }
    FirstSuccess(attempt, retries, retries);
  }

  /** Where every attempt before `i` failed and `i` succeeds or is the
      last, `retry` stops at `i`. */
  lemma {:induction false} FirstSuccess<T>(attempt: nat -> Result<T, string>, i: nat, retries: nat)
    requires i <= retries && (attempt(i).Ok? || i == retries)
    requires forall j :: 0 <= j < i ==> attempt(j).Err?
    ensures StopAt(attempt, 0, retries) == i
  {
  }

  /** `retry` calls at most `retries + 1` times, returns the first success
      and rethrows the last error only when every call fails. */
  lemma RetryOutcome<T>(attempt: nat -> Result<T, string>, retries: nat)
    ensures var k := StopAt(attempt, 0, retries);
            && k + 1 <= retries + 1
            && (attempt(k).Err? ==> k == retries && forall j :: 0 <= j <= retries ==> attempt(j).Err?)
            && ((exists j :: 0 <= j <= retries && attempt(j).Ok?) ==> attempt(k).Ok?)
  {
    var k := StopAt(attempt, 0, retries);
    if attempt(k).Err? {
      forall j | 0 <= j <= retries ensures attempt(j).Err? {
        if j < k {
          assert attempt(j).Err?;
        }
      }
    }
  }

  /** The waits of a `retry` that stops at attempt `k` add up to at most
      `delayMs * (2^retries - 1)`: 3000 ms with the defaults. */
  lemma TotalWaitBound(delayMs: nat, k: nat, retries: nat)
    requires k <= retries
    ensures Sum(Backoff(delayMs, k)) <= delayMs * (Pow2(retries) - 1)
  {
    BackoffTotal(delayMs, k);
    PowMonotone(k, retries);
    MulMonotone(delayMs, Pow2(k) - 1, Pow2(retries) - 1);
  }

  lemma MulMonotone(a: nat, x: nat, y: nat)
    requires x <= y
    ensures a * x <= a * y
  {
  }

  lemma {:induction false} PowMonotone(a: nat, b: nat)
    requires a <= b
    ensures Pow2(a) <= Pow2(b)
    decreases b
  {
    if a < b {
      PowMonotone(a, b - 1);
    }
  }

  // ---------------------------------------------------------------------
  // processUrl
  // ---------------------------------------------------------------------

  const RETRIES := 2
  const DELAY_MS := 1000

  /** The links `processUrl` returns for one input URL. `decodedQ` is the
      decoded `q` parameter (`''` when absent), or None when parsing the
      URL or decoding `q` throws; `generate(category, i)` is the outcome of
      the `i`-th call of `generatePhrasesForCategory(category, 5)`. */
  function UrlLinks(originalUrl: string, decodedQ: Option<string>, generate: (string, nat) -> Result<seq<string>, string>,
                    encode: string -> string, rid: nat -> string): seq<string>
  {
    if decodedQ.None? then []
    else
      var attempt := (i: nat) => generate(CategoryFor(decodedQ.value), i);
      match attempt(StopAt(attempt, 0, RETRIES))
      case Err(_) => []
      case Ok(phrases) => Links(originalUrl, phrases, encode, rid)
  }

  /** `processUrl`: every error is caught and yields no links. */
  method ProcessUrl(originalUrl: string, decodedQ: Option<string>, generate: (string, nat) -> Result<seq<string>, string>,
                    encode: string -> string, rid: nat -> string)
    returns (links: seq<string>)
    ensures links == UrlLinks(originalUrl, decodedQ, generate, encode, rid)
  {
    if decodedQ.None? {
      return [];
    }
    var category := CategoryFor(decodedQ.value);
    var attempt := (i: nat) => generate(category, i);
    var phrases, _, _ := Retry(attempt, RETRIES, DELAY_MS);
    match phrases {
      case Err(_) =>
        links := [];
      case Ok(ps) =>
        links := Links(originalUrl, ps, encode, rid);
    }
  }

  /** One link per phrase of the first successful call, in phrase order,
      each carrying its phrase; none when the URL is unreadable or all
      three calls fail. */
  lemma UrlLinksShape(originalUrl: string, decodedQ: Option<string>, generate: (string, nat) -> Result<seq<string>, string>,
                      encode: string -> string, rid: nat -> string)
    requires decodedQ.Some?
    ensures var attempt := (i: nat) => generate(CategoryFor(decodedQ.value), i);
            var out := attempt(StopAt(attempt, 0, RETRIES));
            var links := UrlLinks(originalUrl, decodedQ, generate, encode, rid);
            && (out.Err? <==> forall i :: 0 <= i <= RETRIES ==> attempt(i).Err?)
            && (out.Err? ==> links == [])
            && (out.Ok? ==>
                  (|links| == |out.value| &&
                   forall k :: 0 <= k < |links| ==> links[k] == Link(originalUrl, encode(out.value[k]), rid(k))))
  {
  }
}
