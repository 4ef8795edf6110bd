/** The pure helpers of src/utils.js (duplicated in index.js): the merchant
    filter, the city lookup, the product-link fix and the measure extracted
    from a title. Also the raw catalogue item those helpers read. */
module Utils {
  import opened Wrappers
  import opened Text

  // ---------------------------------------------------------------------
  // The raw item of a listing page (the elements of `data.data`)
  // ---------------------------------------------------------------------

  /** An entry of `majorMerchants`: a plain string, an object whose `name` is
      read (the empty string standing for a missing or falsy name), or
      null/undefined, on which reading `.name` throws. */
  datatype Merchant = MerchantName(name: string) | MerchantObject(objName: string) | MerchantNull

  /** `majorMerchants` is either an array or some other value, which the
      filter ignores. A missing field is the empty array. */
  datatype Merchants = MerchantArray(entries: seq<Merchant>) | NotAnArray

  /** An entry of `previewImages`; the empty string stands for a missing
      field. Reading `.large` of a null entry throws. */
  datatype Image = Image(large: string, url: string) | ImageNull

  /** The fields of a catalogue item that the crawler reads. Strings use the
      empty string for "missing or falsy"; numbers use 0 for "missing or
      falsy". `id` is `String(item.id)` when `item.id` is truthy. */
  datatype Item = Item(
    id: Option<string>,
    title: string,
    stickers: seq<string>,
    majorMerchants: Merchants,
    previewImages: Option<seq<Image>>,
    shopLink: string,
    url: string,
    category: Option<seq<string>>,
    brand: string,
    unitPrice: int,
    price: int,
    unitSalePrice: int,
    unitPriceBeforeDiscount: int,
    discount: int,
    reviewsQuantity: int,
    inStock: Option<bool>)

  /** An element of `data.data`: the crawler skips falsy elements. */
  datatype RawItem = Falsy | Present(item: Item)

  /** Why processing one item threw. */
  datatype ItemError = NullMerchant | NullImage

  // ---------------------------------------------------------------------
  // isMagnumProduct
  // ---------------------------------------------------------------------

  const MAGNUM_STICKER := "magnum_offer_available"

  /** `typeof m === 'string' ? m : (m.name || '')`, throwing on null. */
  function MerchantNameOf(m: Merchant): Result<string, ItemError> {
    match m
    case MerchantName(n) => Ok(n)
    case MerchantObject(n) => Ok(n)
    case MerchantNull => Err(NullMerchant)
  }

  /** `merchants.map(...).filter(Boolean)`. */
  function MerchantNames(es: seq<Merchant>): (r: Result<seq<string>, ItemError>)
    ensures r.Err? <==> exists k :: 0 <= k < |es| && es[k].MerchantNull?
    ensures r.Ok? ==> forall n :: n in r.value <==> n != "" && exists k :: 0 <= k < |es| && MerchantNameOf(es[k]) == Ok(n)
  {
    if es == [] then Ok([])
    else
      match MerchantNameOf(es[0])
      case Err(e) => Err(e)
      case Ok(n) =>
        match MerchantNames(es[1..])
        case Err(e) =>
          NullInTail(es);
          Err(e)
        case Ok(rest) =>
          NamesOfTail(es, n);
          Ok(if n == "" then rest else [n] + rest)
  }

  lemma NullInTail(es: seq<Merchant>)
    requires es != [] && exists k :: 0 <= k < |es[1..]| && es[1..][k].MerchantNull?
    ensures exists k :: 0 <= k < |es| && es[k].MerchantNull?
  {
    var k :| 0 <= k < |es[1..]| && es[1..][k].MerchantNull?;
    assert es[k + 1].MerchantNull?;
  }

  /** The names of all entries are the first one's and the others'. */
  lemma NamesOfTail(es: seq<Merchant>, n: string)
    requires es != [] && MerchantNameOf(es[0]) == Ok(n)
    ensures forall x :: (exists k :: 0 <= k < |es| && MerchantNameOf(es[k]) == Ok(x)) <==>
              (x == n || exists k :: 0 <= k < |es[1..]| && MerchantNameOf(es[1..][k]) == Ok(x))
  {
    forall x ensures (exists k :: 0 <= k < |es| && MerchantNameOf(es[k]) == Ok(x)) ==>
      (x == n || exists k :: 0 <= k < |es[1..]| && MerchantNameOf(es[1..][k]) == Ok(x)) {
      if exists k :: 0 <= k < |es| && MerchantNameOf(es[k]) == Ok(x) {
        var k :| 0 <= k < |es| && MerchantNameOf(es[k]) == Ok(x);
        if k > 0 { assert es[1..][k - 1] == es[k]; }
      }
    }
  }

  /** Some name contains "magnum" once lower-cased. */
  predicate SomeNameIsMagnum(names: seq<string>) {
    exists k :: 0 <= k < |names| && Contains(ToLower(names[k]), "magnum")
  }

  /** A merchant entry whose name mentions Magnum in any case. */
  predicate MagnumMerchant(m: Merchant) {
    !m.MerchantNull? && Contains(ToLower(MerchantNameOf(m).value), "magnum")
  }

  /** The merchant filter: an item is kept when it carries the Magnum sticker
      or lists a merchant whose name mentions Magnum in any case. A null
      merchant entry makes the whole test throw, whatever the stickers say. */
  function IsMagnumProduct(item: Item): (r: Result<bool, ItemError>)
    ensures r.Err? <==>
              && item.majorMerchants.MerchantArray?
              && exists k :: 0 <= k < |item.majorMerchants.entries| && item.majorMerchants.entries[k].MerchantNull?
    ensures r == Ok(true) <==>
              && r.Ok?
              && (|| MAGNUM_STICKER in item.stickers
                  || (&& item.majorMerchants.MerchantArray?
                      && exists k :: 0 <= k < |item.majorMerchants.entries| &&
                           MagnumMerchant(item.majorMerchants.entries[k])))
  {
    var hasSticker := MAGNUM_STICKER in item.stickers;
    match item.majorMerchants
    case NotAnArray => Ok(hasSticker)
    case MerchantArray(es) =>
      match MerchantNames(es)
      case Err(e) => Err(e)
      case Ok(names) =>
        MagnumNameIff(es, names);
        Ok(hasSticker || SomeNameIsMagnum(names))
  }

  /** Some kept name mentions Magnum exactly when some entry does. */
  lemma MagnumNameIff(es: seq<Merchant>, names: seq<string>)
    requires MerchantNames(es) == Ok(names)
    ensures SomeNameIsMagnum(names) <==> exists k :: 0 <= k < |es| && MagnumMerchant(es[k])
  {
    if SomeNameIsMagnum(names) {
      var j :| 0 <= j < |names| && Contains(ToLower(names[j]), "magnum");
      MagnumNameToEntry(es, names, j);
    }
    if exists k :: 0 <= k < |es| && MagnumMerchant(es[k]) {
      var k :| 0 <= k < |es| && MagnumMerchant(es[k]);
      MagnumEntryToName(es, names, k);
    }
  }

  lemma MagnumNameToEntry(es: seq<Merchant>, names: seq<string>, j: nat)
    requires MerchantNames(es) == Ok(names)
    requires j < |names| && Contains(ToLower(names[j]), "magnum")
    ensures exists k :: 0 <= k < |es| && MagnumMerchant(es[k])
  {
    assert names[j] in names;
    var k :| 0 <= k < |es| && MerchantNameOf(es[k]) == Ok(names[j]);
    assert MagnumMerchant(es[k]);
  }

  lemma MagnumEntryToName(es: seq<Merchant>, names: seq<string>, k: nat)
    requires MerchantNames(es) == Ok(names)
    requires k < |es| && MagnumMerchant(es[k])
    ensures SomeNameIsMagnum(names)
  {
    var n := MerchantNameOf(es[k]).value;
    var i := IndexOf(ToLower(n), "magnum").value;
    assert |ToLower(n)| >= 6;
    assert n in names;
    var j :| 0 <= j < |names| && names[j] == n;
  }

  // ---------------------------------------------------------------------
  // extractCityFromUrl
  // ---------------------------------------------------------------------

  const ALMATY_CODE := "750000000"
  const ASTANA_CODE := "710000000"

  /** `CITY_MAP[code] || null`. */
  function CityOfCode(code: string): Option<string> {
    if code == ALMATY_CODE then Some("Almaty")
    else if code == ASTANA_CODE then Some("Astana")
    else None
  }

  /** `/[&?]c=(\d+)/` matches at `i`. */
  predicate CityParamAt(s: string, i: nat) {
    i + 3 < |s| && (s[i] == '&' || s[i] == '?') && s[i + 1] == 'c' && s[i + 2] == '=' && IsDigit(s[i + 3])
  }

  /** The digits of the first `[&?]c=<digits>` of the URL. */
  function CityCode(url: string): (r: Option<string>)
    ensures r.Some? ==> |r.value| > 0 && AllDigits(r.value)
  {
    var m := (i: nat) => CityParamAt(url, i);
    assert forall i: nat :: m(i) == CityParamAt(url, i);
    match Find(0, |url|, m)
    case None => None
    case Some(i) =>
      assert m(i);
      Some(url[i + 3..SpanEnd(url, i + 3, IsDigit)])
  }

  /** The city of a category URL: only the first `c=` parameter after `?` or
      `&` is looked at, and only the two known codes name a city. */
  function ExtractCityFromUrl(url: string): (r: Option<string>)
    ensures r == Some("Almaty") <==> CityCode(url) == Some(ALMATY_CODE)
    ensures r == Some("Astana") <==> CityCode(url) == Some(ASTANA_CODE)
    ensures r.None? <==> CityCode(url) !in {Some(ALMATY_CODE), Some(ASTANA_CODE)}
  {
    match CityCode(url)
    case None => None
    case Some(code) => CityOfCode(code)
  }

  /** A URL whose first city parameter carries `code` yields exactly that
      code, whatever follows the parameter. */
  lemma CityOfFirstParameter(prefix: string, sep: char, code: string, rest: string)
    requires sep == '&' || sep == '?'
    requires forall i :: 0 <= i < |prefix| ==> !CityParamAt(prefix + [sep], i)
    requires |code| > 0 && AllDigits(code)
    requires rest == [] || !IsDigit(rest[0])
    ensures CityCode(prefix + [sep] + "c=" + code + rest) == Some(code)
  {
    var url := prefix + [sep] + "c=" + code + rest;
    var n := |prefix|;
    CityPieces(prefix, sep, code, rest);
    forall i | 0 <= i < n ensures !CityParamAt(url, i) {
      assert !CityParamAt(prefix + [sep], i);
    }
    FirstCityParam(url, n);
    SpanEndAt(url, n + 3, n + 3 + |code|, IsDigit);
  }

  /** The pieces of `prefix + [sep] + "c=" + code + rest`, read back by
      index. */
  lemma CityPieces(prefix: string, sep: char, code: string, rest: string)
    ensures var url := prefix + [sep] + "c=" + code + rest;
            var n := |prefix|;
            && |url| == n + 3 + |code| + |rest|
            && (forall j :: 0 <= j <= n ==> url[j] == (prefix + [sep])[j])
            && url[n] == sep && url[n + 1] == 'c' && url[n + 2] == '='
            && url[n + 3..n + 3 + |code|] == code
            && (forall k :: n + 3 <= k < n + 3 + |code| ==> url[k] == code[k - n - 3])
            && (rest != [] ==> url[n + 3 + |code|] == rest[0])
  {
    var url := prefix + [sep] + "c=" + code + rest;
    var n := |prefix|;
    assert url == (prefix + [sep] + "c=") + code + rest;
    assert url[n + 3..n + 3 + |code|] == code;
  }

  /** The leftmost city parameter is the one read. */
  lemma FirstCityParam(s: string, i: nat)
    requires CityParamAt(s, i)
    requires forall j :: 0 <= j < i ==> !CityParamAt(s, j)
    ensures CityCode(s) == Some(s[i + 3..SpanEnd(s, i + 3, IsDigit)])
  {
    var m := (j: nat) => CityParamAt(s, j);
    assert forall j: nat :: m(j) == CityParamAt(s, j);
    var f := Find(0, |s|, m);
    assert f.Some?;
    assert f.value <= i || !m(i);
  }

  // ---------------------------------------------------------------------
  // fixProductUrl
  // ---------------------------------------------------------------------

  const PRODUCT_PREFIX := "https://kaspi.kz/p/"
  const SHOP_PREFIX := "https://kaspi.kz/shop/p/"

  /** A missing or empty URL gives null; otherwise the first
      "https://kaspi.kz/p/" becomes "https://kaspi.kz/shop/p/". */
  function FixProductUrl(url: Option<string>): (r: Option<string>)
    ensures r.None? <==> url.None? || url.value == ""
    ensures r.Some? && !Contains(url.value, PRODUCT_PREFIX) ==> r.value == url.value
  {
    match url
    case None => None
    case Some(u) => if u == "" then None else Some(ReplaceFirst(u, PRODUCT_PREFIX, SHOP_PREFIX))
  }

  /** A shop link under "/p/" is moved under "/shop/p/" and nothing else
      changes. */
  lemma ShopLinkIsFixed(rest: string)
    ensures FixProductUrl(Some(PRODUCT_PREFIX + rest)) == Some(SHOP_PREFIX + rest)
  {
    var u := PRODUCT_PREFIX + rest;
    assert StartsAt(u, 0, PRODUCT_PREFIX);
    assert IndexOf(u, PRODUCT_PREFIX) == Some(0);
    assert u[..0] == [];
    assert u[|PRODUCT_PREFIX|..] == rest;
    assert ReplaceFirst(u, PRODUCT_PREFIX, SHOP_PREFIX) == SHOP_PREFIX + rest;
    assert u != "";
  }

  // ---------------------------------------------------------------------
  // extractMeasureAndWeight
  // ---------------------------------------------------------------------

  datatype Kind = Volume | Weight | Count

  /** One entry of `measurePatterns`: the unit the regular expression looks
      for, the measure it reports and the kind of quantity. */
  datatype MeasurePattern = MeasurePattern(unit: string, measure: string, kind: Kind)

  /** The patterns in the order they are tried. */
  const MEASURE_PATTERNS := [
    MeasurePattern("мл", "миллилитры", Volume),
    MeasurePattern("л", "литры", Volume),
    MeasurePattern("г", "граммы", Weight),
    MeasurePattern("кг", "килограммы", Weight),
    MeasurePattern("mg", "миллиграммы", Weight),
    MeasurePattern("шт", "штуки", Count)
  ]

  /** The result of `extractMeasureAndWeight`. The amount is kept as the
      captured decimal text with its comma turned into a point: the text
      `parseFloat` reads. */
  datatype Measurement = Measurement(measure: Option<string>, weight: Option<string>, volume: Option<string>)

  const NO_MEASUREMENT := Measurement(None, None, None)

  predicate IsDecimalMark(c: char) { c == '.' || c == ',' }

  /** End of `\d+(?:<mark>\d+)?` starting at a digit, with the greedy choice.
      Backtracking to a shorter number cannot help the patterns of this
      model: the shorter number is followed by a digit or a decimal mark,
      and every unit starts with a letter. */
  function NumberEnd(s: string, i: nat, isMark: char -> bool): (e: nat)
    requires i < |s| && IsDigit(s[i])
    ensures i < e <= |s|
    ensures forall k :: i <= k < e ==> IsDigit(s[k]) || isMark(s[k])
  {
    var d := SpanEnd(s, i, IsDigit);
    if d + 1 < |s| && isMark(s[d]) && IsDigit(s[d + 1]) then SpanEnd(s, d + 1, IsDigit) else d
  }

  /** `(?:\s|$|\.)` at index `u`. */
  predicate MeasureTailAt(s: string, u: nat) {
    u == |s| || (u < |s| && (JsSpace(s[u]) || s[u] == '.'))
  }

  /** `/(\d+(?:[.,]\d+)?)\s*UNIT(?:\s|$|\.)/iu` matches at `i`. */
  predicate UnitMatchAt(s: string, i: nat, unit: string) {
    && i < |s| && IsDigit(s[i])
    && var w := SpanEnd(s, NumberEnd(s, i, IsDecimalMark), JsSpace);
    && StartsAtIgnoringCase(s, w, unit)
    && MeasureTailAt(s, w + |unit|)
  }

  /** The captured amount of the leftmost match of one pattern. */
  function FindAmount(s: string, unit: string): (r: Option<string>)
    ensures r.Some? <==> exists i :: 0 <= i < |s| && UnitMatchAt(s, i, unit)
    ensures r.Some? ==> |r.value| > 0
    ensures r.Some? ==>
              exists i :: && 0 <= i < |s| && UnitMatchAt(s, i, unit)
                          && (forall j :: 0 <= j < i ==> !UnitMatchAt(s, j, unit))
                          && r.value == s[i..NumberEnd(s, i, IsDecimalMark)]
  {
    var m := (i: nat) => UnitMatchAt(s, i, unit);
    assert forall i: nat :: m(i) == UnitMatchAt(s, i, unit);
    match Find(0, |s|, m)
    case None =>
      None
    case Some(i) =>
      assert m(i);
      Some(s[i..NumberEnd(s, i, IsDecimalMark)])
  }

  /** `match[1].replace(',', '.')`. */
  function Amount(captured: string): string {
    ReplaceFirst(captured, ",", ".")
  }

  function MeasurementOf(p: MeasurePattern, amount: string): Measurement {
    match p.kind
    case Volume => Measurement(Some(p.measure), None, Some(amount))
    case Weight => Measurement(Some(p.measure), Some(amount), None)
    case Count => Measurement(Some(p.measure), Some(amount), Some(amount))
  }

  /** What a result of one kind looks like: a volume without weight, a
      weight without volume, or a count reported as both. */
  predicate ShapedAs(r: Measurement, kind: Kind) {
    match kind
    case Volume => r.weight.None? && r.volume.Some?
    case Weight => r.weight.Some? && r.volume.None?
    case Count => r.weight.Some? && r.weight == r.volume
  }

  /** A result is all null, or carries the measure of one of the patterns in
      the shape of that pattern's kind. */
  predicate WellShaped(r: Measurement, ps: seq<MeasurePattern>) {
    r == NO_MEASUREMENT || exists k :: 0 <= k < |ps| && r.measure == Some(ps[k].measure) && ShapedAs(r, ps[k].kind)
  }

  /** The amount each pattern would capture from the title, pattern by
      pattern (None where the pattern does not match). */
  function Amounts(title: string, ps: seq<MeasurePattern>): (r: seq<Option<string>>)
    ensures |r| == |ps|
    ensures forall k :: 0 <= k < |ps| ==> r[k] == FindAmount(title, ps[k].unit)
  {
    seq(|ps|, k requires 0 <= k < |ps| => FindAmount(title, ps[k].unit))
  }

  /** Pattern `k` is the first with a match, and `r` is what its amount
      gives in the shape of its kind. */
  predicate DecidedBy(ps: seq<MeasurePattern>, amounts: seq<Option<string>>, k: nat, r: Measurement)
    requires |amounts| == |ps|
  {
    && k < |ps| && amounts[k].Some?
    && (forall j :: 0 <= j < k ==> amounts[j].None?)
    && r == MeasurementOf(ps[k], Amount(amounts[k].value))
  }

  /** The loop over the patterns: the first one with a match decides.
      `amounts[k]` is what pattern `k` captures. */
  function FirstMeasurement(ps: seq<MeasurePattern>, amounts: seq<Option<string>>): (r: Measurement)
    requires |amounts| == |ps|
    ensures WellShaped(r, ps)
    ensures r == NO_MEASUREMENT <==> forall k :: 0 <= k < |ps| ==> amounts[k].None?
    ensures r != NO_MEASUREMENT ==> exists k :: DecidedBy(ps, amounts, k, r)
  {
    if ps == [] then NO_MEASUREMENT
    else
      match amounts[0]
      case Some(v) =>
        var r := MeasurementOf(ps[0], Amount(v));
        assert r.measure == Some(ps[0].measure) && ShapedAs(r, ps[0].kind);
        assert DecidedBy(ps, amounts, 0, r);
        r
      case None =>
        var r := FirstMeasurement(ps[1..], amounts[1..]);
        assert WellShaped(r, ps) by {
          if r != NO_MEASUREMENT {
            var k :| 0 <= k < |ps[1..]| && r.measure == Some(ps[1..][k].measure) && ShapedAs(r, ps[1..][k].kind);
            assert ps[1..][k] == ps[k + 1];
          }
        }
        assert (forall k :: 0 <= k < |ps| ==> amounts[k].None?) <==> (forall k :: 0 <= k < |ps[1..]| ==> amounts[1..][k].None?) by {
          if forall k :: 0 <= k < |ps[1..]| ==> amounts[1..][k].None? {
            forall k | 0 <= k < |ps| ensures amounts[k].None? {
              if k > 0 { assert amounts[k] == amounts[1..][k - 1]; }
            }
          }
        }
        assert r != NO_MEASUREMENT ==> exists k :: DecidedBy(ps, amounts, k, r) by {
          if r != NO_MEASUREMENT {
            var k :| DecidedBy(ps[1..], amounts[1..], k, r);
            DecidedByTail(ps, amounts, k, r);
          }
        }
        r
  }

  /** A pattern that decides after the first one, which has no match,
      decides one place further on. */
  lemma DecidedByTail(ps: seq<MeasurePattern>, amounts: seq<Option<string>>, k: nat, r: Measurement)
    requires |amounts| == |ps| && ps != [] && amounts[0].None?
    requires DecidedBy(ps[1..], amounts[1..], k, r)
    ensures DecidedBy(ps, amounts, k + 1, r)
  {
    assert ps[1..][k] == ps[k + 1] && amounts[1..][k] == amounts[k + 1];
    forall j | 0 <= j < k + 1 ensures amounts[j].None? {
      if j > 0 { assert amounts[j] == amounts[1..][j - 1]; }
    }
  }

  /** The measure, weight and volume named in a product title: all null when
      no pattern matches, otherwise the result of the first pattern that
      matches, shaped by its kind. */
  function ExtractMeasureAndWeight(title: string): (r: Measurement)
    ensures WellShaped(r, MEASURE_PATTERNS)
    ensures r == NO_MEASUREMENT <==> forall k :: 0 <= k < |MEASURE_PATTERNS| ==> FindAmount(title, MEASURE_PATTERNS[k].unit).None?
    ensures r != NO_MEASUREMENT ==> exists k :: DecidedBy(MEASURE_PATTERNS, Amounts(title, MEASURE_PATTERNS), k, r)
  {
    FirstMeasurement(MEASURE_PATTERNS, Amounts(title, MEASURE_PATTERNS))
  }

  /** The values reported for a title whose first matching pattern is `k`:
      the amount captured at that pattern's leftmost match, with `,` read
      as `.`, placed by the pattern's kind. */
  lemma AmountOfTitle(title: string, k: nat)
    requires k < |MEASURE_PATTERNS| && FindAmount(title, MEASURE_PATTERNS[k].unit).Some?
    requires forall j :: 0 <= j < k ==> FindAmount(title, MEASURE_PATTERNS[j].unit).None?
    ensures ExtractMeasureAndWeight(title) ==
              MeasurementOf(MEASURE_PATTERNS[k], Amount(FindAmount(title, MEASURE_PATTERNS[k].unit).value))
  {
    FirstDecides(MEASURE_PATTERNS, Amounts(title, MEASURE_PATTERNS), k);
  }

  /** The first pattern with a match decides the result. */
  lemma FirstDecides(ps: seq<MeasurePattern>, amounts: seq<Option<string>>, k: nat)
    requires |amounts| == |ps| && k < |ps| && amounts[k].Some?
    requires forall j :: 0 <= j < k ==> amounts[j].None?
    ensures FirstMeasurement(ps, amounts) == MeasurementOf(ps[k], Amount(amounts[k].value))
  {
    var r := FirstMeasurement(ps, amounts);
    var d: nat :| DecidedBy(ps, amounts, d, r);
    assert !(d < k);
    assert !(k < d);
  }

  /** The pattern that decides a result other than "no measurement". */
  lemma Decider(ps: seq<MeasurePattern>, amounts: seq<Option<string>>) returns (d: nat)
    requires |amounts| == |ps| && FirstMeasurement(ps, amounts) != NO_MEASUREMENT
    ensures DecidedBy(ps, amounts, d, FirstMeasurement(ps, amounts))
  {
    d :| DecidedBy(ps, amounts, d, FirstMeasurement(ps, amounts));
  }

  /** First match wins: pattern `k` decides exactly when it matches and no
      earlier pattern does (the measures of the patterns being distinct). */
  lemma FirstMatchWins(ps: seq<MeasurePattern>, amounts: seq<Option<string>>, k: nat)
    requires |amounts| == |ps| && k < |ps|
    requires forall a, b :: 0 <= a < b < |ps| ==> ps[a].measure != ps[b].measure
    ensures FirstMeasurement(ps, amounts).measure == Some(ps[k].measure) <==>
              amounts[k].Some? && forall j :: 0 <= j < k ==> amounts[j].None?
  {
    var r := FirstMeasurement(ps, amounts);
    if amounts[k].Some? && forall j :: 0 <= j < k ==> amounts[j].None? {
      FirstDecides(ps, amounts, k);
      MeasureOf(ps[k], Amount(amounts[k].value));
    }
    if r.measure == Some(ps[k].measure) {
      assert r != NO_MEASUREMENT;
      var d := Decider(ps, amounts);
      MeasureOf(ps[d], Amount(amounts[d].value));
      SameMeasureSameIndex(ps, d, k);
    }
  }

  lemma MeasureOf(p: MeasurePattern, amount: string)
    ensures MeasurementOf(p, amount).measure == Some(p.measure)
  {
  }

  /** Distinct measures: a measure names one pattern. */
  lemma SameMeasureSameIndex(ps: seq<MeasurePattern>, a: nat, b: nat)
    requires forall a, b :: 0 <= a < b < |ps| ==> ps[a].measure != ps[b].measure
    requires a < |ps| && b < |ps| && ps[a].measure == ps[b].measure
    ensures a == b
  {
  }

  /** For `extractMeasureAndWeight` itself: the title reports the measure of
      pattern `k` exactly when pattern `k` matches and no earlier one does. */
  lemma MeasuresAreDistinct()
    ensures forall a, b :: 0 <= a < b < |MEASURE_PATTERNS| ==> MEASURE_PATTERNS[a].measure != MEASURE_PATTERNS[b].measure
  {
  }

  lemma MeasureOfTitle(title: string, k: nat)
    requires k < |MEASURE_PATTERNS|
    ensures ExtractMeasureAndWeight(title).measure == Some(MEASURE_PATTERNS[k].measure) <==>
              && FindAmount(title, MEASURE_PATTERNS[k].unit).Some?
              && forall j :: 0 <= j < k ==> FindAmount(title, MEASURE_PATTERNS[j].unit).None?
  {
    MeasuresAreDistinct();
    FirstMatchOfTitle(title, MEASURE_PATTERNS, k);
  }

  /** First match wins, for the amounts read from a title. */
  lemma FirstMatchOfTitle(title: string, ps: seq<MeasurePattern>, k: nat)
    requires k < |ps|
    requires forall a, b :: 0 <= a < b < |ps| ==> ps[a].measure != ps[b].measure
    ensures FirstMeasurement(ps, Amounts(title, ps)).measure == Some(ps[k].measure) <==>
              && FindAmount(title, ps[k].unit).Some?
              && forall j :: 0 <= j < k ==> FindAmount(title, ps[j].unit).None?
  {
    FirstMatchWins(ps, Amounts(title, ps), k);
  }

}
