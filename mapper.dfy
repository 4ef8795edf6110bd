/**
 * The data mapper (mapper.js, and its copy src/mappers/mapper.js): turns
 * each scraped product into the record of the price-comparison database,
 * taking the weight from the title, else from the matched reference row,
 * else from the numeric API weight, and deriving the measure and the
 * sub-category.
 *
 * Loading the CSV and the JSON, the fuzzy search and writing the output are
 * left out: the best reference match of each item is an input, as are the
 * identifiers `uuidv4` hands out and the time stamp.
 */
module Mapper {
  import opened Wrappers
  import opened Text
  import Utils
  import Product

  // ---------------------------------------------------------------------
  // extractWeightFromTitle: /(\d+(?:\.\d+)?)\s*(г|кг|мл|л|гр|кгр|млр|лр)/i
  // ---------------------------------------------------------------------

  /** The alternatives of the unit group, in the order they are tried. */
  const UNIT_ALTERNATIVES := ["г", "кг", "мл", "л", "гр", "кгр", "млр", "лр"]

  /** The four units a weight string is written in. */
  const PLAIN_UNITS := ["г", "кг", "мл", "л"]

  predicate IsPoint(c: char) { c == '.' }

  /** The number, the blanks and the unit of a match: the number is
      [start, numEnd), the unit is alternative `alt` at `unitStart`. */
  datatype WeightMatch = WeightMatch(start: nat, numEnd: nat, unitStart: nat, alt: nat)

  /** The first alternative that matches at `u`. Nothing follows the group,
      so the first alternative that matches ends the search. */
  function AlternativeAt(s: string, u: nat): (r: Option<nat>)
    ensures r.Some? ==> r.value < |UNIT_ALTERNATIVES| && StartsAtIgnoringCase(s, u, UNIT_ALTERNATIVES[r.value])
    ensures r.Some? ==> forall j :: 0 <= j < r.value ==> !StartsAtIgnoringCase(s, u, UNIT_ALTERNATIVES[j])
    ensures r.None? ==> forall j :: 0 <= j < |UNIT_ALTERNATIVES| ==> !StartsAtIgnoringCase(s, u, UNIT_ALTERNATIVES[j])
  {
    var hit := (j: nat) => j < |UNIT_ALTERNATIVES| && StartsAtIgnoringCase(s, u, UNIT_ALTERNATIVES[j]);
    assert forall j: nat :: hit(j) == (j < |UNIT_ALTERNATIVES| && StartsAtIgnoringCase(s, u, UNIT_ALTERNATIVES[j]));
    Find(0, |UNIT_ALTERNATIVES|, hit)
  }

  /** The pattern tried at `p`, with the greedy choices. Giving back a digit,
      the fraction or a blank puts a digit, a point or a blank where a unit
      letter is expected, so backtracking never finds another match. */
  function WeightMatchAt(s: string, p: nat): (r: Option<WeightMatch>)
    ensures r.Some? ==> var m := r.value;
              && m.start == p < m.numEnd <= m.unitStart
              && m.alt < |UNIT_ALTERNATIVES| && StartsAtIgnoringCase(s, m.unitStart, UNIT_ALTERNATIVES[m.alt])
              && IsDigit(s[p]) && (forall k :: p <= k < m.numEnd ==> IsDigit(s[k]) || IsPoint(s[k]))
              && (forall k :: m.numEnd <= k < m.unitStart ==> JsSpace(s[k]))
              && forall j :: 0 <= j < m.alt ==> !StartsAtIgnoringCase(s, m.unitStart, UNIT_ALTERNATIVES[j])
  {
    if p >= |s| || !IsDigit(s[p]) then None
    else
      var numEnd := Utils.NumberEnd(s, p, IsPoint);
      var u := SpanEnd(s, numEnd, JsSpace);
      match AlternativeAt(s, u)
      case None => None
      case Some(k) => Some(WeightMatch(p, numEnd, u, k))
  }

  /** `title.match(...)`: the leftmost match. */
  function FirstWeightMatch(s: string): (r: Option<WeightMatch>)
    ensures r.Some? ==> WeightMatchAt(s, r.value.start) == r
    ensures r.Some? ==> forall p :: 0 <= p < r.value.start ==> WeightMatchAt(s, p).None?
    ensures r.None? ==> forall p :: 0 <= p < |s| ==> WeightMatchAt(s, p).None?
  {
    var hit := (p: nat) => WeightMatchAt(s, p).Some?;
    assert forall p: nat :: hit(p) == WeightMatchAt(s, p).Some?;
    var f := Find(0, |s|, hit);
    if f.Some? then WeightMatchAt(s, f.value) else None
  }

  /** `match[1]`. */
  function NumberText(s: string, m: WeightMatch): string
    requires m.start <= m.numEnd <= |s|
  {
    s[m.start..m.numEnd]
  }

  /** `match[2]`: the unit as spelt in the title. */
  function UnitText(s: string, m: WeightMatch): string
    requires m.alt < |UNIT_ALTERNATIVES| && m.unitStart + |UNIT_ALTERNATIVES[m.alt]| <= |s|
  {
    s[m.unitStart..m.unitStart + |UNIT_ALTERNATIVES[m.alt]|]
  }

  /** The alias clean-up: `гр`, `кгр`, `млр` and `лр` become `г`, `кг`,
      `мл` and `л`; the comparisons are case-sensitive. */
  function Canonical(unit: string): string {
    if unit == "гр" then "г"
    else if unit == "кгр" then "кг"
    else if unit == "млр" then "мл"
    else if unit == "лр" then "л"
    else unit
  }

  /** `extractWeightFromTitle`: `"<number> <unit>"` from the leftmost match,
      or null for a missing or empty title or when nothing matches. */
  function ExtractWeightFromTitle(title: Option<string>): (r: Option<string>)
    ensures r.None? <==> title.None? || FirstWeightMatch(title.value).None?
    ensures title == Some("") ==> r.None?
  {
    if title.None? || title.value == "" then None
    else
      var s := title.value;
      match FirstWeightMatch(s)
      case None => None
      case Some(m) => Some(NumberText(s, m) + " " + Canonical(UnitText(s, m)))
  }

  // ---------------------------------------------------------------------
  // getMeasure
  // ---------------------------------------------------------------------

  /** The measures a record can carry. */
  const MEASURES := ["кг", "г", "мл", "л", "шт"]

  /** `getMeasure`: the unit named in a weight string, checked in the order
      кг, г, мл, л (each with its Latin spelling); pieces otherwise. */
  function GetMeasure(weight: string): (m: string)
    ensures m in MEASURES
    ensures weight == "" ==> m == "шт"
  {
    if weight == "" then "шт"
    else if Contains(weight, "кг") || Contains(weight, "kg") then "кг"
    else if Contains(weight, "г") || Contains(weight, "g") then "г"
    else if Contains(weight, "мл") || Contains(weight, "ml") then "мл"
    else if Contains(weight, "л") || Contains(weight, "l") then "л"
    else "шт"
  }

  // ---------------------------------------------------------------------
  // What the title extraction yields
  // ---------------------------------------------------------------------

  /** A longer alternative begins with the one four places before it. */
  lemma AliasHasPlainPrefix(k: nat)
    requires 4 <= k < |UNIT_ALTERNATIVES|
    ensures |UNIT_ALTERNATIVES[k - 4]| < |UNIT_ALTERNATIVES[k]|
    ensures UNIT_ALTERNATIVES[k][..|UNIT_ALTERNATIVES[k - 4]|] == UNIT_ALTERNATIVES[k - 4]
  {
  }

  /** The aliases never win the alternation: each begins with a plain unit
      that is tried before it. */
  lemma PlainUnitWins(s: string, u: nat)
    requires AlternativeAt(s, u).Some?
    ensures AlternativeAt(s, u).value < |PLAIN_UNITS|
  {
    forall j | 4 <= j < |UNIT_ALTERNATIVES| && StartsAtIgnoringCase(s, u, UNIT_ALTERNATIVES[j])
      ensures StartsAtIgnoringCase(s, u, UNIT_ALTERNATIVES[j - 4])
    {
      AliasMatchesPlain(s, u, j);
    }
    var k := AlternativeAt(s, u).value;
    var p := if k >= 4 then k - 4 else k;
    assert StartsAtIgnoringCase(s, u, UNIT_ALTERNATIVES[p]);
  }

  lemma AliasMatchesPlain(s: string, u: nat, k: nat)
    requires 4 <= k < |UNIT_ALTERNATIVES| && StartsAtIgnoringCase(s, u, UNIT_ALTERNATIVES[k])
    ensures StartsAtIgnoringCase(s, u, UNIT_ALTERNATIVES[k - 4])
  {
    AliasHasPlainPrefix(k);
    var plain := UNIT_ALTERNATIVES[k - 4];
    forall j | 0 <= j < |plain|
      ensures SameLetter(s[u + j], plain[j])
    {
      assert plain[j] == UNIT_ALTERNATIVES[k][j];
    }
  }

  /** The unit of a match, read without regard to case, is a plain unit,
      so the alias clean-up never changes it. */
  lemma UnitOfMatch(s: string, m: WeightMatch)
    requires WeightMatchAt(s, m.start) == Some(m)
    ensures m.alt < |PLAIN_UNITS|
    ensures ToLower(UnitText(s, m)) == PLAIN_UNITS[m.alt]
    ensures Canonical(UnitText(s, m)) == UnitText(s, m)
  {
    PlainUnitWins(s, m.unitStart);
    UnitLowersToPlain(s, m);
    CanonicalKeepsPlainSpelling(UnitText(s, m), m.alt);
  }

  lemma UnitLowersToPlain(s: string, m: WeightMatch)
    requires WeightMatchAt(s, m.start) == Some(m) && m.alt < |PLAIN_UNITS|
    ensures ToLower(UnitText(s, m)) == PLAIN_UNITS[m.alt]
  {
    var unit := UnitText(s, m);
    var plain := PLAIN_UNITS[m.alt];
    assert plain == UNIT_ALTERNATIVES[m.alt];
    forall j | 0 <= j < |plain|
      ensures ToLower(unit)[j] == plain[j]
    {
      assert unit[j] == s[m.unitStart + j];
      assert SameLetter(s[m.unitStart + j], plain[j]);
    }
  }

  /** The aliases end in 'р', which no plain unit does, so a spelling of a
      plain unit is never an alias. */
  lemma CanonicalKeepsPlainSpelling(unit: string, k: nat)
    requires k < |PLAIN_UNITS| && ToLower(unit) == PLAIN_UNITS[k]
    ensures Canonical(unit) == unit
  {
    var low := ToLower(unit);
    assert low[|low| - 1] != 'р';
    assert Fold('р') == 'р';
  }

  /** The number of a weight string: digits and points, starting with a
      digit. */
  predicate IsNumberText(v: string) {
    |v| > 0 && IsDigit(v[0]) && forall k :: 0 <= k < |v| ==> IsDigit(v[k]) || IsPoint(v[k])
  }

  /** A non-null result is the number of the leftmost match, a blank, and
      the unit as spelt in the title, which is a plain unit in some case. */
  lemma TitleWeightShape(title: string)
    requires ExtractWeightFromTitle(Some(title)).Some?
    ensures var m := FirstWeightMatch(title).value;
            && m.alt < |PLAIN_UNITS|
            && IsNumberText(NumberText(title, m))
            && ToLower(UnitText(title, m)) == PLAIN_UNITS[m.alt]
            && ExtractWeightFromTitle(Some(title)).value == NumberText(title, m) + " " + UnitText(title, m)
  {
    var m := FirstWeightMatch(title).value;
    UnitOfMatch(title, m);
    var v := NumberText(title, m);
    assert forall k :: 0 <= k < |v| ==> v[k] == title[m.start + k];
  }

  // ---------------------------------------------------------------------
  // getMeasure reads back the unit
  // ---------------------------------------------------------------------

  /** No character of a number or of the blank can begin a unit name. */
  predicate StartsWithLetter(lit: string) {
    |lit| > 0 && !IsDigit(lit[0]) && !IsPoint(lit[0]) && lit[0] != ' '
  }

  /** An occurrence of a unit name in `"<number> <unit>"` lies in the
      unit. */
  lemma ContainsPastNumber(v: string, u: string, lit: string)
    requires IsNumberText(v) && StartsWithLetter(lit)
    ensures Contains(v + " " + u, lit) <==> Contains(u, lit)
  {
    var w := v + " " + u;
    if Contains(w, lit) {
      OccurrencePastNumber(v, u, lit, IndexOf(w, lit).value);
    }
    if Contains(u, lit) {
      var j := IndexOf(u, lit).value;
      var n := |v| + 1;
      assert w[j + n..j + n + |lit|] == u[j..j + |lit|];
      ContainsAt(w, lit, j + n);
    }
  }

  lemma OccurrencePastNumber(v: string, u: string, lit: string, i: nat)
    requires IsNumberText(v) && StartsWithLetter(lit)
    requires StartsAt(v + " " + u, i, lit)
    ensures Contains(u, lit)
  {
    var w := v + " " + u;
    var n := |v| + 1;
    assert w[i] == lit[0];
    if i >= n {
      assert u[i - n..i - n + |lit|] == w[i..i + |lit|];
      ContainsAt(u, lit, i - n);
    }
  }

  /** A string does not contain a name whose first letter it lacks. */
  lemma LacksFirstLetter(u: string, lit: string)
    requires |lit| > 0 && forall k :: 0 <= k < |u| ==> u[k] != lit[0]
    ensures !Contains(u, lit)
  {
  }

  /** Which unit names each plain unit contains. */
  lemma PlainUnitNames(k: nat)
    requires k < |PLAIN_UNITS|
    ensures var u := PLAIN_UNITS[k];
            && (Contains(u, "кг") <==> k == 1)
            && !Contains(u, "kg") && !Contains(u, "g") && !Contains(u, "ml") && !Contains(u, "l")
            && (Contains(u, "г") <==> k <= 1)
            && (Contains(u, "мл") <==> k == 2)
            && (Contains(u, "л") <==> k >= 2)
  {
    var u := PLAIN_UNITS[k];
    NoLatinNames(k);
    if k == 0 {
      ContainsAt(u, "г", 0);
      LacksFirstLetter(u, "кг");
      LacksFirstLetter(u, "мл");
      LacksFirstLetter(u, "л");
    } else if k == 1 {
      ContainsAt(u, "кг", 0);
      ContainsAt(u, "г", 1);
      LacksFirstLetter(u, "мл");
      LacksFirstLetter(u, "л");
    } else if k == 2 {
      ContainsAt(u, "мл", 0);
      ContainsAt(u, "л", 1);
      LacksFirstLetter(u, "кг");
      LacksFirstLetter(u, "г");
    } else {
      ContainsAt(u, "л", 0);
      LacksFirstLetter(u, "кг");
      LacksFirstLetter(u, "г");
      LacksFirstLetter(u, "мл");
    }
  }

  /** The plain units are spelt in Cyrillic only. */
  lemma NoLatinNames(k: nat)
    requires k < |PLAIN_UNITS|
    ensures var u := PLAIN_UNITS[k];
            !Contains(u, "kg") && !Contains(u, "g") && !Contains(u, "ml") && !Contains(u, "l")
  {
    var u := PLAIN_UNITS[k];
    LacksFirstLetter(u, "kg");
    LacksFirstLetter(u, "g");
    LacksFirstLetter(u, "ml");
    LacksFirstLetter(u, "l");
  }

  /** Round trip: the measure of `"<number> <unit>"` for a plain unit is
      that unit. */
  lemma MeasureOfPlainUnit(v: string, k: nat)
    requires IsNumberText(v) && k < |PLAIN_UNITS|
    ensures GetMeasure(v + " " + PLAIN_UNITS[k]) == PLAIN_UNITS[k]
  {
    var u := PLAIN_UNITS[k];
    PlainUnitNames(k);
    ContainsPastNumber(v, u, "кг");
    ContainsPastNumber(v, u, "kg");
    ContainsPastNumber(v, u, "г");
    ContainsPastNumber(v, u, "g");
    ContainsPastNumber(v, u, "мл");
    ContainsPastNumber(v, u, "ml");
    ContainsPastNumber(v, u, "л");
    ContainsPastNumber(v, u, "l");
  }

  /** Hence, when the title spells the unit in lower case, the measure of
      the extracted weight is that unit. */
  lemma TitleWeightRoundTrip(title: string)
    requires ExtractWeightFromTitle(Some(title)).Some?
    requires var m := FirstWeightMatch(title).value; UnitText(title, m) == ToLower(UnitText(title, m))
    ensures var m := FirstWeightMatch(title).value;
            GetMeasure(ExtractWeightFromTitle(Some(title)).value) == UnitText(title, m)
  {
    var m := FirstWeightMatch(title).value;
    TitleWeightShape(title);
    MeasureOfPlainUnit(NumberText(title, m), m.alt);
  }

  /** The unit is kept as spelt: a title spelling the unit in capitals,
      such as `1 КГ`, gives the weight string `1 КГ`, in which `getMeasure`
      finds none of its lower-case names, so the measure is pieces. */
  lemma CapitalUnitIsPieces(title: string)
    requires |title| == 4 && title[0] == '1' && title[1] == ' ' && title[2] == 'К' && title[3] == 'Г'
    ensures ExtractWeightFromTitle(Some(title)) == Some(title)
    ensures GetMeasure(title) == "шт"
  {
    CapitalUnitWeight(title);
    CapitalUnitMeasure(title);
  }

  lemma CapitalUnitWeight(title: string)
    requires |title| == 4 && title[0] == '1' && title[1] == ' ' && title[2] == 'К' && title[3] == 'Г'
    ensures ExtractWeightFromTitle(Some(title)) == Some(title)
  {
    var m := WeightMatch(0, 1, 2, 1);
    assert WeightMatchAt(title, 0) == Some(m) by {
      SpanEndAt(title, 0, 1, IsDigit);
      assert Utils.NumberEnd(title, 0, IsPoint) == 1;
      SpanEndAt(title, 1, 2, JsSpace);
      CapitalKilogramsAlternative(title);
    }
    assert FirstWeightMatch(title) == Some(m);
    var v := NumberText(title, m);
    var u := UnitText(title, m);
    assert u == title[2..4];
    assert Canonical(u) == u by {
      assert u[0] == 'К';
    }
    assert v + " " + u == title by {
      assert v == title[..1];
      assert title == title[..1] + [title[1]] + title[2..4];
    }
  }

  lemma CapitalUnitMeasure(title: string)
    requires |title| == 4 && title[0] == '1' && title[1] == ' ' && title[2] == 'К' && title[3] == 'Г'
    ensures GetMeasure(title) == "шт"
  {
    LacksFirstLetter(title, "кг");
    LacksFirstLetter(title, "kg");
    LacksFirstLetter(title, "г");
    LacksFirstLetter(title, "g");
    LacksFirstLetter(title, "мл");
    LacksFirstLetter(title, "ml");
    LacksFirstLetter(title, "л");
    LacksFirstLetter(title, "l");
  }

  lemma CapitalKilogramsAlternative(s: string)
    requires |s| == 4 && s[2] == 'К' && s[3] == 'Г'
    ensures AlternativeAt(s, 2) == Some(1)
  {
    assert !SameLetter(s[2], UNIT_ALTERNATIVES[0][0]);
    assert StartsAtIgnoringCase(s, 2, UNIT_ALTERNATIVES[1]);
  }

  // ---------------------------------------------------------------------
  // transformData
  // ---------------------------------------------------------------------

  /** A row of the reference CSV, as far as the mapper reads it. Every CSV
      cell is a string; an empty weight is falsy. */
  datatype Reference = Reference(name: string, weight: string, description: string, uuid: string)

  /** A scraped product, as far as the mapper reads it. Numbers that may be
      missing are `None`; `weight` is the API weight in kilograms. The
      identifier, links, image and brand are copied as they are. */
  datatype ScrapedItem = ScrapedItem(
    id: string, name: Option<string>, link: string, image: string, brand: string,
    fullCategoryPath: Option<string>, weight: Option<real>,
    regularPrice: Option<int>, unitPriceBeforeDiscount: Option<int>, discount: Option<int>,
    reviewsQuantity: Option<int>)

  /** The record written for one item. `match_confidence`, computed from
      the fuzzy-search score, is not part of this model. */
  datatype MappedRecord = MappedRecord(
    recordId: string, mercantId: string, mercantName: string, productId: string,
    title: Option<string>, description: Option<string>, url: string, urlPicture: string,
    categoryFullPath: Option<string>, brand: string, subCategory: Option<string>,
    timeScrap: string, measure: string, city: string,
    price: int, originalPrice: int, discount: int, currency: string, inStock: bool,
    weight: string, reviewCount: int, source: string, isActive: bool,
    matchedCsvTitle: string, matchedUuid: Option<string>, bestMatch: string)

  const CITY := "almaty"
  const SOURCE := "kaspi_parser"

  /** `x || 0` on a number that may be missing. */
  function OrZero(x: Option<int>): int {
    if x.Some? then x.value else 0
  }

  /** `Math.round(x * 1000)` for a positive weight in kilograms, in exact
      arithmetic: the nearest integer, halves rounded up. */
  function Grams(kg: real): nat
    requires kg > 0.0
  {
    (kg * 1000.0 + 0.5).Floor
  }

  /** The grams are the weight in grams, rounded to the nearest integer. */
  lemma GramsNearest(kg: real)
    requires kg > 0.0
    ensures (Grams(kg) as real) - 0.5 <= kg * 1000.0 < (Grams(kg) as real) + 0.5
  {
  }

  /** `fullCategoryPath.split(' > ').pop()`, or null for a missing or empty
      path. */
  function SubCategory(path: Option<string>): (r: Option<string>)
    ensures r.None? <==> path.None? || path.value == ""
  {
    if path.None? || path.value == "" then None
    else
      var parts := Split(path.value, Product.CATEGORY_SEPARATOR);
      Some(parts[|parts| - 1])
  }

  /** The sub-category is a single segment of the path. */
  lemma SubCategoryIsOneSegment(path: string)
    requires path != ""
    ensures SubCategory(Some(path)).Some?
    ensures !Contains(SubCategory(Some(path)).value, Product.CATEGORY_SEPARATOR)
  {
    LastPieceHasNoSeparator(path, Product.CATEGORY_SEPARATOR);
  }

  /** The weight string: the title's weight, else the reference row's,
      else the API weight in grams when it is positive, else empty. The
      title extraction is a parameter so that the record can be reasoned
      about without unfolding the pattern. */
  function WeightWith(extract: Option<string> -> Option<string>, item: ScrapedItem, best: Option<Reference>): (w: string)
    ensures extract(item.name).Some? ==> w == extract(item.name).value
    ensures extract(item.name).None? && best.Some? && best.value.weight != "" ==> w == best.value.weight
    ensures extract(item.name).None? && (best.None? || best.value.weight == "") ==>
              (w == "" <==> item.weight.None? || item.weight.value <= 0.0)
  {
    match extract(item.name)
    case Some(w) => w
    case None =>
      if best.Some? && best.value.weight != "" then best.value.weight
      else if item.weight.Some? && item.weight.value > 0.0 then NatToString(Grams(item.weight.value)) + " г"
      else ""
  }

  /** The record for one item, given its best reference match, the two
      identifiers drawn for it and the time stamp; the title extraction and
      the measure are parameters. */
  function RecordWith(extract: Option<string> -> Option<string>, measureOf: string -> string,
                      item: ScrapedItem, best: Option<Reference>, id: string, mercantId: string, now: string): MappedRecord {
    var weight := WeightWith(extract, item, best);
    MappedRecord(
      id, mercantId, "Magnum", item.id,
      item.name, if best.Some? then Some(best.value.description) else None, item.link, item.image,
      item.fullCategoryPath, item.brand, SubCategory(item.fullCategoryPath),
      now, measureOf(weight), CITY,
      OrZero(item.regularPrice), OrZero(item.unitPriceBeforeDiscount), OrZero(item.discount), "KZT", true,
      weight, OrZero(item.reviewsQuantity), SOURCE, true,
      if best.Some? then best.value.name else "UNMATCHED",
      if best.Some? then Some(best.value.uuid) else None,
      if best.Some? then "match" else "none")
  }

  /** The record `transformData` writes for one item. */
  function RecordOf(item: ScrapedItem, best: Option<Reference>, id: string, mercantId: string, now: string): MappedRecord {
    RecordWith(ExtractWeightFromTitle, GetMeasure, item, best, id, mercantId, now)
  }

  /** The loop of `transformData`: one record per scraped item, in order.
      `best[k]` is the fuzzy search's best match for item `k`, and
      `uuid(2k)`, `uuid(2k + 1)` the identifiers drawn for its record. */
  method TransformData(items: seq<ScrapedItem>, best: seq<Option<Reference>>, uuid: nat -> string, now: string)
    returns (finalData: seq<MappedRecord>)
    requires |best| == |items|
    ensures |finalData| == |items|
    ensures forall k :: 0 <= k < |items| ==> finalData[k] == RecordOf(items[k], best[k], uuid(2 * k), uuid(2 * k + 1), now)
  {
    finalData := [];
    for i := 0 to |items|
      invariant |finalData| == i
      invariant MapsTo(ExtractWeightFromTitle, GetMeasure, items, best, uuid, now, finalData)
    {
      var record := MapItem(items[i], best[i], uuid(2 * i), uuid(2 * i + 1), now);
      MapsToStep(ExtractWeightFromTitle, GetMeasure, items, best, uuid, now, finalData, i, record);
      finalData := finalData + [record];
    }
  }

  /** `out` holds the records of the first |out| items. */
  predicate MapsTo(extract: Option<string> -> Option<string>, measureOf: string -> string,
                   items: seq<ScrapedItem>, best: seq<Option<Reference>>, uuid: nat -> string, now: string, out: seq<MappedRecord>)
    requires |best| == |items|
  {
    |out| <= |items| && forall k :: 0 <= k < |out| ==> out[k] == RecordWith(extract, measureOf, items[k], best[k], uuid(2 * k), uuid(2 * k + 1), now)
  }

  lemma MapsToStep(extract: Option<string> -> Option<string>, measureOf: string -> string,
                   items: seq<ScrapedItem>, best: seq<Option<Reference>>, uuid: nat -> string, now: string,
                   out: seq<MappedRecord>, i: nat, r: MappedRecord)
    requires |best| == |items| && MapsTo(extract, measureOf, items, best, uuid, now, out) && i == |out| < |items|
    requires r == RecordWith(extract, measureOf, items[i], best[i], uuid(2 * i), uuid(2 * i + 1), now)
    ensures MapsTo(extract, measureOf, items, best, uuid, now, out + [r])
  {
    var out' := out + [r];
    forall k | 0 <= k < |out'|
      ensures out'[k] == RecordWith(extract, measureOf, items[k], best[k], uuid(2 * k), uuid(2 * k + 1), now)
    {
      if k < |out| {
        assert out'[k] == out[k];
      }
    }
  }

  /** One turn of the loop: choose the weight string by priority, then
      build the record. */
  method MapItem(item: ScrapedItem, bestMatch: Option<Reference>, id: string, mercantId: string, now: string)
    returns (record: MappedRecord)
    ensures record == RecordWith(ExtractWeightFromTitle, GetMeasure, item, bestMatch, id, mercantId, now)
  {
    var weightString := "";
    var titleWeight := ExtractWeightFromTitle(item.name);
    if titleWeight.Some? {
      weightString := titleWeight.value;
    } else if bestMatch.Some? && bestMatch.value.weight != "" {
      weightString := bestMatch.value.weight;
    } else {
      var weightVal := if item.weight.Some? then item.weight.value else 0.0;
      if weightVal > 0.0 {
        var grams := Grams(weightVal);
        weightString := NatToString(grams) + " г";
      }
    }
    var measure := GetMeasure(weightString);
    record := MappedRecord(
      id, mercantId, "Magnum", item.id,
      item.name, if bestMatch.Some? then Some(bestMatch.value.description) else None, item.link, item.image,
      item.fullCategoryPath, item.brand, SubCategory(item.fullCategoryPath),
      now, measure, CITY,
      OrZero(item.regularPrice), OrZero(item.unitPriceBeforeDiscount), OrZero(item.discount), "KZT", true,
      weightString, OrZero(item.reviewsQuantity), SOURCE, true,
      if bestMatch.Some? then bestMatch.value.name else "UNMATCHED",
      if bestMatch.Some? then Some(bestMatch.value.uuid) else None,
      if bestMatch.Some? then "match" else "none");
  }

  // ---------------------------------------------------------------------
  // Properties of the records
  // ---------------------------------------------------------------------

  /** A weight named in the title takes priority over the reference row
      and the API weight; spelt in lower case, it also decides the
      measure. */
  lemma TitleWeightFirst(item: ScrapedItem, best: Option<Reference>, id: string, mercantId: string, now: string)
    requires item.name.Some? && ExtractWeightFromTitle(item.name).Some?
    requires var m := FirstWeightMatch(item.name.value).value;
             UnitText(item.name.value, m) == ToLower(UnitText(item.name.value, m))
    ensures var r := RecordOf(item, best, id, mercantId, now);
            var m := FirstWeightMatch(item.name.value).value;
            && r.weight == ExtractWeightFromTitle(item.name).value
            && r.measure == UnitText(item.name.value, m)
            && r.measure in PLAIN_UNITS
  {
    var m := FirstWeightMatch(item.name.value).value;
    TitleWeightRoundTrip(item.name.value);
    UnitOfMatch(item.name.value, m);
  }

  /** Without a weight in the title, a non-empty reference weight is taken
      as it is. */
  lemma ReferenceWeightSecond(item: ScrapedItem, ref: Reference, id: string, mercantId: string, now: string)
    requires ExtractWeightFromTitle(item.name).None? && ref.weight != ""
    ensures var r := RecordOf(item, Some(ref), id, mercantId, now);
            r.weight == ref.weight && r.measure == GetMeasure(ref.weight)
  {
  }

  /** Without either, a positive API weight is written in grams, and the
      measure is grams. */
  lemma ApiWeightLast(item: ScrapedItem, best: Option<Reference>, id: string, mercantId: string, now: string)
    requires ExtractWeightFromTitle(item.name).None? && (best.None? || best.value.weight == "")
    requires item.weight.Some? && item.weight.value > 0.0
    ensures var r := RecordOf(item, best, id, mercantId, now);
            var grams := Grams(item.weight.value);
            && r.weight == NatToString(grams) + " г"
            && DigitsValue(NatToString(grams)) == grams
            && r.measure == "г"
  {
    var grams := Grams(item.weight.value);
    ApiRecord(ExtractWeightFromTitle, GetMeasure, item, best, id, mercantId, now);
    GramsMeasure(grams);
  }

  /** The weight and the measure of a record whose weight comes from the
      API. */
  lemma ApiRecord(extract: Option<string> -> Option<string>, measureOf: string -> string,
                  item: ScrapedItem, best: Option<Reference>, id: string, mercantId: string, now: string)
    requires extract(item.name).None? && (best.None? || best.value.weight == "")
    requires item.weight.Some? && item.weight.value > 0.0
    ensures var r := RecordWith(extract, measureOf, item, best, id, mercantId, now);
            var w := NatToString(Grams(item.weight.value)) + " г";
            r.weight == w && r.measure == measureOf(w)
  {
  }

  lemma GramsUnit(v: string)
    ensures v + " " + PLAIN_UNITS[0] == v + " г"
  {
    assert " " + PLAIN_UNITS[0] == " г";
  }

  /** A weight written in grams reads back as those grams, in grams. */
  lemma GramsMeasure(grams: nat)
    ensures DigitsValue(NatToString(grams)) == grams
    ensures GetMeasure(NatToString(grams) + " г") == "г"
  {
    var digits := NatToString(grams);
    DigitsValueOfNatToString(grams);
    assert IsNumberText(digits);
    MeasureOfPlainUnit(digits, 0);
    assert digits + " " + PLAIN_UNITS[0] == digits + " г" by {
      GramsUnit(digits);
    }
  }

  /** With no weight anywhere, the weight is empty and the measure is
      pieces. */
  lemma NoWeightAnywhere(item: ScrapedItem, best: Option<Reference>, id: string, mercantId: string, now: string)
    requires ExtractWeightFromTitle(item.name).None? && (best.None? || best.value.weight == "")
    requires item.weight.None? || item.weight.value <= 0.0
    ensures var r := RecordOf(item, best, id, mercantId, now);
            r.weight == "" && r.measure == "шт"
  {
  }

  /** The sub-category of a path the crawler wrote is the deepest category
      of the product, when no category name contains '>'. */
  lemma SubCategoryOfCrawledPath(cs: seq<string>)
    requires |cs| > 0 && Product.PlainNames(cs) && cs[|cs| - 1] != ""
    ensures SubCategory(Some(Join(cs, Product.CATEGORY_SEPARATOR))) == Some(cs[|cs| - 1])
  {
    SubCategoryOfJoin(cs);
    Product.DeepestCategory(cs);
  }

  lemma SubCategoryOfJoin(cs: seq<string>)
    requires |cs| > 0 && cs[|cs| - 1] != ""
    ensures var path := Join(cs, Product.CATEGORY_SEPARATOR);
            var parts := Split(path, Product.CATEGORY_SEPARATOR);
            SubCategory(Some(path)) == Some(parts[|parts| - 1])
  {
    JoinKeepsLast(cs, Product.CATEGORY_SEPARATOR);
    SubCategoryIsLastPiece(Join(cs, Product.CATEGORY_SEPARATOR));
  }

  lemma SubCategoryIsLastPiece(path: string)
    requires path != ""
    ensures var parts := Split(path, Product.CATEGORY_SEPARATOR);
            SubCategory(Some(path)) == Some(parts[|parts| - 1])
  {
  }

  /** A joined list is at least as long as its last element. */
  lemma {:induction false} JoinKeepsLast(cs: seq<string>, sep: string)
    requires |cs| > 0
    ensures |Join(cs, sep)| >= |cs[|cs| - 1]|
    decreases |cs|
  {
    if |cs| > 1 {
      JoinKeepsLast(cs[1..], sep);
    }
  }
}
