/**
 * `buildProductObject`: the record the crawler stores for one catalogue
 * item. src/product.js builds it with the measure read from the title, the
 * fixed shop link and the category's city; the copy in index.js uses a
 * fixed measure, no city and the shop link as given.
 *
 * The two fresh uuids and the timestamp are parameters. Fields that are
 * constants in every record (merchant, currency, nulls, empty lists) and
 * `rating` are not represented.
 */
module Product {
  import opened Wrappers
  import opened Text
  import opened Utils

  /** The fields of the stored record that depend on the item. */
  datatype Product = Product(
    uuid: string,
    id: string,
    productId: string,
    title: Option<string>,
    url: Option<string>,
    productUrl: Option<string>,
    urlPicture: Option<string>,
    images: seq<string>,
    categoryFullPath: Option<string>,
    brand: Option<string>,
    measure: Option<string>,
    weight: Option<string>,
    volume: Option<string>,
    city: Option<string>,
    price: int,
    originalPrice: int,
    discount: int,
    reviewCount: int,
    inStock: bool,
    timeScrap: string)

  const SITE := "https://kaspi.kz"
  const CATEGORY_SEPARATOR := " > "
  /** The measure the standalone crawler writes into every record. */
  const DEFAULT_MEASURE := "граммы"

  /** `value || null` for a string where "" stands for a falsy value. */
  function NonEmpty(s: string): (r: Option<string>)
    ensures r.None? <==> s == ""
    ensures r.Some? ==> r.value == s
  {
    if s == "" then None else Some(s)
  }

  /** `img.large || img.url || null`, throwing on a null entry. */
  function PictureOf(img: Image): Result<string, ItemError> {
    match img
    case ImageNull => Err(NullImage)
    case Image(large, url) => Ok(if large != "" then large else url)
  }

  /** `previewImages.map(img => img.large || img.url || null).filter(Boolean)`. */
  function PicturesOf(es: seq<Image>): (r: Result<seq<string>, ItemError>)
    ensures r.Ok? ==> |r.value| <= |es| && forall k :: 0 <= k < |r.value| ==> r.value[k] != ""
  {
    if es == [] then Ok([])
    else
      match PictureOf(es[0])
      case Err(e) => Err(e)
      case Ok(p) =>
        match PicturesOf(es[1..])
        case Err(e) => Err(e)
        case Ok(rest) => Ok(if p == "" then rest else [p] + rest)
  }

  /** The list fails exactly when one of its entries is null. */
  lemma {:induction false} PicturesFailOnNull(es: seq<Image>)
    ensures PicturesOf(es).Err? <==> exists k :: 0 <= k < |es| && es[k].ImageNull?
    decreases |es|
  {
    if es != [] {
      PicturesFailOnNull(es[1..]);
      if PicturesOf(es[1..]).Err? {
        var k :| 0 <= k < |es[1..]| && es[1..][k].ImageNull?;
        assert es[k + 1].ImageNull?;
      }
      if PicturesOf(es).Err? && !es[0].ImageNull? {
        var k :| 0 <= k < |es[1..]| && es[1..][k].ImageNull?;
        assert es[k + 1].ImageNull?;
      }
      forall k | 1 <= k < |es| && es[k].ImageNull? ensures es[1..][k - 1].ImageNull? {
      }
    }
  }

  /** A value that is not an array counts as no images at all. */
  function ImagesOf(previewImages: Option<seq<Image>>): (r: Result<seq<string>, ItemError>)
    ensures r.Err? <==> previewImages.Some? && exists k :: 0 <= k < |previewImages.value| && previewImages.value[k].ImageNull?
  {
    match previewImages
    case None => Ok([])
    case Some(es) =>
      PicturesFailOnNull(es);
      PicturesOf(es)
  }

  /** The pictures are taken entry by entry, in order: the images of two
      lists one after the other are the images of the first followed by
      those of the second. */
  lemma {:induction false} PicturesOfAppend(a: seq<Image>, b: seq<Image>)
    requires PicturesOf(a).Ok? && PicturesOf(b).Ok?
    ensures PicturesOf(a + b) == Ok(PicturesOf(a).value + PicturesOf(b).value)
  {
    if a != [] {
      var x, t := a[0], a[1..];
      assert PictureOf(x).Ok? && PicturesOf(t).Ok? by {
        assert a == [x] + t;
        PicturesOfCons(x, t);
      }
      PicturesOfAppend(t, b);
      assert a == [x] + t && a + b == [x] + (t + b);
      PicturesOfConsAppend(x, t, b);
    } else {
      assert a + b == b;
      assert PicturesOf(a).value + PicturesOf(b).value == PicturesOf(b).value;
    }
  }

  lemma PicturesOfConsAppend(x: Image, t: seq<Image>, b: seq<Image>)
    requires PictureOf(x).Ok? && PicturesOf(t).Ok? && PicturesOf(b).Ok?
    requires PicturesOf(t + b) == Ok(PicturesOf(t).value + PicturesOf(b).value)
    ensures PicturesOf([x] + (t + b)) == Ok(PicturesOf([x] + t).value + PicturesOf(b).value)
  {
    PicturesOfCons(x, t);
    PicturesOfCons(x, t + b);
    var p := PictureOf(x).value;
    if p != "" {
      ConsAssoc(p, PicturesOf(t).value, PicturesOf(b).value);
    }
  }

  lemma ConsAssoc<T>(x: T, a: seq<T>, b: seq<T>)
    ensures ([x] + a) + b == [x] + (a + b)
  {
  }

  /** The first entry, then the others. */
  lemma PicturesOfCons(x: Image, t: seq<Image>)
    ensures PicturesOf([x] + t).Ok? <==> PictureOf(x).Ok? && PicturesOf(t).Ok?
    ensures PicturesOf([x] + t).Ok? ==>
              var p := PictureOf(x).value;
              PicturesOf([x] + t).value == if p == "" then PicturesOf(t).value else [p] + PicturesOf(t).value
  {
    assert ([x] + t)[0] == x;
    assert ([x] + t)[1..] == t;
  }

  /** One entry: its large picture, else its plain one, else nothing. */
  lemma PicturesOfOne(large: string, url: string)
    ensures PicturesOf([Image(large, url)]) ==
              Ok(if large != "" then [large] else if url != "" then [url] else [])
  {
    assert [Image(large, url)][1..] == [];
    var p := if large != "" then large else url;
    assert [p] + [] == [p];
  }

  /** `a || b || ... || 0` over numbers: the first non-zero value. */
  function FirstTruthy(xs: seq<int>): (r: int)
    ensures r == 0 <==> forall k :: 0 <= k < |xs| ==> xs[k] == 0
    ensures r != 0 ==> exists k :: 0 <= k < |xs| && xs[k] == r && forall j :: 0 <= j < k ==> xs[j] == 0
  {
    if xs == [] then 0
    else if xs[0] != 0 then xs[0]
    else
      var r := FirstTruthy(xs[1..]);
      assert forall k :: 1 <= k < |xs| ==> xs[k] == xs[1..][k - 1];
      if r != 0 then
        var k :| 0 <= k < |xs[1..]| && xs[1..][k] == r && forall j :: 0 <= j < k ==> xs[1..][j] == 0;
        assert xs[k + 1] == r;
        r
      else r
  }

  /** `item.id ? String(item.id) : uuidv4()`. */
  function IdOf(item: Item, freshId: string): string {
    match item.id
    case Some(i) => i
    case None => freshId
  }

  /** `item.inStock == null ? true : Boolean(item.inStock)`. */
  function InStockOf(item: Item): bool {
    match item.inStock
    case None => true
    case Some(b) => b
  }

  /** `item.category ? item.category.join(' > ') : null`. */
  function CategoryPathOf(item: Item): Option<string> {
    match item.category
    case None => None
    case Some(cs) => Some(Join(cs, CATEGORY_SEPARATOR))
  }

  /** The product link before the "/shop" fix: the site-relative shop link
      when there is one, else the absolute url, else null. */
  function BaseUrl(item: Item): (r: Option<string>)
    ensures item.shopLink != "" ==> r == Some(SITE + item.shopLink)
    ensures item.shopLink == "" ==> r == NonEmpty(item.url)
  {
    if item.shopLink != "" then Some(SITE + item.shopLink) else NonEmpty(item.url)
  }

  /** The fields both builders share. */
  function Record(item: Item, id: string, uuid: string, now: string, images: seq<string>,
                  url: Option<string>, m: Measurement, city: Option<string>): Product
  {
    Product(
      uuid := uuid,
      id := id,
      productId := id,
      title := NonEmpty(item.title),
      url := url,
      productUrl := url,
      urlPicture := if |images| > 0 then Some(images[0]) else None,
      images := images,
      categoryFullPath := CategoryPathOf(item),
      brand := NonEmpty(item.brand),
      measure := m.measure,
      weight := m.weight,
      volume := m.volume,
      city := city,
      price := FirstTruthy([item.unitPrice, item.price]),
      originalPrice := FirstTruthy([item.unitSalePrice, item.unitPriceBeforeDiscount, item.unitPrice, item.price]),
      discount := item.discount,
      reviewCount := item.reviewsQuantity,
      inStock := InStockOf(item),
      timeScrap := now)
  }

  /** The record of src/product.js. `freshId` is the uuid used when the item
      has no id, `uuid` the record's own uuid, `now` the timestamp. A null
      preview image makes the build throw. */
  function BuildProductObject(item: Item, city: Option<string>, freshId: string, uuid: string, now: string): (r: Result<Product, ItemError>)
    ensures r.Err? <==> item.previewImages.Some? && exists k :: 0 <= k < |item.previewImages.value| && item.previewImages.value[k].ImageNull?
    ensures r.Ok? ==>
              var p := r.value;
              && p.id == (if item.id.Some? then item.id.value else freshId)
              && p.productId == p.id
              && p.url == p.productUrl == FixProductUrl(BaseUrl(item))
              && (p.urlPicture.Some? <==> |p.images| > 0)
              && (p.urlPicture.Some? ==> p.urlPicture.value == p.images[0] != "")
              && (forall k :: 0 <= k < |p.images| ==> p.images[k] != "")
              && Measurement(p.measure, p.weight, p.volume) == ExtractMeasureAndWeight(item.title)
              && p.city == city
              && p.inStock == (item.inStock.None? || item.inStock.value)
              && p.images == ImagesOf(item.previewImages).value
              && p.categoryFullPath == CategoryPathOf(item)
              && p.title == NonEmpty(item.title)
              && p.price == FirstTruthy([item.unitPrice, item.price])
              && p.originalPrice == FirstTruthy([item.unitSalePrice, item.unitPriceBeforeDiscount, item.unitPrice, item.price])
              && p.brand == NonEmpty(item.brand)
              && p.discount == item.discount && p.reviewCount == item.reviewsQuantity
              && p.uuid == uuid && p.timeScrap == now
  {
    match ImagesOf(item.previewImages)
    case Err(e) => Err(e)
    case Ok(images) =>
      Ok(Record(item, IdOf(item, freshId), uuid, now, images,
                FixProductUrl(BaseUrl(item)), ExtractMeasureAndWeight(item.title), city))
  }

  /** The record of index.js: the same derivation, but the shop link is
      stored without the "/shop" fix, the measure is always "граммы",
      weight and volume are null and there is no city. */
  function BuildProductStandalone(item: Item, freshId: string, uuid: string, now: string): (r: Result<Product, ItemError>)
    ensures r.Err? <==> item.previewImages.Some? && exists k :: 0 <= k < |item.previewImages.value| && item.previewImages.value[k].ImageNull?
    ensures r.Ok? ==>
              var p := r.value;
              && p.id == (if item.id.Some? then item.id.value else freshId)
              && p.productId == p.id
              && p.url == p.productUrl == BaseUrl(item)
              && (p.urlPicture.Some? <==> |p.images| > 0)
              && (forall k :: 0 <= k < |p.images| ==> p.images[k] != "")
              && p.measure == Some(DEFAULT_MEASURE) && p.weight.None? && p.volume.None?
              && p.city.None?
              && p.inStock == (item.inStock.None? || item.inStock.value)
              && p.images == ImagesOf(item.previewImages).value
              && p.categoryFullPath == CategoryPathOf(item)
              && p.title == NonEmpty(item.title)
              && p.price == FirstTruthy([item.unitPrice, item.price])
              && p.originalPrice == FirstTruthy([item.unitSalePrice, item.unitPriceBeforeDiscount, item.unitPrice, item.price])
              && p.brand == NonEmpty(item.brand)
              && p.discount == item.discount && p.reviewCount == item.reviewsQuantity
              && p.uuid == uuid && p.timeScrap == now
  {
    match ImagesOf(item.previewImages)
    case Err(e) => Err(e)
    case Ok(images) =>
      Ok(Record(item, IdOf(item, freshId), uuid, now, images,
                BaseUrl(item), Measurement(Some(DEFAULT_MEASURE), None, None), None))
  }

  /** The two copies agree on everything except the link, the measure
      fields and the city; applying the "/shop" fix to the standalone link
      gives the modular one. */
  lemma BuildersAgree(item: Item, city: Option<string>, freshId: string, uuid: string, now: string)
    ensures BuildProductObject(item, city, freshId, uuid, now).Ok? == BuildProductStandalone(item, freshId, uuid, now).Ok?
    ensures BuildProductObject(item, city, freshId, uuid, now).Ok? ==>
              var p := BuildProductObject(item, city, freshId, uuid, now).value;
              var q := BuildProductStandalone(item, freshId, uuid, now).value;
              && p.url == FixProductUrl(q.url)
              && p == q.(url := p.url, productUrl := p.url, measure := p.measure,
                         weight := p.weight, volume := p.volume, city := city)
  {
  }

  /** The price prefers the unit price, the original price prefers the
      sale price, then the price before discount; a missing value falls
      through to the next, and all missing gives 0. */
  lemma PricePreference(item: Item, city: Option<string>, freshId: string, uuid: string, now: string)
    requires BuildProductObject(item, city, freshId, uuid, now).Ok?
    ensures var p := BuildProductObject(item, city, freshId, uuid, now).value;
              && (item.unitPrice != 0 ==> p.price == item.unitPrice)
              && (item.unitPrice == 0 ==> p.price == item.price)
              && (item.unitSalePrice != 0 ==> p.originalPrice == item.unitSalePrice)
              && (item.unitSalePrice == 0 && item.unitPriceBeforeDiscount != 0 ==> p.originalPrice == item.unitPriceBeforeDiscount)
              && (item.unitSalePrice == 0 && item.unitPriceBeforeDiscount == 0 ==> p.originalPrice == p.price)
  {
    var xs := [item.unitSalePrice, item.unitPriceBeforeDiscount, item.unitPrice, item.price];
    var ys := [item.unitPriceBeforeDiscount, item.unitPrice, item.price];
    var zs := [item.unitPrice, item.price];
    assert xs[1..] == ys && ys[1..] == zs;
    assert item.unitSalePrice == 0 ==> FirstTruthy(xs) == FirstTruthy(ys);
    assert item.unitPriceBeforeDiscount != 0 ==> FirstTruthy(ys) == item.unitPriceBeforeDiscount;
    assert item.unitPriceBeforeDiscount == 0 ==> FirstTruthy(ys) == FirstTruthy(zs);
    assert zs[1..] == [item.price] && [item.price][1..] == [];
    assert FirstTruthy([item.price]) == item.price;
    assert item.unitPrice == 0 ==> FirstTruthy(zs) == item.price;
  }

  /** No category name contains the '>' of the separator. */
  predicate PlainNames(cs: seq<string>) {
    forall k :: 0 <= k < |cs| ==> '>' !in cs[k]
  }

  /** The category path splits back into the categories, so its last
      segment is the deepest category (what the data mapper later reads as
      the sub-category), provided no category name contains '>'. */
  lemma {:induction false} CategoryPathRoundTrip(cs: seq<string>)
    requires |cs| > 0 && PlainNames(cs)
    ensures Split(Join(cs, CATEGORY_SEPARATOR), CATEGORY_SEPARATOR) == cs
  {
    var sep := CATEGORY_SEPARATOR;
    var s := Join(cs, sep);
    var n := |cs[0]|;
    forall j | 0 <= j < n || (|cs| == 1 && n <= j)
      ensures !StartsAt(s, j, sep)
    {
      if j + 1 < |s| {
        if |cs| > 1 {
          assert s == cs[0] + sep + Join(cs[1..], sep);
          if j + 1 < n { assert s[j + 1] == cs[0][j + 1]; } else { assert s[j + 1] == ' '; }
        } else {
          assert s[j + 1] == cs[0][j + 1];
        }
        assert s[j + 1] != sep[1];
      }
    }
    if |cs| == 1 {
      assert IndexOf(s, sep).None?;
    } else {
      var rest := Join(cs[1..], sep);
      assert s == cs[0] + sep + rest;
      assert StartsAt(s, n, sep);
      assert IndexOf(s, sep) == Some(n);
      assert s[..n] == cs[0];
      assert s[n + |sep|..] == rest;
      assert PlainNames(cs[1..]) by {
        forall k | 0 <= k < |cs[1..]| ensures '>' !in cs[1..][k] {
          assert cs[1..][k] == cs[k + 1];
        }
      }
      CategoryPathRoundTrip(cs[1..]);
      assert [cs[0]] + cs[1..] == cs;
    }
  }

  /** The last segment of a category path is the deepest category. */
  lemma DeepestCategory(cs: seq<string>)
    requires |cs| > 0 && PlainNames(cs)
    ensures var parts := Split(Join(cs, CATEGORY_SEPARATOR), CATEGORY_SEPARATOR);
              parts[|parts| - 1] == cs[|cs| - 1]
  {
    CategoryPathRoundTrip(cs);
  }
}
