# kaspi_bulk_parser in Dafny

This project models the sequential logic of kaspi_bulk_parser, a crawler for
the product-listing pages of kaspi.kz, and of its offline data-cleaning
scripts. The crawler has two copies: the modular `src/` tree and the
standalone `index.js`. For each category URL it:

- walks the listing pages in batches of consecutive page numbers;
- gives every page URL a page number and a fresh `requestId`;
- fetches each page with retry and back-off;
- keeps the items sold by Magnum;
- turns each kept item into a product record;
- stores each record once per id, writing a checkpoint every 500 new products.

The scripts around it:

- `kaspi_generator.js` expands a category URL into one search link per
  generated phrase;
- `mapper.js` (and its copy `src/mappers/mapper.js`) maps scraped products to
  database records;
- `parse_fix.py` fills in missing weights and volumes from product titles;
- `link_get.py` lists the leaf categories of the catalogue tree;
- `change_categ.js` moves category URLs to another zone and city.

Modules, one per file:

| module | file | models |
|---|---|---|
| `Wrappers` | wrappers.dfy | `Option` and `Result`. They stand for `null` and for thrown exceptions. |
| `Text` | text.dfy | String helpers: literal search, `replace`, `split`/`join`, `trim`, the `\s` classes, `String(n)` and case folding. |
| `Utils` | utils.dfy | `isMagnumProduct`, `extractCityFromUrl`, `fixProductUrl`, `extractMeasureAndWeight`, and the raw item they read. |
| `Store` | store.dfy | The dedup store: `seenIds`, `allResults`, `totalFound` and `addProduct`. It is a class, and the checkpoint writes go into a ghost log. |
| `Fetch` | fetch.dfy | `fetchWithRetry` over an outcome oracle. The pauses are returned as a list. |
| `Product` | product.dfy | Both `buildProductObject` variants. |
| `Parser` | parser.dfy | `processCategory`: page and `requestId` URL rewriting, the batch plan, the stop rule, the item filter and the match count. |
| `Generator` | generator.dfy | `extractCategoryFromQ`, the category fallback, link rewriting, the phrase fallback parsing, `retry` and `processUrl`. |
| `Mapper` | mapper.dfy | `extractWeightFromTitle`, `getMeasure`, the weight priority, `sub_category` and the `transformData` loop. |
| `ParseFix` | parse_fix.dfy | `extract_measurement` and `clean_products`. |
| `LinkGet` | link_get.dfy | The `find_leaf_categories` tree walk and URL emission. |
| `ChangeCateg` | change_categ.dfy | `modifyCategoryUrl` and `modifyCategoryUrls`. |

How side effects and randomness become parameters:

- **Network.** `fetchWithRetry` takes a function from attempt number to
  outcome. `processCategory` takes a function from page number to that
  page's items. The language-model call becomes the reply text, the parsed
  array, or a function from call number to outcome.
- **Randomness and time.** The uuids, request tokens, random request ids and
  timestamps are parameters.
- **Sleeping.** Pauses are returned as lists of milliseconds instead of
  being taken.
- **File writes.** The checkpoint writes are a ghost log. Entry k is the
  list as it stood at the k-th write.

The configuration constants come from `src/config.js` and `index.js`:
`CHECKPOINT_INTERVAL` = 500, `MAX_RETRIES` = 4, `PAGE_PARALLEL` = 3,
`MAX_PAGE` = 300, and the city codes 750000000 (Almaty) and 710000000
(Astana).

## Model

| member | source | states |
|---|---|---|
| `Store.DedupStore.constructor` | index.js:45-47 | The store starts with no ids, no products, a zero counter and no checkpoints. The same three globals are declared at src/utils.js:8-10. |
| `Store.DedupStore.AddProduct` | src/utils.js:17-26 | Returns true iff the id is unseen. On true, the id joins the set, the product is appended and the counter goes up by one. A checkpoint of the whole list is logged exactly when the counter reaches a multiple of 500. On false nothing changes. The invariant `Valid` is kept throughout. The same function is at index.js:56-65. |
| `Store.ConsistentAdd` | src/utils.js:17-22 | Adding a new id preserves the invariant. The set equals the ids of the list, the ids are distinct, and set, list and counter have the same size. There are exactly `|list| / 500` checkpoints, and checkpoint k holds the first (k+1)*500 products. |
| `Store.LoggedStep` | src/utils.js:21-22 | Appending a product and logging a checkpoint exactly when the new length is a multiple of 500 keeps the log equal to the list's prefixes at multiples of 500. |
| `Store.DivStep` | src/utils.js:22 | One more product raises `n / 500` by one exactly when `n + 1` is a multiple of 500. |
| `Store.Accept` | src/utils.js:17-26 | The products a run of `addProduct` keeps, from a given set of known ids. They have distinct ids, none of which was already known. Together with the known ids, they cover the ids offered. Every kept product was offered, and no more are kept than were offered. |
| `Store.AcceptStep` | src/utils.js:18-25 | Offering one more product extends the kept list by that product exactly when its id is neither known nor already kept. |
| `Store.FeedIsAccept` | src/utils.js:17-26 | Running `addProduct` over a list of products from any store state appends exactly the accepted products and adds exactly their ids. |
| `Store.DistinctAppend` | src/utils.js:18-20 | Appending a product with a new id keeps the ids distinct. |
| `Fetch.FetchWithRetry` | src/utils.js:98-125 | Makes at most `max(retries, 0)` attempts, so none when `retries <= 0`. Returns the payload of the first 2xx attempt and has made no earlier successful attempt. Returns null only after exactly `max(retries, 0)` attempts, all failed. The pauses taken are exactly `Pauses` of the attempts made, including one after the last failed attempt. The same loop is at index.js:73-102. |
| `Fetch.Delay` | src/utils.js:104-121 | The back-off after attempt n is `min(5000, 500 n)` for a 429 status and `500 n` for a status of 400 or more or a thrown error, so never more than `500 n`. |
| `Fetch.Pause` | src/utils.js:104-121 | At most one pause per attempt. There is none after a 2xx or a 3xx answer; the HTTP client rejects statuses below 200 or from 500 up (index.js:39), which therefore count as thrown. |
| `Fetch.PauseBounded` | src/utils.js:105-118 | Attempt n pauses at most once and for at most `500 n` ms. |
| `Fetch.PausesCount` | src/utils.js:100-121 | k attempts pause at most k times. |
| `Fetch.PausesBounded` | src/utils.js:100-121 | k attempts wait at most `500 (1 + 2 + ... + k)` ms in total. |
| `Fetch.DefaultBackoffBudget` | index.js:14 | With the default of four attempts, the waits add up to at most 5000 ms. |
| `Fetch.RateLimitedThenOk` | src/utils.js:104-110 | Three 429 answers and then a 200 answer pause 500, 1000 and 1500 ms, and the fourth attempt delivers. |
| `Fetch.RateLimitCap` | src/utils.js:105 | From the tenth attempt on, a 429 answer pauses the 5000 ms cap. |
| `Utils.MerchantNames` | src/utils.js:140-143 | The names of the merchant entries (a string, or an object's `name`), with empty names dropped. Reading the `name` of a null entry throws. |
| `Utils.IsMagnumProduct` | src/utils.js:136-147 | Throws iff `majorMerchants` is an array with a null entry. Otherwise it is true iff the stickers include `magnum_offer_available` or some merchant's name contains "magnum" after lower-casing. A non-array `majorMerchants` contributes nothing. The same code is at index.js:116-127. |
| `Utils.MagnumNameIff` | src/utils.js:144 | Some kept merchant name mentions "magnum" in any case iff some merchant entry does. |
| `Utils.CityCode` | src/utils.js:34 | The digits of the first `[&?]c=<digits>` of the URL, which are non-empty and all digits. |
| `Utils.ExtractCityFromUrl` | src/utils.js:33-39 | Almaty iff the first city code is 750000000, Astana iff it is 710000000, and null for any other code or no match. |
| `Utils.CityOfFirstParameter` | src/utils.js:33-39 | A URL whose first `c=` parameter after `?` or `&` carries a code yields exactly that code. |
| `Utils.FixProductUrl` | src/utils.js:90-93 | Null iff the URL is missing or empty. A URL without `https://kaspi.kz/p/` is returned unchanged. |
| `Utils.ShopLinkIsFixed` | src/utils.js:92 | `https://kaspi.kz/p/` at the start becomes `https://kaspi.kz/shop/p/`, and the rest is kept. |
| `Utils.NumberEnd` | src/utils.js:49 | The greedy end of `\d+(?:[.,]\d+)?`, made of digits and decimal marks only. |
| `Utils.FindAmount` | src/utils.js:48-58 | The captured amount is present iff the pattern `(\d+(?:[.,]\d+)?)\s*UNIT(?:\s|$|\.)` matches somewhere, case-insensitively. It is the number at the leftmost match: the match starts there, no earlier position matches, and the amount runs from that start to the end of the greedy number. |
| `Utils.FirstMeasurement` | src/utils.js:57-84 | The result is well shaped: a volume has no weight, a weight has no volume, and a count has weight equal to volume. It is all null iff no pattern matched. Otherwise some pattern k decides it: k has a match, no earlier pattern has one, and the result is k's measure with k's amount (`,` read as `.`) placed by k's kind. |
| `Utils.FirstDecides` | src/utils.js:57-82 | The first pattern with a match gives the result: its measure, and its amount as weight, volume or both. |
| `Utils.ExtractMeasureAndWeight` | src/utils.js:44-85 | The same facts for the real pattern list (мл, л, г, кг, mg, шт): all null iff no pattern matches; otherwise the first matching pattern decides the measure and the value. |
| `Utils.AmountOfTitle` | src/utils.js:57-82 | When pattern k is the first that matches the title, the result is k's measure, and its weight and/or volume is the number captured at k's leftmost match with `,` replaced by `.`. |
| `Utils.FirstMatchWins` | src/utils.js:57-82 | Pattern k decides the measure iff it matches and no earlier pattern does. |
| `Utils.MeasureOfTitle` | src/utils.js:57-82 | For the real pattern list, a title reports pattern k's measure iff pattern k matches the title and no earlier pattern does. |
| `Utils.FirstMatchOfTitle` | src/utils.js:57-58 | First match wins, stated for the amounts read from a title by any list of patterns with distinct measures. |
| `Product.PicturesOf` | src/product.js:9-12 | `large || url` of each preview image with the empty ones dropped: no more pictures than entries, and none empty. |
| `Product.PicturesFailOnNull` | src/product.js:11 | Taking the pictures throws iff some entry is null. |
| `Product.ImagesOf` | src/product.js:9 | A missing `previewImages` array counts as no images, so the images throw iff the array holds a null entry. |
| `Product.PicturesOfAppend` | src/product.js:10-12 | Pictures are taken entry by entry and in order: the pictures of a concatenation are the concatenation of the pictures. |
| `Product.PicturesOfOne` | src/product.js:11 | One entry gives its large picture, else its plain one, else nothing. |
| `Product.FirstTruthy` | src/product.js:45-52 | `a || b || ... || 0`: zero iff all are zero, otherwise the first non-zero value. |
| `Product.BaseUrl` | src/product.js:18 | `https://kaspi.kz` plus the shop link when there is a shop link, else `item.url || null`. |
| `Product.BuildProductObject` | src/product.js:5-86 | Throws iff a preview image is null. Otherwise: `id` is the item's id when present, else the fresh uuid, and `productId` equals `id`. `url` and `productUrl` both equal `fixProductUrl` of the base URL. `images` are exactly the pictures of `previewImages` in order; `url_picture` is the first of them when there is one, else null, and no image is empty. `category_full_path` is the categories joined by `' > '`, or null. `title` is the title or null, and `brand` the brand or null. `discount` and `reviewCount` are the item's `discount` and `reviewsQuantity`, 0 when missing. `price` and `originalPrice` are the first non-zero of their fallback chains. `measure`, `weight` and `volume` are exactly `extractMeasureAndWeight(title)`. `city` is the argument. `inStock` is true when the item's value is missing, else that value. The uuid and timestamp are the ones given. |
| `Product.BuildProductStandalone` | index.js:132-206 | The same derivation with these differences: `url` and `productUrl` are the base URL without the `/shop` fix, `measure` is `граммы`, weight and volume are null, and city is null. |
| `Product.BuildersAgree` | index.js:152 | The two copies fail on the same items and build the same record apart from the link, the measure fields and the city. Fixing the standalone link gives the modular one. |
| `Product.PricePreference` | src/product.js:45-52 | `price` is the unit price if non-zero, else the price. `originalPrice` is the sale price if non-zero, else the price before discount if non-zero, else the same value as `price`. |
| `Product.CategoryPathRoundTrip` | src/product.js:35 | Splitting `category.join(' > ')` on `' > '` gives back the categories, when no name contains `>`. |
| `Product.DeepestCategory` | src/product.js:35 | The last segment of the category path is the deepest category. |
| `Parser.PageParam` | src/parser.js:29 | The position of the first `page=<digits>`, or none when the URL has no such parameter. |
| `Parser.PageUrl` | src/parser.js:42-46 | With a page parameter, only the digits of the first `page=<digits>` change: everything before them and everything after them is kept, and they become `String(p)`. Without one, the URL is kept whole and `&page=p` is appended when it has a `?`, `?page=p` otherwise. |
| `Parser.PageUrlRoundTrip` | src/parser.js:42-46 | Reading the first `page=<digits>` back from the URL of page p gives p, in both branches. |
| `Parser.RequestIdParam` | src/parser.js:48 | The position of the first `requestId=` followed by at least one character other than `&`. |
| `Parser.WithRequestId` | src/parser.js:48-51 | The result always contains `requestId=`. With a non-empty value, only the value of the first `requestId=` changes: everything before it and everything from the next `&` on is kept, and the value becomes the token. A URL containing `requestId=` with an empty value is unchanged. A URL without the key is kept whole and gets `requestId=<token>` appended after `&` or `?`. |
| `Parser.RequestIdRoundTrip` | src/parser.js:48-51 | When the URL has a non-empty `requestId=` value or no `requestId=` at all, the first `requestId=` value of the result is the fresh token. |
| `Parser.FlattenChained` | src/parser.js:36-38 | The pages of batches that each start where the previous one ended, taken in order, count up by one from the first page, and there are as many as the span from the first to the last page. |
| `Parser.PlanPages` | src/parser.js:28-82 | The pages requested for a category, in order, are 0, 1, 2, ...: no gap, no repeat, and none above `MAX_PAGE`. |
| `Parser.BatchAt` | src/parser.js:34-39 | A batch starts at `page`, has at most `PAGE_PARALLEL` pages and none above `MAX_PAGE`. It stops short only at `MAX_PAGE`. |
| `Parser.PlanGood` | src/parser.js:34-39 | Every batch of the plan has between 1 and `PAGE_PARALLEL` pages, none above `MAX_PAGE`. |
| `Parser.PlanChained` | src/parser.js:82 | The plan starts at the first page, and each batch starts where the previous one ended: no gaps and no repeats. |
| `Parser.PlanProductive` | src/parser.js:60-66 | Every batch but the last had a page with a non-empty `data` array. |
| `Parser.PlanLastFull` | src/parser.js:83 | When even the last batch had data, the plan ran up to `MAX_PAGE`. |
| `Parser.PlanNonEmpty` | src/parser.js:55 | From any page up to `MAX_PAGE` some batch is requested, so the empty-batch exit is never taken. |
| `Parser.PlanStop` | src/parser.js:34 | Nothing is requested from a page past `MAX_PAGE`. |
| `Parser.AnyDataIff` | src/parser.js:60-66 | A batch is productive iff one of its pages returned a non-empty `data` array. A batch with one such page continues even if its other pages failed. |
| `Parser.PlanLength` | src/parser.js:33-34 | The loop runs at most ceil((MAX_PAGE + 1) / PAGE_PARALLEL) batches. |
| `Parser.FiveFullPages` | index.js:225-288 | With the defaults, pages 0-4 full and pages 5-8 empty, the batches are 0-2, 3-5 and 6-8. |
| `Parser.Candidate` | src/parser.js:67-78 | An element reaches `addProduct` iff it is truthy, the filter says true without throwing, and its record builds without throwing. It then offers that record. |
| `Parser.CrawlerCandidate` | src/parser.js:69-71 | With the crawler's own pipeline, this means `isMagnumProduct` and then the variant's `buildProductObject` with the category's city. The city comes from `extractCityFromUrl` in src/parser.js:24 and is null in index.js:268. |
| `Parser.PageCandidates` | src/parser.js:67-79 | A page offers at most one record per element. |
| `Parser.ProcessPage` | src/parser.js:67-79 | The item loop of one page offers the page's candidates to the store in item order. It adds one to the match count per product the store accepted. |
| `Parser.ProcessBatch` | src/parser.js:60-80 | The response loop of one batch skips pages without data and offers the candidates of the others in page order. `anyData` is true iff the batch was productive. |
| `Parser.ProcessResponse` | src/parser.js:62-79 | One response of the batch: skipped when it carries no items, otherwise its items are offered. |
| `Parser.BatchUrls` | src/parser.js:36-53 | The URL loop lists exactly the pages of `BatchAt(page)` and their request URLs. |
| `Parser.PushPage` | src/parser.js:38-52 | One round of the URL loop adds the next page and its URL. |
| `Parser.ProcessRound` | src/parser.js:57-83 | One batch: `page` advances by the batch size. The loop goes on iff the batch was productive. The requests and the store follow the plan. |
| `Parser.CategoryRound` | src/parser.js:33-85 | One pass of the loop: it stops past `MAX_PAGE`, or after an unproductive batch. Otherwise `page` strictly grows, and termination is by `MAX_PAGE + 1 - page`. |
| `Parser.ProcessCategory` | src/parser.js:18-89 | When `decodeURIComponent` of the category name throws, the call rejects before any request and the store is unchanged. Otherwise the URLs requested are exactly those of `Plan`, in order from page 0, the store ends with the old list plus the accepted candidates of the plan, and the returned count is the number of products `addProduct` accepted. The same function is at index.js:211-292. |
| `Parser.CrawlPages` | src/parser.js:28-88 | The pagination loop alone: the URLs requested are those of `Plan`, the store gains the accepted candidates of the plan, and the count is their number. The same loop is at index.js:217-288. |
| `Parser.CategoryOutcome` | src/parser.js:82-88 | When the loop stops, the batches requested are `Plan` and the store holds the accepted candidates. |
| `Generator.CategoryMatch` | kaspi_generator.js:49 | The leftmost match of `/:category:([^:]+)/i`. |
| `Generator.ExtractCategoryFromQ` | kaspi_generator.js:44-52 | Null iff there is no match. Otherwise the result is the trimmed capture and holds no `:`. |
| `Generator.CategoryFor` | kaspi_generator.js:116 | Never empty. It is the extracted category, the decoded `q`, or `товары`. |
| `Generator.CategoryOfTaggedQ` | kaspi_generator.js:44-52 | A round trip: the tag followed by a trimmed name without `:` and then `:...` or nothing yields that name, both as the extracted category and as the category used. |
| `Generator.ParamPos` | kaspi_generator.js:126 | The first `[?&]key` match, with none before it. |
| `Generator.SetParamKeeps` | kaspi_generator.js:127-129 | Setting a parameter keeps everything up to and including the separator of the first match. When there is no match, it keeps the whole URL as a prefix. |
| `Generator.SetParamRoundTrip` | kaspi_generator.js:126-130 | After the first `[?&]key[^&]*` is replaced, or `key=v` is appended, the first value of `key` reads back as v. |
| `Generator.Links` | kaspi_generator.js:121-140 | One link per phrase, in phrase order. |
| `Generator.TextRoundTrip` | kaspi_generator.js:126-130 | The `text` value read back from a link is the encoded phrase. |
| `Generator.LinksCarryFreshIds` | kaspi_generator.js:132-137 | Link k carries the request id drawn for phrase k. |
| `Generator.SetParamKeepsOther` | kaspi_generator.js:132-137 | Setting `requestId` leaves the value of `text` as it was, in a URL with one query string. |
| `Generator.SetParamKeepsOneQuery` | kaspi_generator.js:126-137 | Setting a parameter keeps the URL to one query string. |
| `Generator.LinkCarriesPhrase` | kaspi_generator.js:121-140 | A link reads back the encoded phrase as `text` and the fresh id as `requestId`. |
| `Generator.LinksCarryPhrases` | kaspi_generator.js:121-140 | Every link k carries phrase k and request id k. |
| `Generator.RequestIdHasNoSeparator` | kaspi_generator.js:40-42 | A random request id, 32 lower-case hex digits, holds no `?` or `&`. |
| `Generator.Take` | kaspi_generator.js:99 | `slice(0, n)`: a prefix of at most n elements that is the whole list when the list is shorter. |
| `Generator.KeepNonEmpty` | kaspi_generator.js:90 | `map(f).filter(Boolean)`: no more results than parts, and none empty. |
| `Generator.KeepNonEmptyAppend` | kaspi_generator.js:90 | The filter works part by part, in order. |
| `Generator.TrimDropsCarriageReturn` | kaspi_generator.js:90 | Trimming each line removes the `\r` of a `\r\n` line ending. |
| `Generator.CleanLineAsWritten` | kaspi_generator.js:94 | The cleaning as written: at most one marker character is removed, with the blanks around it; the result is empty or does not start with a blank. |
| `Generator.AsWrittenAgreesOnSingleMarker` | kaspi_generator.js:94 | On a line with no second marker after the first one and its blanks, the cleaning as written gives the same text as the corrected one, so the two differ only on lines such as `1. x`. |
| `Generator.KeptStartNoBlank` | kaspi_generator.js:90-97 | No line kept by the cleaning as written starts with a blank. |
| `Generator.CleanLine` | kaspi_generator.js:93-94 | The corrected cleaning. A cleaned line is empty or does not start with a marker or a blank. |
| `Generator.CleanedStartClean` | kaspi_generator.js:94 | No surviving cleaned line starts with a marker or a blank. |
| `Generator.NumberedLineAsWritten` | kaspi_generator.js:94 | As written, `1. x` is cleaned to `. x`. |
| `Generator.NumberedLineCleaned` | kaspi_generator.js:93 | The corrected cleaning turns `1. x` into `x`. |
| `Generator.CollectCandidates` | kaspi_generator.js:91-97 | For n > 0, the candidate loop with its early `break` collects exactly the first n non-empty lines cleaned as written. With n = 0 it stops after the first line. |
| `Generator.CandidatesStop` | kaspi_generator.js:96 | Stopping as soon as n candidates are in hand gives the first n. |
| `Generator.TrimmedArray` | kaspi_generator.js:84 | A parsed array gives the trimmed first n elements. |
| `Generator.GeneratePhrases` | kaspi_generator.js:78-105 | The phrases for a reply, as `Phrases` gives them with the cleaning as written, of which there are never more than n. |
| `Generator.PhrasesFailure` | kaspi_generator.js:78-105 | For n > 0, the call throws iff the reply is blank, or it is not an array and neither a cleaned line nor a comma piece survives. |
| `Generator.LinesBeforeCommas` | kaspi_generator.js:99-103 | When a cleaned line survives, the phrases are the first n cleaned lines. None is empty or starts with a blank, and the comma split is not used. |
| `Generator.TakeTwice` | kaspi_generator.js:99 | Taking n twice is taking n once. |
| `Generator.Backoff` | kaspi_generator.js:156-158 | Wait i is `delayMs * 2^i`. |
| `Generator.BackoffTotal` | kaspi_generator.js:156-158 | k waits add up to `delayMs * (2^k - 1)`. |
| `Generator.StopAt` | kaspi_generator.js:151-160 | The attempt `retry` stops at: every earlier attempt failed, and this one succeeded or was the last allowed. |
| `Generator.Retry` | kaspi_generator.js:149-162 | `retry` calls `fn` up to and including the first success and at most `retries + 1` times. It returns the outcome of the last call, which is the first success or the last error. It waits `delayMs * 2^i` after failure i, except after the last allowed call. |
| `Generator.FirstSuccess` | kaspi_generator.js:151-153 | When every attempt before i fails and attempt i succeeds or is the last allowed, `retry` stops at i. |
| `Generator.RetryOutcome` | kaspi_generator.js:149-162 | At most `retries + 1` calls. An error is returned only when every call failed, and a success is returned whenever some call succeeds. |
| `Generator.TotalWaitBound` | kaspi_generator.js:158 | The waits of one `retry` add up to at most `delayMs * (2^retries - 1)`, which is 3000 ms with the defaults. |
| `Generator.ProcessUrl` | kaspi_generator.js:111-147 | `processUrl` returns the links of `UrlLinks` and never throws. |
| `Generator.UrlLinksShape` | kaspi_generator.js:119-146 | No links iff all three calls fail. Otherwise there is one link per phrase of the first successful call, in order, each built from its phrase and its own request id. |
| `Mapper.AlternativeAt` | mapper.js:23 | The first alternative of `(г|кг|мл|л|гр|кгр|млр|лр)` that matches, case-insensitively. |
| `Mapper.WeightMatchAt` | mapper.js:23 | The match of `(\d+(?:\.\d+)?)\s*(unit)` at one start, with the greedy choices. |
| `Mapper.FirstWeightMatch` | mapper.js:23 | The leftmost match. |
| `Mapper.ExtractWeightFromTitle` | mapper.js:20-34 | Null iff the title is null or empty or nothing matches. |
| `Mapper.GetMeasure` | src/mappers/mapper.js:34-41 | The result is one of кг, г, мл, л and шт, and шт for an empty string. The same function is at mapper.js:36-43. |
| `Mapper.PlainUnitWins` | mapper.js:23 | The aliases гр, кгр, млр and лр never win the alternation, because each begins with a plain unit tried earlier. |
| `Mapper.UnitOfMatch` | mapper.js:23-30 | The matched unit is a plain unit in some case, and the alias clean-up leaves it unchanged. |
| `Mapper.CanonicalKeepsPlainSpelling` | mapper.js:27-30 | The alias clean-up does not touch any spelling of a plain unit. |
| `Mapper.TitleWeightShape` | mapper.js:23-31 | A non-null result is the number of the leftmost match, a blank, and the unit as spelt in the title. That unit is a plain unit in some case. |
| `Mapper.MeasureOfPlainUnit` | mapper.js:36-43 | `getMeasure` of `"<number> <unit>"` for a plain unit returns that unit. |
| `Mapper.TitleWeightRoundTrip` | mapper.js:31-43 | The round trip: when the title spells the unit in lower case, `getMeasure` of the extracted weight is that unit. |
| `Mapper.CapitalUnitIsPieces` | src/mappers/mapper.js:22-41 | The unit is kept as spelt. So `1 КГ` is extracted as `1 КГ`, and `getMeasure` then finds no lower-case unit and answers шт. |
| `Mapper.GramsNearest` | mapper.js:115 | `Math.round(w * 1000)` is the weight in grams, rounded to the nearest integer. |
| `Mapper.SubCategory` | mapper.js:140 | Null iff the path is missing or empty. |
| `Mapper.SubCategoryIsOneSegment` | mapper.js:140 | The sub-category contains no `' > '`. |
| `Mapper.SubCategoryOfCrawledPath` | src/mappers/mapper.js:146 | For a path the crawler wrote, the sub-category is the deepest category. |
| `Mapper.WeightWith` | mapper.js:101-118 | The weight string is the title weight, else the reference row's non-empty weight, else the grams of a positive API weight, else empty. |
| `Mapper.TransformData` | src/mappers/mapper.js:96-174 | One record per scraped item, in input order, each the record of that item and its best match. The same loop is at mapper.js:93-168. |
| `Mapper.MapItem` | mapper.js:100-165 | One turn of the loop builds the record with the weight chosen by priority, the measure read from it, and the sub-category. |
| `Mapper.TitleWeightFirst` | mapper.js:106-107 | A weight in the title wins over the reference row and the API weight. With a lower-case unit, the measure is that unit. |
| `Mapper.ReferenceWeightSecond` | mapper.js:108-110 | Without a title weight, a non-empty reference weight is taken. |
| `Mapper.ApiWeightLast` | mapper.js:112-117 | Without either, a positive API weight is written as `<grams> г` and the measure is г. |
| `Mapper.GramsMeasure` | src/mappers/mapper.js:121-126 | A weight written in grams reads back as that number, with measure г. |
| `Mapper.NoWeightAnywhere` | src/mappers/mapper.js:111-126 | With no weight anywhere, the weight is empty and the measure is шт. |
| `ParseFix.MatchAt` | parse_fix.py:9-20 | A match of `(\d+(?:\.\d+)?)\s*UNIT\b` at one start. |
| `ParseFix.Search` | parse_fix.py:25 | `re.search` with `re.IGNORECASE`: the leftmost match. |
| `ParseFix.UnitEndsAWord` | parse_fix.py:9-20 | Every unit is followed by the end of the title or a non-word character, so `150 гр` does not match the г pattern. |
| `ParseFix.FirstMeasureHit` | parse_fix.py:24-45 | None iff no pattern matches. Otherwise it is the first pattern in list order that matches. Every weight pattern is tried before any volume pattern, so the kind is weight iff some weight pattern matches. |
| `ParseFix.Normalise` | parse_fix.py:27-43 | The measurement keeps the matched number and ends in the unit of its kind. |
| `ParseFix.ExtractMeasurementAsWritten` | parse_fix.py:5-45 | None iff no pattern matches. The unit test is case-sensitive, as written. |
| `ParseFix.ExtractMeasurement` | parse_fix.py:5-45 | The corrected function: None iff no pattern matches, with the unit test made case-insensitive. |
| `ParseFix.UnitFollowsPattern` | parse_fix.py:28-43 | With the corrected test, the unit is the large one (кг, мл) iff a large-unit pattern matched, whatever the case in the title. |
| `ParseFix.UnitTextIsUnit` | parse_fix.py:28 | Removing the number from the match and stripping the blanks leaves the unit as spelt in the title. |
| `ParseFix.LargeUnitNamed` | parse_fix.py:29-41 | On lower-case unit names, the test of `extract_measurement` picks exactly кг, kg, мл and ml. |
| `ParseFix.CapitalLargeUnitAsWritten` | parse_fix.py:24-43 | As written, a large unit (кг, kg, мл, ml) whose match starts with a capital is recorded as the small unit of its kind (г or л). The corrected function records the large unit. |
| `ParseFix.CapitalKilograms` | parse_fix.py:11 | The title `1 КГ` is extracted as `1 г` as written, and as `1 кг` by the corrected function. |
| `ParseFix.CapitalKilogramsHit` | parse_fix.py:9-11 | In `1 КГ` neither the г nor the g pattern matches, because the letter after the number is К, and the кг pattern matches the whole title. |
| `ParseFix.TitleOf` | parse_fix.py:58 | A missing title is `''`. A title that is not a string is the error case. |
| `ParseFix.Fill` | parse_fix.py:57-74 | The copy has `city` set to Almaty and the found measurement in `weight` or `volume` by kind. Every other field is unchanged, and the count goes up iff something was found. |
| `ParseFix.CleanWith` | parse_fix.py:61-71 | Fails only when the title is needed and is not a string. |
| `ParseFix.CleanProducts` | parse_fix.py:47-78 | One cleaned product per input, in order, each the clean-up as written of its input. The extraction counter is the number of products that got a measurement, and the city counter equals the number of products. It fails iff some product needing its title has a non-string title. |
| `ParseFix.CleanProduct` | parse_fix.py:57-78 | One turn of the loop is the clean-up of one product with `extract_measurement` as written. |
| `ParseFix.SameKind` | parse_fix.py:24-45 | The extraction as written and the corrected one find a measurement for the same titles, of the same kind. |
| `ParseFix.CleanOneCorrected` | parse_fix.py:56-74 | The clean-up with the corrected extraction fails and extracts for exactly the products the clean-up as written does, and every field other than weight and volume is the same. |
| `ParseFix.CapitalKilogramsCleaned` | parse_fix.py:61-71 | A product with blank weight and volume titled `1 КГ` gets the weight `1 г` as written, and `1 кг` with the corrected extraction. |
| `ParseFix.ExtractedCountBounded` | parse_fix.py:53-75 | `extracted_measurements <= len(products)`. |
| `ParseFix.ExtractedWhenBothBlank` | parse_fix.py:61-71 | A measurement is extracted iff weight and volume are both blank (missing, None, `'null'` or empty) and the title yields one. |
| `ParseFix.MeasurementNotBlank` | parse_fix.py:30-43 | An extracted measurement is never blank. |
| `ParseFix.CleanWithIsIdempotent` | parse_fix.py:56-78 | For any extraction that never yields a blank text, cleaning a cleaned product changes nothing and extracts nothing more. |
| `ParseFix.CleanIsIdempotent` | parse_fix.py:56-78 | Cleaning a cleaned product changes nothing and extracts nothing more. |
| `LinkGet.LeafUrl` | link_get.py:27-31 | The URL is the fixed head, the quoted category and the fixed tail. |
| `LinkGet.FindLeafCategories` | link_get.py:18-32 | The recursive walk appends exactly `Walk` of the items to the list. |
| `LinkGet.VisitItem` | link_get.py:19-32 | One node: its subtree when it has children, its URL when it is a category leaf, nothing otherwise. |
| `LinkGet.GenerateUrls` | link_get.py:35-38 | Only a dict with `items` or a list is walked. Any other top level gives no URLs. |
| `LinkGet.WalkAppend` | link_get.py:19 | The walk visits a list node by node. |
| `LinkGet.WalkIsPreorder` | link_get.py:18-32 | The URLs are exactly those of the category leaves, in depth-first, left-to-right order. |
| `LinkGet.CategoryUrls` | link_get.py:24-32 | At most one URL per leaf. |
| `LinkGet.AtMostOneUrlPerLeaf` | link_get.py:18-32 | The walk emits at most one URL per leaf. |
| `LinkGet.InnerIdIgnored` | link_get.py:21-22 | A node with children is never emitted itself, whatever its id. |
| `LinkGet.CategoryOfTaggedName` | link_get.py:27 | Removing every tag from the tag followed by a tag-free name gives the name. |
| `ChangeCateg.ModifyCategoryUrl` | change_categ.js:14-22 | The length is kept, and a URL holding neither `Magnum_ZONE1` nor `c=750000000` is unchanged. |
| `ChangeCateg.RewritesAreIndependent` | change_categ.js:16-19 | Only the first `Magnum_ZONE1` becomes `Magnum_ZONE5`, and only the first `c=750000000` becomes `c=710000000`. Each occurrence is found in the input URL, so the two rewrites do not interfere. |
| `ChangeCateg.ModifyCategoryUrls` | change_categ.js:39-45 | Same length and order. Strings are rewritten, and non-strings pass through unchanged. |
| `ChangeCateg.ModifyIsIdempotent` | change_categ.js:16-19 | For a URL with at most one of each old value, rewriting twice is rewriting once. |
| `ChangeCateg.ModifyUrlsIsIdempotent` | change_categ.js:39-45 | The same holds element by element for the array. |
| `ChangeCateg.RemovesSingleOccurrence` | change_categ.js:16 | Replacing the only occurrence removes the old value altogether. |
| `ChangeCateg.KeepsAbsent` | change_categ.js:19 | A replacement creates no occurrence of the other old value. |
| `Text.ReplaceFirst` | change_categ.js:16 | JavaScript `replace` with a string pattern: an unchanged string when the pattern is absent, otherwise the first occurrence (none starts earlier) replaced and the rest kept. |
| `Text.ReplaceAll` | link_get.py:27 | Python `replace`: an unchanged string when the pattern is absent. |
| `Text.ReplaceAllIsJoinSplit` | link_get.py:27 | Replacing every occurrence is splitting on the pattern and joining the pieces with the replacement, so every non-overlapping occurrence from the left is replaced. |
| `Text.JoinSplit` | mapper.js:140 | Joining the pieces of a split restores the string. |
| `Text.LastPieceHasNoSeparator` | mapper.js:140 | The last piece of a split never contains the separator. |
| `Text.DigitsValueOfNatToString` | src/parser.js:43 | Reading back `String(n)` gives n. |

## Left out

- **Concurrency.** `runWithConcurrency` (src/parser.js:94-112, index.js:297-316) and the worker pool of kaspi_generator.js are left out, and so is `Promise.all`. Categories are modelled one at a time, and the fetches of a batch are read in page order, which is the order the loop reads the responses in.
- **Side effects as parameters.** Network calls (`axios.get`, the OpenAI request), sleeping, file reads and writes, and logging are outside the model. `saveCheckpoint` writes go into a ghost log, and the final save and the `main` functions of the scripts are left out.
- **Fresh values and encoding.** `uuidv4`, `crypto.randomBytes`, `Date` and `toISOString` are parameters. So are `encodeURIComponent`, `decodeURIComponent`, `new URL` with `searchParams.get('q')`, and `urllib.parse.quote`. `processUrl` takes the decoded `q`, or None when decoding throws.
- **Floating point.** `parseFloat` and `toIntSafe` (`Number`, `Math.trunc`) are left out. The measure amount is kept as the captured string with `,` turned into `.`, and the prices are integers. The mapper's weight in kilograms is a `real`, and `Math.round(w * 1000)` is exact rounding half up.
- **Unicode.** `toLowerCase` and the regular-expression `i` flag are modelled for Basic Latin, the basic Cyrillic block and Ё/ё only. `\s` uses the JavaScript and Python whitespace sets.
- **Phrase fallback lines.** `split(/\r?\n/)` is modelled as a split on `\n` followed by `trim`. The trim removes the `\r`, as `Generator.TrimDropsCarriageReturn` shows.
- **The JSON branch.** `JSON.parse` is an input: the parsed array of strings, or None when parsing fails or gives something other than an array. `String(s)` of a non-string element is not modelled. An empty reply stands for a missing one.
- **The mapper's unused inputs.** Fuse.js fuzzy search and CSV loading are outside the model: the best match of each item is an input. `match_confidence` is float arithmetic and is not modelled.
- **Duplicate mapper keys.** `Mapper.MappedRecord` holds each field of the record at mapper.js:128-163 once. The duplicate `id`, `productUrl` and `productId` keys repeat `product_id` and `url`, and the timestamp copies `parsedAt`, `lastUpdated`, `createdAt`, `updatedAt` and `mappingCreatedAt` repeat `time_scrap`, so they are not represented.
- **Constant record fields.** Fields of `buildProductObject` that are the same in every record (merchant, currency, nulls, empty lists) are not represented. Neither is `rating` (src/product.js:67, index.js:187), which copies the item's rating.
- **Unbounded paging.** `MAX_PAGE = null` is not modelled: `MAX_PAGE` is a natural number, because the loop has no bound without it.
- **db.js.** It is a MongoDB script and is not part of this model.
- **link_get.py input.** A missing or falsy `items` is the empty list. An `id` that is not a string is treated as missing, but the script itself fails there: `item['id'].startswith` (link_get.py:25) raises `AttributeError` for a null or numeric id, the handlers at link_get.py:51-55 do not catch it, and no URL file is written.
- **change_categ.js input.** A non-array input exits the process and is not modelled.
- `Fetch.FetchWithRetry`: axios rejects statuses below 200 as well as 500 and up. Both become `Thrown`, so a 1xx answer backs off like an error.
- `Mapper.GetMeasure`: the result is stated as a member of the five measures, plus the empty case. The exact branch order is stated through `Mapper.MeasureOfPlainUnit` and `Mapper.GramsMeasure` for the strings the mapper builds, not for arbitrary strings.

## Findings

| source | as written | input that shows it | evidently intended | confidence | as-written member | corrected member |
|---|---|---|---|---|---|---|
| parse_fix.py:28-43 | The patterns match under `re.IGNORECASE`, but the large-unit tests `'кг' in unit or 'kg' in unit` and `'мл' in unit or 'ml' in unit` are case-sensitive. A capitalised kilogram unit is recorded as grams, and a capitalised millilitre unit as litres. | title `1 КГ` gives `1 г` | `1 кг`: the unit is decided by the pattern that matched, whatever its case | medium, not executed | `ParseFix.CapitalLargeUnitAsWritten` | `ParseFix.UnitFollowsPattern` |
| kaspi_generator.js:94 | `/^\s*[-•\d\.\)]\s*/` removes a single marker character, so a numbered line keeps its `.`. The comment beside it says numbers like `1.` are removed. | line `1. x` gives `. x` | `x` | high, not executed | `Generator.NumberedLineAsWritten` | `Generator.NumberedLineCleaned` |

The operations model the code as written: `ParseFix.CleanProducts` and
`ParseFix.CleanProduct` clean with `ParseFix.ExtractMeasurementAsWritten`,
and `Generator.GeneratePhrases` cleans with `Generator.CleanLineAsWritten`.
The corrected definitions are kept beside them as `ParseFix.ExtractMeasurement`
with `ParseFix.CleanOneCorrected`, and `Generator.CleanLine`.
