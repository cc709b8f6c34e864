# Myntra Blinkdeal tracker: a Dafny model of its watch cycle

The tracker polls one Myntra listing page (gold coins by one brand). It cuts
the product objects embedded in the page text out by brace counting and
drops the "22K" coins. It looks for the promotional phrase "blink deal" and
emails either a deal alert or a "tracker not working" alert. This project
models the part of `app.js` that decides what happens in one cycle:

- the brace-matched candidate extractor of `fetchMyntraPage` (module `Extractor`);
- the promotional-signal detector `searchBlinkdeal` (module `Detector`);
- the product normaliser `simplifyProducts` (module `Normalizer`);
- the cycle itself, the detail-page override and the alert choice of
  `watcher` / `sendEmailAlert` (module `Watcher`).

Supporting modules: `Options` (an option type), `Text` (ASCII case folding,
`join`, the line split a mail reader does) and `JsValues` (JSON values,
`undefined`, truthiness, property reads with and without `?.`, `String(v)`).

The cycle is a pure function of three parameters:

- `listing: Option<string>` is the body text of the listing page, or `None`
  when that request throws.
- `fetch: string -> Option<string>` is the body text of the product detail
  page at a URL, or `None` when the request throws. Both stand for axios plus
  cheerio's `$("body").text()`. The two requests of a cycle are kept apart:
  a listing entry whose `landingPageUrl` points back at the listing page
  makes both requests ask for the same URL, and the model does not assume
  that they answer alike.
- `parse: string -> Option<Record>` stands for `JSON.parse` on texts that
  start with `{`. The empty text, which is what an unbalanced candidate
  becomes, is rejected by the model itself, because `JSON.parse("")` always
  throws.

A cycle ends in `DealAlert(urls)`, `BrokenAlert`, `NoMail` or `Aborted`
(the cycle's catch returned `null`).

Three behaviours of the code a reader might not expect; the model follows
the code:

- Markers are searched again right after each marker, not after each slice.
  A marker nested inside an earlier slice is therefore scanned and harvested
  a second time, so slices can overlap.
- A record with a truthy `couponDiscount` but no `couponDescription` does
  not yield "no coupon". Reading `couponDescription.couponCode` throws, and
  the whole cycle ends without mail.
- A record is kept when `productId` is truthy, not merely present and
  non-empty. So `0` and `false` are rejected too.

Case folding: a `/i` regex without the `u` flag canonicalises with
`toUpperCase` and never maps a non-ASCII character onto an ASCII one. For
the patterns `blink`, `deal` and `22k`, ASCII lower-casing is therefore
exact. `\s` is modelled as JavaScript's exact white-space set.

## Model

| member | source | states |
|---|---|---|
| `Detector.SearchBlinkdeal` | app.js:84-93 | returns 1 exactly when some substring is in the language of `/blink\s*_?\s*deal/i`, and 0 exactly when none is |
| `Detector.MatchAt` | app.js:90 | a greedy match from a position always ends on a word of the regex language |
| `Detector.MatchAtComplete` | app.js:90 | every word of the language starting at a position is found by the greedy matcher, with the same end (greedy skipping never needs to backtrack) |
| `Detector.BuildMatch` | app.js:90 | "blink" in any casing, then white space around at most one underscore, then "deal" in any casing, is a word of the language |
| `Detector.OccursIffSomeMatch` | app.js:91-92 | the text contains a match iff the matcher succeeds at some start position |
| `Detector.SkipSpaces` | app.js:90 | `\s*` stops at the first non-white-space character, having consumed only white space |
| `Detector.PositiveExamples` | app.js:90-92 | "Get BlinkDeal now", "blink_deal" and "blink   deal" carry the signal |
| `Detector.NegativeExample` | app.js:90-92 | "blinkXdeal" does not carry the signal |
| `Detector.EmptyExample` | app.js:90-92 | the empty text does not carry the signal |
| `Detector.OccursInContext` | app.js:91-92 | surrounding text never removes a match: only the existence of a match matters, not how many |
| `Detector.SignalInText` | app.js:90-92 | an upper-case "BLINKDEAL" inside a sentence carries the signal |
| `Extractor.NextMarker` | app.js:135-141 | `exec` from `lastIndex` returns the first marker position at or after it, and none exists when it fails |
| `Extractor.MarkersDoNotOverlap` | app.js:135 | two occurrences of the marker never overlap, because it contains a single brace |
| `Extractor.SpanEnd` | app.js:142-154 | the slice end is one past the first index where the running count from the marker is zero; it stays at the marker index exactly when the count never returns to zero |
| `Extractor.ScanSpan` | app.js:142-154 | the imperative brace-count loop computes exactly the reference span end |
| `Extractor.ClosesUnique` | app.js:150-153 | the first zero of the count is unique, so the loop's `break` picks a single end |
| `Extractor.SpanShape` | app.js:141-156 | a slice that closes begins with `{`, ends with `}`, has net count 0, and every proper non-empty prefix has a positive count |
| `Extractor.PrefixesPositive` | app.js:146-153 | before the first zero the running count stays positive |
| `Extractor.Candidate` | app.js:156 | the slice handed to `JSON.parse` is empty exactly when the braces from the marker never balance, and otherwise is the text from the marker to the first point where they do |
| `Extractor.ParseCandidate` | app.js:156-159 | the empty candidate never parses |
| `Extractor.Harvest` | app.js:156-165 | a marker contributes a record only if its candidate parses to it, its `productId` is truthy, and its braces balance |
| `Extractor.ExtractFrom` | app.js:135-166 | every kept record has a truthy `productId`; no marker from `lastIndex` on means no records |
| `Extractor.MarkersAfterNext` | app.js:135-141 | the markers from `lastIndex` on are the one `exec` finds followed by those from just after it, since no marker starts inside the one found |
| `Extractor.Extract` | app.js:135-166 | the raw product list is the harvest of every marker position of the page, nested ones included, in text order |
| `Extractor.MarkersFromExact` | app.js:135-141 | the reference enumeration lists exactly the marker positions, in strictly increasing order |
| `Extractor.MarkersFromSkip` | app.js:141 | positions without a marker add nothing to the enumeration |
| `Extractor.ExtractFromVisitsAllMarkers` | app.js:135-166 | resuming the search right after each marker visits every marker, nested ones included, and keeps records in marker order |
| `Extractor.HarvestAllSound` | app.js:156-165 | every kept record comes from one of the visited markers |
| `Extractor.ExtractSound` | app.js:135-166 | every extracted record is the parse of the candidate of a marker whose braces balance |
| `Extractor.UnbalancedDropped` | app.js:144-165 | a marker whose braces never balance gives the empty slice and contributes nothing, so no truncated candidate is accepted |
| `Extractor.EmbeddedSpanRecovered` | app.js:141-156 | a text whose brace count first returns to zero at its end, placed anywhere in a page, is cut out again exactly |
| `Extractor.HarvestAllComplete` | app.js:158-162 | a record some visited marker yields is among the kept records |
| `Extractor.EmbeddedRecordExtracted` | app.js:135-166 | a product object that starts with the marker, balances at its end and parses to a record with a truthy `productId` is extracted from any page it is embedded in |
| `Extractor.NoMarkerNoRecords` | app.js:141-166 | a text without the marker yields no records |
| `JsValues.Field` | app.js:100-109 | reading a key of a parsed record is `undefined` exactly when the key is absent |
| `JsValues.Truthy` | app.js:160 | a value is truthy exactly when it is none of `undefined`, `null`, `false`, `0` and the empty string |
| `JsValues.ToJsString` | app.js:98 | `String(v)` gives "undefined" and "null" for the two nullish values, "true" or "false" for a boolean, a string itself, a number as its canonical decimal form (`Text.IntToString`: a minus sign exactly when negative, then digits without a leading zero that read back as the magnitude), an object as "[object Object]", the empty array as empty text, a one-element array as its element with `null` as empty text, and a longer array as its first element, a comma and the rendering of the rest |
| `JsValues.ArrayRenderingSplits` | app.js:98 | an array of two or more elements renders as its first element, a comma, and the rendering of the remaining elements |
| `Text.NatToString` | app.js:98 | a natural number renders as at least one decimal digit, with no leading zero unless it is 0, and the digits read back as the number |
| `Text.IntToString` | app.js:98 | an integer renders as a minus sign exactly when it is negative, followed only by decimal digits with no leading zero (unless the magnitude is 0) that read back as its magnitude, which is the one decimal form `String` gives |
| `JsValues.Member` | app.js:112-114 | a property read throws exactly on `null` and `undefined` |
| `JsValues.OptionalMember` | app.js:110 | `?.` yields `undefined` on a nullish value and a plain read otherwise |
| `Normalizer.Filter22k` | app.js:97-98 | the kept records are exactly the input records whose name, converted with `String`, has no "22k" in any casing; there are at most as many as in the input |
| `Normalizer.Filter22kAppend` | app.js:97-98 | the filter preserves order: filtering a concatenation concatenates the filtered parts |
| `Normalizer.Filter22kDrops` | app.js:98 | a record whose name contains "22K" in any casing never survives |
| `Normalizer.NamelessKept` | app.js:98 | a record with a missing or `null` name is tested as "undefined" or "null" and kept |
| `Normalizer.CouponOf` | app.js:110-116 | coupon is null without coupon data or with a falsy discount; with a truthy discount it throws exactly when the description is nullish, and otherwise carries the code, discount and best price |
| `Normalizer.Project` | app.js:99-117 | the ten listed fields are copied unchanged, the coupon is derived as above, and the projection throws exactly when the coupon does |
| `Normalizer.ProjectAll` | app.js:99-117 | one summary per record, in order, unless some record's projection throws |
| `Normalizer.SimplifyProducts` | app.js:96-118 | entry i of the output is the projection of the i-th record the 22K filter keeps, so there is one entry per kept record, in order; no output summary has a "22k" name; it throws exactly when a kept record's coupon throws |
| `Normalizer.CouponExamples` | app.js:110-116 | a zero discount or missing coupon data gives null; discount 50 with code "X5" and best price 1000 gives exactly that coupon |
| `Normalizer.CouponWithoutDescriptionThrows` | app.js:110-116 | a truthy discount without a description throws |
| `Normalizer.ScenarioSimplified` | app.js:96-118 | of a "22K Gold Coin" and a "Gold Coin" only the latter survives, missing fields undefined and coupon null |
| `Text.SplitJoin` | app.js:232-234 | splitting a newline-joined list of lines without newlines gives the list back |
| `Text.SplitJoinWhenSeparatorFree` | app.js:232-234 | for any list, when it is non-empty and no line holds the separator, the split of the join gives the list back |
| `Watcher.DetailUrl` | app.js:177 | the detail URL is the site origin followed by the landing URL, or by "undefined" when the landing URL is missing |
| `Watcher.FetchMyntraPage` | app.js:126-195 | `isScriptWorking` holds iff the raw record list, taken before the 22K filter, is non-empty; the products are the simplified records; the signal comes from the detail page of the first product if there is one, and from the listing page otherwise; the result is null only after a failed fetch or a throwing coupon |
| `Watcher.LandingUrls` | app.js:232-234 | one landing URL per product, in product order |
| `Watcher.Decide` | app.js:285-294 | deal alert iff the signal is set, listing every product's URL; otherwise a broken alert iff extraction found nothing; otherwise no mail; a null result sends nothing |
| `Watcher.Watch` | app.js:279-295 | a cycle aborts exactly when a fetch fails or a kept record's coupon throws; the broken alert goes out exactly when the listing was fetched, yielded no record, and carries no signal; a deal alert goes out exactly when the page deciding the signal carries it, listing every surviving URL; otherwise no mail |
| `Watcher.DealMailLines` | app.js:232-234 | the deal mail's URL block is empty without products, and splits back into one line per product, in order, when no URL contains a newline |
| `Watcher.NoMarkerOutcome` | app.js:135-181 | a listing page without the marker gives the broken alert, or a deal alert with no URL when the listing page carries the signal |
| `Watcher.DetailPageOverrides` | app.js:176-181 | once a product survives, the detail page alone decides between deal alert and no mail, whatever the listing page says |
| `Watcher.AllFilteredListingDecides` | app.js:168-181 | when every raw record is filtered out, the tracker still counts as working, no detail page is fetched, and the listing page decides between a deal alert with no URL and no mail |
| `Watcher.TwoProductScenario` | app.js:96-181 | a listing with a 22K coin and a plain coin, no signal on the listing page and "BLINKDEAL" on the plain coin's detail page gives a deal alert listing exactly the plain coin's URL |

## Left out

- HTTP fetching (axios with its User-Agent header) and cheerio's body-text extraction are the `listing` and `fetch` parameters.
- `JSON.parse` is the `parse` parameter. Only the rejection of the empty text is fixed in the model.
- Mail delivery (nodemailer transport, `sendMail`, logging of send failures) and the wording of both mails are left out. Only the URL list of the deal mail is modelled.
- Disk writes (`saveToJsonFile`, `saveMyntraHTML`, creating `html-files`) and console logging are I/O with no effect on the decision.
- Scheduling (`setInterval` every 5 minutes, the first immediate run) and cycles that overlap are left out. One call of `Watch` is one cycle.
- Environment configuration (dotenv, the mail account variables) is left out.
- The commented-out gold-price fetch and the unused `KEYWORDS` array are dead code.
- JsValues.Json: numbers are integers. Fractional numbers and the exponent form `String` gives for magnitudes of 1e21 and above are not modelled. Neither form can contain "22k", so the filter is unaffected.
- JsValues.Member: a read on a string or an array always yields `undefined`. Their own `length` and index properties are not modelled, because the program reads neither.
- JsValues.ToJsString: a parsed object always renders as "[object Object]". A record whose own `toString` or `valueOf` key shadows the built-in one is not modelled.
- Strings throughout the model are sequences of Unicode scalar values, not the UTF-16 code units JavaScript indexes. This covers the regex search, the marker search, `bodyText[i]` and `slice` in the extractor, and the "22k" test. Every character these look at is in the Basic Multilingual Plane: the marker, the braces, "22k", the signal pattern and the `\s` characters. A character outside that plane is two code units in JavaScript and one character here. It can never be one of the characters looked at, so the same matches, brace counts, slices and test results arise.
