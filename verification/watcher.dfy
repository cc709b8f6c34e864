/** One watch cycle: `fetchMyntraPage` and the alert choice of `watcher` and
    `sendEmailAlert` (app.js). The two requests of a cycle are parameters:
    `listing` is the body text of the listing page at `MyntraUrl`, and
    `fetch(url)` the body text of the product detail page at `url`; each is
    `None` when its request fails (axios throws, the cycle's catch returns
    `null`). They are separate because the two requests are made at
    different moments and may answer differently even for the same URL.
    `JSON.parse` is the parameter `parse`. */
module Watcher {
  import opened Options
  import opened Text
  import opened JsValues
  import opened Detector
  import opened Extractor
  import opened Normalizer

  /** The listing page the tracker polls. */
  const MyntraUrl: string := "https://www.myntra.com/gold-coin?f=Brand%3AKalyan%20Jewellers"

  /** The origin a product's relative landing URL is appended to. */
  const SiteOrigin: string := "https://www.myntra.com/"

  /** `"https://www.myntra.com/" + product.landingPageUrl`: the `+` converts a
      missing URL to the text "undefined". */
  function DetailUrl(p: Summary): (url: string)
    ensures |url| >= |SiteOrigin| && url[..|SiteOrigin|] == SiteOrigin
    ensures p.landingPageUrl.Def? && p.landingPageUrl.json.Str? ==> url == SiteOrigin + p.landingPageUrl.json.s
    ensures p.landingPageUrl == Undefined ==> url == SiteOrigin + "undefined"
  {
    SiteOrigin + ToJsString(p.landingPageUrl)
  }

  /** What `fetchMyntraPage` returns when it does not fail. */
  datatype ScanResult = ScanResult(isBlinkDealFound: bool, isScriptWorking: bool, products: seq<Summary>)

  /** The alert a cycle ends in. `Aborted` is the `null` cycle result, on
      which `watcher` returns without mail. */
  datatype Decision =
    | DealAlert(urls: seq<JsVal>)
    | BrokenAlert
    | NoMail
    | Aborted

  /** `fetchMyntraPage()`: `None` is the `null` its catch returns. */
  function FetchMyntraPage(listing: Option<string>, fetch: string -> Option<string>, parse: string -> Option<Record>): (r: Option<ScanResult>)
    ensures listing.None? ==> r.None?
    ensures r.Some? ==>
      var body := listing.value;
      && (r.value.isScriptWorking <==> Extract(body, parse) != [])
      && SimplifyProducts(Extract(body, parse)) == Normal(r.value.products)
      && (r.value.products == [] ==> (r.value.isBlinkDealFound <==> Occurs(body)))
      && (r.value.products != [] ==>
            && fetch(DetailUrl(r.value.products[0])).Some?
            && (r.value.isBlinkDealFound <==> Occurs(fetch(DetailUrl(r.value.products[0])).value)))
    ensures listing.Some? && r.None? ==>
      var simplified := SimplifyProducts(Extract(listing.value, parse));
      || simplified == Throw
      || (simplified.value != [] && fetch(DetailUrl(simplified.value[0])).None?)
  {
    match listing
    case None => None
    case Some(bodyText) =>
      var listingSignal := SearchBlinkdeal(bodyText) == 1;
      var products := Extract(bodyText, parse);
      var isScriptWorking := |products| != 0;
      match SimplifyProducts(products)
      case Throw => None
      case Normal(simplified) =>
        if |simplified| > 0 then
          match fetch(DetailUrl(simplified[0]))
          case None => None
          case Some(detailText) =>
            Some(ScanResult(SearchBlinkdeal(detailText) == 1, isScriptWorking, simplified))
        else
          Some(ScanResult(listingSignal, isScriptWorking, simplified))
  }

  /** The landing URLs the deal mail lists, one per product, in order. */
  function LandingUrls(products: seq<Summary>): (urls: seq<JsVal>)
    ensures |urls| == |products|
    ensures forall i :: 0 <= i < |products| ==> urls[i] == products[i].landingPageUrl
  {
    seq(|products|, i requires 0 <= i < |products| => products[i].landingPageUrl)
  }

  /** The `watcher` choice: a deal alert when the signal is set, otherwise a
      broken-tracker alert when extraction found nothing, otherwise no mail. */
  function Decide(r: Option<ScanResult>): (d: Decision)
    ensures d == Aborted <==> r.None?
    ensures d.DealAlert? <==> r.Some? && r.value.isBlinkDealFound
    ensures d.DealAlert? ==> d.urls == LandingUrls(r.value.products)
    ensures d == BrokenAlert <==> r.Some? && !r.value.isBlinkDealFound && !r.value.isScriptWorking
    ensures d == NoMail <==> r.Some? && !r.value.isBlinkDealFound && r.value.isScriptWorking
  {
    match r
    case None => Aborted
    case Some(result) =>
      if result.isBlinkDealFound then DealAlert(LandingUrls(result.products))
      else if !result.isScriptWorking then BrokenAlert
      else NoMail
  }

  /** One run of `watcher()`. It aborts exactly when a fetch fails or a
      kept record's coupon throws. The broken-tracker alert goes out exactly
      when the listing page was fetched, no marker yielded a record, and the
      listing page carries no signal. A deal alert goes out exactly when the
      page that decides the signal (the first product's detail page, or the
      listing page when no product survives) carries it, and it lists every
      surviving product's URL. Otherwise no mail is sent. */
  function Watch(listing: Option<string>, fetch: string -> Option<string>, parse: string -> Option<Record>): (d: Decision)
    ensures d == Aborted <==>
      || listing.None?
      || (var simplified := SimplifyProducts(Extract(listing.value, parse));
          || simplified == Throw
          || (simplified.value != [] && fetch(DetailUrl(simplified.value[0])).None?))
    ensures d == BrokenAlert <==>
      && listing.Some?
      && Extract(listing.value, parse) == []
      && !Occurs(listing.value)
    ensures d.DealAlert? <==>
      && listing.Some?
      && var body := listing.value;
      var simplified := SimplifyProducts(Extract(body, parse));
      && simplified.Normal?
      && (simplified.value == [] ==> Occurs(body))
      && (simplified.value != [] ==>
            fetch(DetailUrl(simplified.value[0])).Some? && Occurs(fetch(DetailUrl(simplified.value[0])).value))
    ensures d.DealAlert? ==>
      d.urls == LandingUrls(SimplifyProducts(Extract(listing.value, parse)).value)
    ensures d == NoMail <==>
      && listing.Some?
      && var body := listing.value;
      var simplified := SimplifyProducts(Extract(body, parse));
      && simplified.Normal?
      && Extract(body, parse) != []
      && (simplified.value == [] ==> !Occurs(body))
      && (simplified.value != [] ==>
            fetch(DetailUrl(simplified.value[0])).Some? && !Occurs(fetch(DetailUrl(simplified.value[0])).value))
  {
    assert SimplifyProducts([]) == Normal([]);
    Decide(FetchMyntraPage(listing, fetch, parse))
  }

  /** The URL lines of the deal mail: `products.map(p => p?.landingPageUrl).join("\n")`.
      A reader splitting the block at line breaks recovers one line per
      product, in order, as long as there is a product and no URL contains
      a line break. */
  function DealMailLines(urls: seq<JsVal>): (text: string)
    ensures urls == [] ==> text == ""
    ensures |urls| >= 1 && (forall i :: 0 <= i < |urls| ==> '\n' !in JoinElement(urls[i])) ==>
      && |Split(text, '\n')| == |urls|
      && forall i :: 0 <= i < |urls| ==> Split(text, '\n')[i] == JoinElement(urls[i])
  {
    var lines := seq(|urls|, i requires 0 <= i < |urls| => JoinElement(urls[i]));
    SplitJoinWhenSeparatorFree(lines, '\n');
    Join(lines, "\n")
  }

  /** A listing page without the marker ends in the broken-tracker alert, or
      in a deal alert listing no URL when the listing page itself carries the
      signal. */
  lemma NoMarkerOutcome(listing: Option<string>, fetch: string -> Option<string>, parse: string -> Option<Record>)
    requires listing.Some?
    requires forall k :: !MarkerAt(listing.value, k)
    ensures Watch(listing, fetch, parse) == if Occurs(listing.value) then DealAlert([]) else BrokenAlert
  {
    NoMarkerNoRecords(listing.value, parse);
    assert SimplifyProducts([]) == Normal([]);
  }

  /** Once a product survives, the detail page alone decides the signal: a
      signal on the listing page is overwritten. */
  lemma DetailPageOverrides(listing: Option<string>, fetch: string -> Option<string>, parse: string -> Option<Record>, products: seq<Summary>, detail: string)
    ensures
      && listing.Some?
      && SimplifyProducts(Extract(listing.value, parse)) == Normal(products)
      && products != [] && fetch(DetailUrl(products[0])) == Some(detail)
      ==> Watch(listing, fetch, parse) == if Occurs(detail) then DealAlert(LandingUrls(products)) else NoMail
  {
    if listing.Some? && SimplifyProducts(Extract(listing.value, parse)) == Normal(products) && products != [] {
      assert Extract(listing.value, parse) != [];
    }
  }

  /** When every raw record is filtered out, the tracker still counts as
      working and no detail page is fetched, so the listing page decides
      between a deal alert listing no URL and no mail. */
  lemma AllFilteredListingDecides(listing: Option<string>, fetch: string -> Option<string>, parse: string -> Option<Record>)
    ensures
      && listing.Some?
      && Extract(listing.value, parse) != []
      && SimplifyProducts(Extract(listing.value, parse)) == Normal([])
      ==> Watch(listing, fetch, parse) == if Occurs(listing.value) then DealAlert([]) else NoMail
  {
  }

  /** An end-to-end case: the listing page yields a "22K" coin
      and a plain one and carries no signal; the detail page of the plain
      coin says BLINKDEAL. The 22K coin is dropped, the detail page decides,
      and the deal mail lists exactly the surviving coin's URL. */
  lemma TwoProductScenario(listing: Option<string>, fetch: string -> Option<string>, parse: string -> Option<Record>)
    ensures
      && listing.Some? && !Occurs(listing.value)
      && Extract(listing.value, parse) == [ScenarioCoin22k(), ScenarioCoin()]
      && fetch(SiteOrigin + "coin-24k") == Some("Grab the BLINKDEAL today")
      ==> Watch(listing, fetch, parse) == DealAlert([Def(Str("coin-24k"))])
  {
    TwoProductScan(listing, fetch, parse);
    DealAlertOfScan(listing, fetch, parse, [ScenarioSummary()]);
    ScenarioLandingUrls();
  }

  /** A scan that found the signal ends in a deal alert listing its products. */
  lemma DealAlertOfScan(listing: Option<string>, fetch: string -> Option<string>, parse: string -> Option<Record>, products: seq<Summary>)
    ensures FetchMyntraPage(listing, fetch, parse) == Some(ScanResult(true, true, products)) ==>
      Watch(listing, fetch, parse) == DealAlert(LandingUrls(products))
  {
  }

  /** The surviving coin's landing URL. */
  lemma ScenarioLandingUrls()
    ensures LandingUrls([ScenarioSummary()]) == [Def(Str("coin-24k"))]
  {
  }

  /** The scan of the same case: the signal comes from the detail page, the
      tracker counts as working, and only the plain coin is listed. */
  lemma TwoProductScan(listing: Option<string>, fetch: string -> Option<string>, parse: string -> Option<Record>)
    ensures
      && listing.Some?
      && Extract(listing.value, parse) == [ScenarioCoin22k(), ScenarioCoin()]
      && fetch(SiteOrigin + "coin-24k") == Some("Grab the BLINKDEAL today")
      ==> FetchMyntraPage(listing, fetch, parse) == Some(ScanResult(true, true, [ScenarioSummary()]))
  {
    ScenarioSimplified();
    SignalInText();
    assert DetailUrl(ScenarioSummary()) == SiteOrigin + "coin-24k";
    ScanWithProducts(listing, fetch, parse, [ScenarioSummary()], "Grab the BLINKDEAL today");
  }

  /** A scan whose listing yields surviving products takes its signal from
      the first product's detail page. */
  lemma ScanWithProducts(listing: Option<string>, fetch: string -> Option<string>, parse: string -> Option<Record>, products: seq<Summary>, detail: string)
    ensures
      && listing.Some?
      && SimplifyProducts(Extract(listing.value, parse)) == Normal(products) && products != []
      && fetch(DetailUrl(products[0])) == Some(detail)
      ==> FetchMyntraPage(listing, fetch, parse) == Some(ScanResult(Occurs(detail), true, products))
  {
    if listing.Some? && SimplifyProducts(Extract(listing.value, parse)) == Normal(products) && products != [] {
      assert Extract(listing.value, parse) != [];
    }
  }
}
