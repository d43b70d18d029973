/**
 * `parse_detail_page` (z_scrapper.py:127-213): the JSON-LD fields, the three-tier
 * address cascade, and the switch between the metadata record and the text fallback.
 *
 * The parsed HTML document is given by what the source reads from it: the JSON-LD
 * script blocks, the text of the link under the title (tier 2 of the address), the
 * text of the first element each backup selector finds (tier 3), and the whole
 * page text.
 */
module Detail {

  import opened Wrappers
  import opened Text
  import opened Json
  import opened JsonLd
  import opened Fallback
  import opened Links
  import opened Records

  /** The backup address selectors of z_scrapper.py:166-173, in the order they are tried. */
  const AddressSelectors: seq<string> := [
    "a[href*=\"/Karachi/\"]",
    "a[href*=\"Federal_B_Area\"]",
    "span[aria-label=\"Location\"]",
    "div[aria-label=\"Location\"]",
    "[class*=\"location\" i]",
    "[class*=\"address\" i]"
  ]

  /** For each backup selector, the text of the first element it selects, `None` when it selects none. */
  type SelectorHits = hits: seq<Option<string>> | |hits| == |AddressSelectors|
    witness [None, None, None, None, None, None]

  /** What `parse_detail_page` reads from the parsed document. */
  datatype DetailPage = DetailPage(
    scripts: seq<Option<Json>>,
    headingLink: Option<string>,
    selectorHits: SelectorHits,
    text: string)

  // ---------------------------------------------------------------------------
  // The address cascade (z_scrapper.py:142-183)
  // ---------------------------------------------------------------------------

  /** `j.get(key)` on the extracted dictionary: its string, or `None`. */
  function Lookup(j: Extracted, key: string): Json {
    if key in j then JStr(j[key]) else JNull
  }

  /** Tier 1 on the value of `j.get("address")`: a dict's first usable part, a string stripped, otherwise "". */
  function JsonLdAddress(addrObj: Json): string {
    match addrObj
    case JObject(d) => FirstNonEmpty([Get(d, "streetAddress"), Get(d, "name"), Get(d, "addressLocality")])
    case JStr(s) => Strip(s)
    case _ => ""
  }

  /** A backup candidate is taken when non-empty, at most 140 characters long and free of "PKR". */
  predicate AcceptableAddress(txt: string) {
    txt != "" && |txt| <= 140 && !Contains(txt, "PKR")
  }

  predicate AcceptableHit(hit: Option<string>) {
    hit.Some? && AcceptableAddress(hit.value)
  }

  /** The first position from `from` on whose candidate is acceptable, |hits| when there is none. */
  function FirstAcceptable(hits: seq<Option<string>>, from: nat): (k: nat)
    requires from <= |hits|
    ensures from <= k <= |hits|
    ensures k < |hits| ==> AcceptableHit(hits[k])
    ensures forall j :: from <= j < k ==> !AcceptableHit(hits[j])
    decreases |hits| - from
  {
    if from == |hits| || AcceptableHit(hits[from]) then from else FirstAcceptable(hits, from + 1)
  }

  /** Tier 3: the first acceptable backup candidate, or "". */
  function BackupAddress(hits: seq<Option<string>>): string {
    var k := FirstAcceptable(hits, 0);
    if k < |hits| then hits[k].value else ""
  }

  /** The address the cascade settles on: each tier is consulted only while the address is still "". */
  function AddressCascade(tier1: string, headingLink: Option<string>, hits: seq<Option<string>>): string {
    var afterHeading := if tier1 == "" && headingLink.Some? then headingLink.value else tier1;
    var afterBackup := if afterHeading == "" then BackupAddress(hits) else afterHeading;
    Strip(afterBackup)
  }

  /** The cascade as the source runs it: tier after tier, the backup selectors in a loop left at the first acceptable one. */
  method ResolveAddress(tier1: string, headingLink: Option<string>, hits: seq<Option<string>>) returns (address: string)
    ensures address == AddressCascade(tier1, headingLink, hits)
    ensures Trimmed(address)
  {
    address := tier1;
    if address == "" {
      if headingLink.Some? {
        address := headingLink.value;
      }
    }
    if address == "" {
      var i := 0;
      while i < |hits|
        invariant 0 <= i <= |hits|
        invariant address == ""
        invariant forall j :: 0 <= j < i ==> !AcceptableHit(hits[j])
      {
        var hit := hits[i];
        if hit.Some? {
          var txt := hit.value;
          if txt != "" && |txt| <= 140 && !Contains(txt, "PKR") {
            address := txt;
            FirstAcceptableIs(hits, i);
            break;
          }
        }
        i := i + 1;
      }
      if address == "" {
        FirstAcceptableNone(hits);
      }
    }
    StripSpec(address);
    address := Strip(address);
  }

  /** When position k holds the first acceptable candidate, tier 3 gives it. */
  lemma FirstAcceptableIs(hits: seq<Option<string>>, k: nat)
    requires k < |hits| && AcceptableHit(hits[k])
    requires forall j :: 0 <= j < k ==> !AcceptableHit(hits[j])
    ensures BackupAddress(hits) == hits[k].value
  {
    var f := FirstAcceptable(hits, 0);
    assert !(f < k) && !(k < f);
  }

  /** With no acceptable candidate, tier 3 gives "". */
  lemma FirstAcceptableNone(hits: seq<Option<string>>)
    requires forall j :: 0 <= j < |hits| ==> !AcceptableHit(hits[j])
    ensures BackupAddress(hits) == ""
  {
  }

  /** Tier 1, when non-empty, decides the address. */
  lemma CascadeTier1(tier1: string, headingLink: Option<string>, hits: seq<Option<string>>)
    requires tier1 != ""
    ensures AddressCascade(tier1, headingLink, hits) == Strip(tier1)
  {
  }

  /** Otherwise a non-empty heading link text decides it. */
  lemma CascadeTier2(headingLink: Option<string>, hits: seq<Option<string>>)
    requires headingLink.Some? && headingLink.value != ""
    ensures AddressCascade("", headingLink, hits) == Strip(headingLink.value)
  {
  }

  /**
   * Otherwise the first backup candidate that is non-empty, at most 140 characters
   * and free of "PKR" decides it, and the address is "" when there is none.
   */
  lemma CascadeTier3(headingLink: Option<string>, hits: seq<Option<string>>)
    requires headingLink.None? || headingLink.value == ""
    ensures var k := FirstAcceptable(hits, 0);
      && (k < |hits| ==> AddressCascade("", headingLink, hits) == Strip(hits[k].value))
      && (k == |hits| ==> AddressCascade("", headingLink, hits) == "")
  {
    var k := FirstAcceptable(hits, 0);
    if k == |hits| {
      assert Strip("") == "";
    }
  }

  /** A candidate longer than 140 characters, or one containing "PKR", is passed over for the next one. */
  lemma CascadeSkipsRejected(headingLink: Option<string>, hits: seq<Option<string>>, k: nat)
    requires headingLink.None? || headingLink.value == ""
    requires k < |hits| && AcceptableHit(hits[k])
    requires forall j :: 0 <= j < k ==> hits[j].None? || |hits[j].value| > 140 || Contains(hits[j].value, "PKR")
    ensures AddressCascade("", headingLink, hits) == Strip(hits[k].value)
  {
    FirstAcceptableIs(hits, k);
  }

  /** A 150-character candidate and a candidate containing "PKR" are both rejected. */
  lemma RejectedCandidates(long: string, priced: string)
    requires |long| == 150 && Contains(priced, "PKR")
    ensures !AcceptableAddress(long) && !AcceptableAddress(priced)
  {
  }

  // ---------------------------------------------------------------------------
  // parse_detail_page
  // ---------------------------------------------------------------------------

  /** `price_text`: "currency price" when both are set, the price alone when only it is. */
  function PriceTextOf(currency: string, price: string): (p: string)
    ensures currency != "" && price != "" ==> p == currency + " " + price
    ensures currency == "" && price != "" ==> p == price
    ensures price == "" ==> p == ""
  {
    if currency != "" && price != "" then currency + " " + price
    else if price != "" then price
    else ""
  }

  /** The JSON-LD fields `parse_detail_page` reads, each through `first_nonempty`. */
  datatype JsonLdFields = JsonLdFields(
    price: string, currency: string, beds: string, baths: string, area: string, areaUnit: string, link: string)

  function ReadFields(j: Extracted, url: string): JsonLdFields {
    JsonLdFields(
      FirstNonEmpty([Lookup(j, "price")]),
      FirstNonEmpty([Lookup(j, "priceCurrency")]),
      FirstNonEmpty([Lookup(j, "beds")]),
      FirstNonEmpty([Lookup(j, "baths")]),
      FirstNonEmpty([Lookup(j, "area")]),
      FirstNonEmpty([Lookup(j, "areaUnit")]),
      FirstNonEmpty([Lookup(j, "url"), JStr(url)]))
  }

  /** The page has none of price, beds, baths and area in its JSON-LD, so the text fallback is used. */
  predicate NeedsFallback(f: JsonLdFields) {
    f.price == "" && f.beds == "" && f.baths == "" && f.area == ""
  }

  /** The record of a page, with the address the cascade found. */
  function Assemble(urlJoin: string -> string, f: JsonLdFields, address: string, page: DetailPage, url: string): Listing {
    if NeedsFallback(f) then
      var fb := HtmlFallbackExtract(page.text, url);
      Listing(fb.priceText, fb.beds, fb.baths, fb.area, fb.areaUnit, address, fb.link)
    else
      Listing(PriceTextOf(f.currency, f.price), f.beds, f.baths, f.area, f.areaUnit, address, NormalizeLink(urlJoin, f.link))
  }

  /** `parse_detail_page(html, url)` on the page's parts. */
  function DetailRecord(urlJoin: string -> string, page: DetailPage, url: string): Listing {
    var j := ExtractJsonLd(page.scripts);
    var address := AddressCascade(JsonLdAddress(Lookup(j, "address")), page.headingLink, page.selectorHits);
    Assemble(urlJoin, ReadFields(j, url), address, page, url)
  }

  /** `parse_detail_page`, running the JSON-LD extraction and the address cascade as the source does. */
  method ParseDetailPage(urlJoin: string -> string, page: DetailPage, url: string) returns (rec: Listing)
    ensures rec == DetailRecord(urlJoin, page, url)
    ensures Trimmed(rec.address)
  {
    var j := TryParseJsonLd(page.scripts);
    var f := ReadFields(j, url);
    var address := ResolveAddress(JsonLdAddress(Lookup(j, "address")), page.headingLink, page.selectorHits);
    if f.price == "" && f.beds == "" && f.baths == "" && f.area == "" {
      var fb := HtmlFallbackExtract(page.text, url);
      rec := Listing(fb.priceText, fb.beds, fb.baths, fb.area, fb.areaUnit, address, fb.link);
    } else {
      var priceText := "";
      if f.currency != "" && f.price != "" {
        priceText := f.currency + " " + f.price;
      } else if f.price != "" {
        priceText := f.price;
      }
      rec := Listing(priceText, f.beds, f.baths, f.area, f.areaUnit, address, NormalizeLink(urlJoin, f.link));
    }
  }

  // ---------------------------------------------------------------------------
  // Properties of parse_detail_page
  // ---------------------------------------------------------------------------

  /** The JSON-LD address tier never fires: the extracted dictionary has no "address" key. */
  lemma AddressNeverFromJsonLd(urlJoin: string -> string, page: DetailPage, url: string)
    ensures DetailRecord(urlJoin, page, url).address == AddressCascade("", page.headingLink, page.selectorHits)
  {
    ExtractedKeysOnly(page.scripts);
  }

  /** A field read back from the extracted dictionary is its value there, or "" when it is missing. */
  lemma ReadBack(j: Extracted, key: string)
    requires AllClean(j)
    ensures key in j ==> FirstNonEmpty([Lookup(j, key)]) == j[key]
    ensures key !in j ==> FirstNonEmpty([Lookup(j, key)]) == ""
  {
    if key in j {
      FirstNonEmptyOfString(j[key]);
    }
  }

  /**
   * With none of price, beds, baths and area, every field but the address comes from
   * the text fallback, and the link is the page URL as given.
   */
  lemma FallbackBranch(urlJoin: string -> string, page: DetailPage, url: string)
    requires NeedsFallback(ReadFields(ExtractJsonLd(page.scripts), url))
    ensures var rec := DetailRecord(urlJoin, page, url);
      var fb := HtmlFallbackExtract(page.text, url);
      && rec.priceText == fb.priceText && rec.beds == fb.beds && rec.baths == fb.baths
      && rec.area == fb.area && rec.areaUnit == fb.areaUnit
      && rec.link == url
  {
  }

  /**
   * Otherwise the record is the metadata one: `price_text` composed from currency and
   * price, and the link the normalized first of the JSON-LD url and the page URL.
   */
  lemma MetadataBranch(urlJoin: string -> string, page: DetailPage, url: string)
    requires !NeedsFallback(ReadFields(ExtractJsonLd(page.scripts), url))
    ensures var j := ExtractJsonLd(page.scripts);
      var f := ReadFields(j, url);
      var rec := DetailRecord(urlJoin, page, url);
      && (f.currency != "" && f.price != "" ==> rec.priceText == f.currency + " " + f.price)
      && (f.currency == "" && f.price != "" ==> rec.priceText == f.price)
      && (f.price == "" ==> rec.priceText == "")
      && rec.beds == f.beds && rec.baths == f.baths && rec.area == f.area && rec.areaUnit == f.areaUnit
      && rec.link == NormalizeLink(urlJoin, FirstNonEmpty([Lookup(j, "url"), JStr(url)]))
  {
  }

  /** Without a JSON-LD url, the metadata record links to the page URL, cleaned and normalized. */
  lemma MetadataLinkDefaultsToUrl(urlJoin: string -> string, page: DetailPage, url: string)
    requires !NeedsFallback(ReadFields(ExtractJsonLd(page.scripts), url))
    requires "url" !in ExtractJsonLd(page.scripts) || ExtractJsonLd(page.scripts)["url"] == ""
    ensures DetailRecord(urlJoin, page, url).link == NormalizeLink(urlJoin, Clean(url))
  {
    ExtractedAllClean(page.scripts);
    LinkDefaultsToUrl(ExtractJsonLd(page.scripts), url);
  }

  /** With no stored url, the link read is the cleaned page URL. */
  lemma LinkDefaultsToUrl(j: Extracted, url: string)
    requires AllClean(j)
    requires "url" !in j || j["url"] == ""
    ensures ReadFields(j, url).link == Clean(url)
  {
    var vals := [Lookup(j, "url"), JStr(url)];
    if "url" in j {
      assert Clean(j["url"]) == "" by {
        CleanFixpoint(j["url"]);
      }
    }
    assert !Qualifies(vals[0]);
    if Qualifies(vals[1]) {
      FirstNonEmptyPicksFirst(vals, 1);
    } else {
      FirstNonEmptyNoneQualify(vals);
      CleanEmptyIff(url);
    }
  }

  /** The metadata record's price fields are those the JSON-LD extraction stored. */
  lemma MetadataPriceFromJsonLd(page: DetailPage, url: string)
    ensures var j := ExtractJsonLd(page.scripts);
      var f := ReadFields(j, url);
      && ("price" in j ==> f.price == j["price"]) && ("price" !in j ==> f.price == "")
      && ("priceCurrency" in j ==> f.currency == j["priceCurrency"]) && ("priceCurrency" !in j ==> f.currency == "")
  {
    var j := ExtractJsonLd(page.scripts);
    ExtractedAllClean(page.scripts);
    ReadBack(j, "price");
    ReadBack(j, "priceCurrency");
  }
}
