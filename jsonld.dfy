/**
 * `try_parse_jsonld` (z_scrapper.py:57-97): a last-write-wins fold of every dict item
 * of every JSON-LD script block into one string dictionary.
 *
 * Each script block is given as what `json.loads` made of its text, `None` standing
 * for a block that was empty or did not parse (both skipped by the source).
 */
module JsonLd {

  import opened Wrappers
  import opened Text
  import opened Json

  /** The dictionary `out`: key to the text `first_nonempty` produced. */
  type Extracted = map<string, string>

  /** The only keys the extractor ever writes. */
  const ExtractedKeys: set<string> := {"price", "priceCurrency", "beds", "baths", "area", "areaUnit", "url"}

  /** `offers.get("priceSpecification", {}).get("price")` when that is a dict, else `None`. */
  function SpecPrice(offers: map<string, Json>): Json {
    match Get(offers, "priceSpecification")
    case JObject(spec) => Get(spec, "price")
    case _ => JNull
  }

  /** The price of an offers dict: its own `price`, else that of its `priceSpecification`. */
  function OfferPrice(offers: map<string, Json>): string {
    FirstNonEmpty([Get(offers, "price"), SpecPrice(offers)])
  }

  function BedsOf(d: map<string, Json>): string {
    FirstNonEmpty([Get(d, "numberOfBedrooms"), Get(d, "numberOfRooms")])
  }

  function BathsOf(d: map<string, Json>): string {
    FirstNonEmpty([Get(d, "numberOfBathroomsTotal")])
  }

  function UrlOf(d: map<string, Json>): string {
    FirstNonEmpty([Get(d, "url")])
  }

  /** Every value of the dictionary is a clean string. */
  predicate AllClean(out: Extracted) {
    forall k :: k in out ==> IsClean(out[k])
  }

  /** The keys a dict item writes: always beds, baths and url; the price pair and the area pair only when their source is a dict. */
  function WrittenKeys(d: map<string, Json>): (ks: set<string>)
    ensures ks <= ExtractedKeys
    ensures "beds" in ks && "baths" in ks && "url" in ks
    ensures "price" in ks <==> Get(d, "offers").JObject?
    ensures "priceCurrency" in ks <==> Get(d, "offers").JObject?
    ensures "area" in ks <==> Get(d, "floorSize").JObject?
    ensures "areaUnit" in ks <==> Get(d, "floorSize").JObject?
    ensures "address" !in ks
  {
    {"beds", "baths", "url"}
    + (if Get(d, "offers").JObject? then {"price", "priceCurrency"} else {})
    + (if Get(d, "floorSize").JObject? then {"area", "areaUnit"} else {})
  }

  function CurrencyOf(offers: map<string, Json>): string {
    FirstNonEmpty([Get(offers, "priceCurrency")])
  }

  function AreaOf(floor: map<string, Json>): string {
    FirstNonEmpty([Get(floor, "value")])
  }

  function AreaUnitOf(floor: map<string, Json>): string {
    FirstNonEmpty([Get(floor, "unitText")])
  }

  /** One pass of the inner loop body (z_scrapper.py:74-95) on item `it`. */
  function ApplyItem(out: Extracted, it: Json): Extracted {
    match it
    case JObject(d) =>
      var withPrice := match Get(d, "offers")
        case JObject(offers) => out["price" := OfferPrice(offers)]["priceCurrency" := CurrencyOf(offers)]
        case _ => out;
      var withCounts := withPrice["beds" := BedsOf(d)]["baths" := BathsOf(d)];
      var withArea := match Get(d, "floorSize")
        case JObject(floor) => withCounts["area" := AreaOf(floor)]["areaUnit" := AreaUnitOf(floor)]
        case _ => withCounts;
      withArea["url" := UrlOf(d)]
    case _ => out
  }

  /** A dict item writes exactly its WrittenKeys and leaves every other entry as it was. */
  lemma ApplyItemFrame(out: Extracted, d: map<string, Json>)
    ensures ApplyItem(out, JObject(d)).Keys == out.Keys + WrittenKeys(d)
    ensures forall k :: k in out && k !in WrittenKeys(d) ==> ApplyItem(out, JObject(d))[k] == out[k]
  {
  }

  /** What a dict item writes: beds, baths and url always, the price and area pairs from their dicts. */
  lemma ApplyItemWrites(out: Extracted, d: map<string, Json>)
    ensures var r := ApplyItem(out, JObject(d));
      && r["beds"] == BedsOf(d) && r["baths"] == BathsOf(d) && r["url"] == UrlOf(d)
      && (Get(d, "offers").JObject? ==>
            r["price"] == OfferPrice(Get(d, "offers").fields) && r["priceCurrency"] == CurrencyOf(Get(d, "offers").fields))
      && (Get(d, "floorSize").JObject? ==>
            r["area"] == AreaOf(Get(d, "floorSize").fields) && r["areaUnit"] == AreaUnitOf(Get(d, "floorSize").fields))
  {
  }

  /** Every value written is clean, so a clean dictionary stays clean. */
  lemma ApplyItemClean(out: Extracted, it: Json)
    requires AllClean(out)
    ensures AllClean(ApplyItem(out, it))
  {
  }

  /** `obj if isinstance(obj, list) else [obj]`. */
  function BlockItems(obj: Json): seq<Json> {
    if obj.JArray? then obj.items else [obj]
  }

  /** The items of one block applied in order. */
  function ApplyItems(out: Extracted, items: seq<Json>): Extracted
    decreases |items|
  {
    if items == [] then out else ApplyItem(ApplyItems(out, items[..|items| - 1]), items[|items| - 1])
  }

  /** One pass of the outer loop body: a skipped block, or the items of a parsed one. */
  function ApplyBlock(out: Extracted, block: Option<Json>): Extracted {
    match block
    case None => out
    case Some(obj) => ApplyItems(out, BlockItems(obj))
  }

  /** The blocks applied in order, starting from `out`. */
  function ExtractFrom(out: Extracted, scripts: seq<Option<Json>>): Extracted
    decreases |scripts|
  {
    if scripts == [] then out else ApplyBlock(ExtractFrom(out, scripts[..|scripts| - 1]), scripts[|scripts| - 1])
  }

  /** `try_parse_jsonld(soup)` on the page's script blocks. */
  function ExtractJsonLd(scripts: seq<Option<Json>>): Extracted {
    ExtractFrom(map[], scripts)
  }

  /**
   * `try_parse_jsonld`, step by step as the source runs it: the dictionary is
   * updated in place for every dict item of every parsed block.
   */
  method TryParseJsonLd(scripts: seq<Option<Json>>) returns (out: Extracted)
    ensures out == ExtractJsonLd(scripts)
    ensures "address" !in out
    ensures out.Keys <= ExtractedKeys
    ensures AllClean(out)
  {
    out := map[];
    for i := 0 to |scripts|
      invariant out == ExtractFrom(map[], scripts[..i])
    {
      assert scripts[..i + 1][..i] == scripts[..i];
      if scripts[i].None? {
        continue;
      }
      var obj := scripts[i].value;
      var items := if obj.JArray? then obj.items else [obj];
      out := ApplyBlockItems(out, items);
    }
    assert scripts[..|scripts|] == scripts;
    ExtractedKeysOnly(scripts);
    ExtractedAllClean(scripts);
  }

  /** The inner loop of `try_parse_jsonld` over the items of one parsed block. */
  method ApplyBlockItems(before: Extracted, items: seq<Json>) returns (out: Extracted)
    ensures out == ApplyItems(before, items)
  {
    out := before;
    for j := 0 to |items|
      invariant out == ApplyItems(before, items[..j])
    {
      assert items[..j + 1][..j] == items[..j];
      var it := items[j];
      if !it.JObject? {
        continue;
      }
      var d := it.fields;
      var offers := Get(d, "offers");
      if offers.JObject? {
        out := out["price" := OfferPrice(offers.fields)];
        out := out["priceCurrency" := CurrencyOf(offers.fields)];
      }
      out := out["beds" := BedsOf(d)];
      out := out["baths" := BathsOf(d)];
      var floor := Get(d, "floorSize");
      if floor.JObject? {
        out := out["area" := AreaOf(floor.fields)];
        out := out["areaUnit" := AreaUnitOf(floor.fields)];
      }
      out := out["url" := UrlOf(d)];
    }
    assert items[..|items|] == items;
  }

  // ---------------------------------------------------------------------------
  // Properties of the fold
  // ---------------------------------------------------------------------------

  /** Applying items only adds keys the extractor writes. */
  lemma {:induction false} ApplyItemsKeys(out: Extracted, items: seq<Json>)
    ensures ApplyItems(out, items).Keys <= out.Keys + ExtractedKeys
    decreases |items|
  {
    if items != [] {
      ApplyItemsKeys(out, items[..|items| - 1]);
      var last := items[|items| - 1];
      if last.JObject? {
        ApplyItemFrame(ApplyItems(out, items[..|items| - 1]), last.fields);
      }
    }
  }

  lemma {:induction false} ExtractFromKeys(out: Extracted, scripts: seq<Option<Json>>)
    ensures ExtractFrom(out, scripts).Keys <= out.Keys + ExtractedKeys
    decreases |scripts|
  {
    if scripts != [] {
      var prev := ExtractFrom(out, scripts[..|scripts| - 1]);
      ExtractFromKeys(out, scripts[..|scripts| - 1]);
      match scripts[|scripts| - 1]
      case None =>
      case Some(obj) => ApplyItemsKeys(prev, BlockItems(obj));
    }
  }

  /** The extracted dictionary has only the seven known keys; in particular it never has "address". */
  lemma ExtractedKeysOnly(scripts: seq<Option<Json>>)
    ensures ExtractJsonLd(scripts).Keys <= ExtractedKeys
    ensures "address" !in ExtractJsonLd(scripts)
  {
    ExtractFromKeys(map[], scripts);
  }

  lemma {:induction false} ApplyItemsClean(out: Extracted, items: seq<Json>)
    requires AllClean(out)
    ensures AllClean(ApplyItems(out, items))
    decreases |items|
  {
    if items != [] {
      ApplyItemsClean(out, items[..|items| - 1]);
      ApplyItemClean(ApplyItems(out, items[..|items| - 1]), items[|items| - 1]);
    }
  }

  lemma {:induction false} ExtractFromClean(out: Extracted, scripts: seq<Option<Json>>)
    requires AllClean(out)
    ensures AllClean(ExtractFrom(out, scripts))
    decreases |scripts|
  {
    if scripts != [] {
      var prev := ExtractFrom(out, scripts[..|scripts| - 1]);
      ExtractFromClean(out, scripts[..|scripts| - 1]);
      match scripts[|scripts| - 1]
      case None =>
      case Some(obj) => ApplyItemsClean(prev, BlockItems(obj));
    }
  }

  /** Every extracted value is a clean string. */
  lemma ExtractedAllClean(scripts: seq<Option<Json>>)
    ensures AllClean(ExtractJsonLd(scripts))
  {
    ExtractFromClean(map[], scripts);
  }

  /** Processing a+b is processing a, then b from where a left off. */
  lemma {:induction false} ExtractFromAppend(out: Extracted, a: seq<Option<Json>>, b: seq<Option<Json>>)
    ensures ExtractFrom(out, a + b) == ExtractFrom(ExtractFrom(out, a), b)
    decreases |b|
  {
    if b == [] {
      assert a + b == a;
    } else {
      assert (a + b)[..|a + b| - 1] == a + b[..|b| - 1];
      ExtractFromAppend(out, a, b[..|b| - 1]);
    }
  }

  /** Items that are not dicts leave the dictionary unchanged. */
  lemma {:induction false} NonDictItemsSkipped(out: Extracted, items: seq<Json>)
    requires forall i :: 0 <= i < |items| ==> !items[i].JObject?
    ensures ApplyItems(out, items) == out
    decreases |items|
  {
    if items != [] {
      NonDictItemsSkipped(out, items[..|items| - 1]);
    }
  }

  /** Blocks that are empty, unparsable or hold no dict leave the dictionary unchanged. */
  lemma {:induction false} UselessBlocksSkipped(out: Extracted, scripts: seq<Option<Json>>)
    requires forall i :: 0 <= i < |scripts| ==>
      scripts[i].None? || forall k :: 0 <= k < |BlockItems(scripts[i].value)| ==> !BlockItems(scripts[i].value)[k].JObject?
    ensures ExtractFrom(out, scripts) == out
    decreases |scripts|
  {
    if scripts != [] {
      UselessBlocksSkipped(out, scripts[..|scripts| - 1]);
      var last := scripts[|scripts| - 1];
      if last.Some? {
        NonDictItemsSkipped(out, BlockItems(last.value));
      }
    }
  }

  /** A later dict item overrides beds, baths and url of every earlier one, even with "". */
  lemma LastDictWins(out: Extracted, items: seq<Json>)
    requires items != [] && items[|items| - 1].JObject?
    ensures var r := ApplyItems(out, items);
      && r["beds"] == BedsOf(items[|items| - 1].fields)
      && r["baths"] == BathsOf(items[|items| - 1].fields)
      && r["url"] == UrlOf(items[|items| - 1].fields)
  {
    ApplyItemWrites(ApplyItems(out, items[..|items| - 1]), items[|items| - 1].fields);
  }

  /** Without a dict `offers`, an item keeps the price pair as it was; likewise the area pair without a dict `floorSize`. */
  lemma ConditionalPairsKept(out: Extracted, d: map<string, Json>)
    ensures !Get(d, "offers").JObject? ==>
      var r := ApplyItem(out, JObject(d));
      && ("price" in r <==> "price" in out) && ("price" in out ==> r["price"] == out["price"])
      && ("priceCurrency" in r <==> "priceCurrency" in out) && ("priceCurrency" in out ==> r["priceCurrency"] == out["priceCurrency"])
    ensures !Get(d, "floorSize").JObject? ==>
      var r := ApplyItem(out, JObject(d));
      && ("area" in r <==> "area" in out) && ("area" in out ==> r["area"] == out["area"])
      && ("areaUnit" in r <==> "areaUnit" in out) && ("areaUnit" in out ==> r["areaUnit"] == out["areaUnit"])
  {
    ApplyItemFrame(out, d);
  }

  /** The offer price falls back to `priceSpecification.price` exactly when `price` itself does not qualify. */
  lemma OfferPriceFallback(offers: map<string, Json>)
    ensures Qualifies(Get(offers, "price")) ==> OfferPrice(offers) == Render(Get(offers, "price"))
    ensures !Qualifies(Get(offers, "price")) && Qualifies(SpecPrice(offers)) ==> OfferPrice(offers) == Render(SpecPrice(offers))
    ensures !Qualifies(Get(offers, "price")) && !Qualifies(SpecPrice(offers)) ==> OfferPrice(offers) == ""
  {
    var vals := [Get(offers, "price"), SpecPrice(offers)];
    if Qualifies(vals[0]) {
      FirstNonEmptyPicksFirst(vals, 0);
    } else if Qualifies(vals[1]) {
      FirstNonEmptyPicksFirst(vals, 1);
    } else {
      FirstNonEmptyNoneQualify(vals);
    }
  }
}
