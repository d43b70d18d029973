# Zameen rental listings scraper — a Dafny model of its core

The scraper visits the Zameen.com results pages for a rental search. It collects
the links of real listing pages, opens each one, and builds one row per listing
(price text, beds, baths, area, area unit, address, link). It then compares the
links with the set seen on earlier runs, e-mails the new rows, and saves the
enlarged seen set.

This project models the decision logic of that pipeline:

- text normalisation: `clean`, `str.strip`, `first_nonempty`;
- link handling: `normalize_link`, the `PROPERTY_RE` listing test,
  `collect_listing_links` with its filter and order-preserving dedupe, and
  `build_page_urls` with its `PAGE_RE` substitution;
- the detail page: the JSON-LD extractor `try_parse_jsonld`, the regular-expression
  fallback `html_fallback_extract`, and `parse_detail_page` with its three-tier
  address cascade and its choice between the metadata record and the fallback record;
- the notifier: `pick_new` and `build_email_body`;
- the first-run/delta selection of the main block, and the seen set it saves.

Modules, one file each:

| file | module | models |
|---|---|---|
| `wrappers.dfy` | `Wrappers` | `Option` |
| `text.dfy` | `Text` | `str.isspace`, `strip`, `clean`, `str(int)` |
| `json.dfy` | `Json` | parsed JSON values, `first_nonempty` |
| `seqs.dfy` | `Seqs` | order-preserving dedupe and subsequences |
| `links.dfy` | `Links` | `normalize_link`, `is_real_listing`, `collect_listing_links`, `build_page_urls` |
| `jsonld.dfy` | `JsonLd` | `try_parse_jsonld` |
| `fallback.dfy` | `Fallback` | `html_fallback_extract` and its four regular expressions |
| `records.dfy` | `Records` | the row written per listing |
| `detail.dfy` | `Detail` | `parse_detail_page` and the address cascade |
| `notifier.dfy` | `Notifier` | `pick_new`, `build_email_body` |
| `delta.dfy` | `Delta` | first-run/delta selection, the saved seen set |

The source's loops are Dafny methods: `TryParseJsonLd`, `ResolveAddress`,
`ParseDetailPage`, `CollectListingLinks`, `BuildPageUrls`, `PickNew` and
`BuildEmailBody`. Each is proved equal to a specification function, and the
properties the source promises are lemmas about those functions.

## Where the code and its comments disagree

The comment at z_scrapper.py:139-140 says the address is taken from the JSON-LD
first, with the HTML as the fallback. The tier-1 code at z_scrapper.py:144-154 does
consult `j.get("address")`, and `Detail.CascadeTier1` proves that a non-empty
tier-1 address would decide the result. However, `try_parse_jsonld` never stores
an `"address"` key (z_scrapper.py:77-95). So tier 1 always yields "", and the
address comes from the HTML selectors. The model follows the code as written:
`JsonLd.ExtractedKeysOnly` and `Detail.AddressNeverFromJsonLd` prove that tier 1
never fires on any page.

## Model

| member | source | states |
|---|---|---|
| Text.StripLeft | z_scrapper.py:23 | the result is a suffix of the input; everything dropped is whitespace in the sense of `str.isspace`; the result does not start with whitespace |
| Text.StripRight | z_scrapper.py:23 | the result is a prefix of the input; everything dropped is whitespace; the result does not end with whitespace |
| Text.StripSpec | z_scrapper.py:23 | `strip()` leaves no leading or trailing whitespace, and keeps every non-space character in order |
| Text.TrimmedStrip | z_scrapper.py:38 | stripping an already trimmed string changes nothing |
| Text.Clean | z_scrapper.py:22-23 | `clean(s)` is the words of `s` (its maximal runs of non-whitespace) joined by single plain spaces; it is trimmed, its only whitespace is single spaces, and it keeps the non-space characters of `s` |
| Text.CleanOpt | z_scrapper.py:23 | `clean(None)` is "", and `clean(s)` is the words of `s` joined by single spaces |
| Text.CollapseShape | z_scrapper.py:23 | `re.sub(r"\s+", " ", …)` leaves only single plain spaces and keeps the non-space characters; it starts and ends with a space exactly when the input does |
| Text.WordsShape | z_scrapper.py:23 | every word of a string is non-empty and holds no whitespace |
| Text.CollapseTrimmed | z_scrapper.py:23 | on a trimmed string, the collapse of whitespace runs is its words joined by single spaces |
| Text.CollapseStripWords | z_scrapper.py:23 | `re.sub(r"\s+", " ", s.strip())` is the words of `s` joined by single spaces |
| Text.WordsOfUnwords | z_scrapper.py:23 | joining non-empty whitespace-free words by single spaces and splitting again gives the same words back |
| Text.CleanKeepsWords | z_scrapper.py:22-23 | `clean` keeps exactly the words of its input, in order |
| Text.WordsStripLeft | z_scrapper.py:23 | leading whitespace does not change the words of a string |
| Text.WordsStripRight | z_scrapper.py:23 | trailing whitespace does not change the words of a string |
| Text.CollapseFixpoint | z_scrapper.py:23 | collapsing a string that already has only single plain spaces changes nothing |
| Text.CleanFixpoint | z_scrapper.py:22-23 | a clean string is its own `clean` |
| Text.CleanIdempotent | z_scrapper.py:22-23 | `clean(clean(s)) == clean(s)` |
| Text.CleanEmptyIff | z_scrapper.py:22-23 | `clean(s)` is "" exactly when `s` is all whitespace |
| Text.NoSpaceIsClean | z_scrapper.py:22-23 | a string without whitespace is clean and unchanged by `clean` |
| Text.NatToString | z_scrapper.py:32 | `str(n)` of a natural number is a non-empty digit string without a leading zero, except for 0 itself |
| Text.IntToString | z_scrapper.py:32 | `str(v)` of any integer is non-empty and has no whitespace |
| Text.NatToStringRoundTrip | z_scrapper.py:32 | reading the decimal digits of `str(n)` back gives `n` |
| Text.NatToStringInjective | z_scrapper.py:32 | two numbers with the same decimal text are equal |
| Json.FirstNonEmpty | z_scrapper.py:25-33 | the result of `first_nonempty` is always a clean string |
| Json.FirstNonEmptyPicksFirst | z_scrapper.py:26-32 | when value k is the first non-blank string or the first number, the result is its cleaned text or `str(v)` |
| Json.FirstNonEmptyNoneQualify | z_scrapper.py:33 | when no value is a non-blank string or a number, the result is "" |
| Json.FirstNonEmptyBlankIff | z_scrapper.py:25-33 | the result is "" exactly when no value qualifies |
| Json.FirstNonEmptyOfString | z_scrapper.py:29-30 | a single string value yields its `clean`, and a clean string yields itself |
| Links.NormalizeLink | z_scrapper.py:35-41 | an empty href gives ""; an href starting with "http" after stripping is returned stripped; any other href is passed, stripped, to `urljoin(BASE, …)` |
| Links.NormalizeAbsoluteUnchanged | z_scrapper.py:38-40 | a trimmed absolute URL is returned unchanged |
| Links.NormalizeIdempotentOnAbsolute | z_scrapper.py:35-41 | normalizing twice is normalizing once whenever the first result is a trimmed absolute URL |
| Links.DigitSuffixLen | z_scrapper.py:46 | the longest run of digits ending the string: all digits, and preceded by a non-digit |
| Links.CutDashDigits | z_scrapper.py:46 | splitting off a final `-\d+`: the string is the head, a dash and a non-empty digit run |
| Links.CoreOf | z_scrapper.py:46 | `$` accepts one final newline: the URL is its core followed by that optional newline |
| Links.ShapeIsListing | z_scrapper.py:45-50 | every `https://www.zameen.com/Property/<slug>-<digits>-<digits>-4.html`, optionally with one final newline, is a real listing |
| Links.ListingHasShape | z_scrapper.py:45-50 | every URL accepted as a real listing has that shape |
| Links.IsRealListingIff | z_scrapper.py:45-50 | `is_real_listing` holds exactly for URLs of that shape |
| Links.ListingCoreParts | z_scrapper.py:46 | an accepted core splits into a non-empty slug and two non-empty digit runs |
| Links.ListingCoreFrame | z_scrapper.py:46 | an accepted URL starts with the Property prefix and ends with "-4.html" |
| Links.ListingExampleAccepted | z_scrapper.py:45-50 | a concrete Property URL ending in `-12345-67890-4.html` is accepted |
| Links.ListingExampleNoMarker | z_scrapper.py:45-50 | the same URL without the `-4` marker is rejected |
| Links.ListingExampleAgency | z_scrapper.py:45-50 | an Agency URL of the same form is rejected |
| Links.NormalizedHrefs | z_scrapper.py:230-231 | one normalized link per href |
| Links.NormalizedHrefsAt | z_scrapper.py:230-231 | position k holds `normalize_link` of href k |
| Links.RealListings | z_scrapper.py:229-233 | the filtered links are real listings taken from the input, and every real listing in the input is kept |
| Links.RealListingsInOrder | z_scrapper.py:229-233 | the filtered links keep the order they have in the input |
| Links.CollectedLinksInOrder | z_scrapper.py:229-243 | filter then dedupe keeps the input order of the links it keeps |
| Links.CollectedLinksFacts | z_scrapper.py:229-243 | filter then dedupe gives distinct real listings from the input, and loses none of them |
| Links.RealListingLinks | z_scrapper.py:229-233 | the first loop builds exactly the filtered normalized links, in order |
| Links.DedupeLinks | z_scrapper.py:236-243 | the `seen`-set loop builds exactly the order-preserving dedupe |
| Links.CollectListingLinks | z_scrapper.py:220-243 | the result has no duplicates, holds only real listings among the normalized hrefs, holds every one of them, and keeps the order in which they occur |
| Links.PageMatchAtSegment | z_scrapper.py:246 | `-<digits>-<digits>.html` at a position is matched in full |
| Links.SubFromNoDash | z_scrapper.py:257 | characters without a dash are copied unchanged by the substitution |
| Links.SubFromAtMatch | z_scrapper.py:257 | a match is replaced and the scan resumes after it |
| Links.BuildPageUrls | z_scrapper.py:248-259 | `max_pages` URLs, the k-th being the first URL with every page segment replaced by `-12-k.html` |
| Links.PageUrlReplacesSegment | z_scrapper.py:246-257 | for a results URL with one page segment, page n is that URL with the segment replaced by `-12-n.html` and all else unchanged |
| Links.PageUrlsDistinct | z_scrapper.py:248-259 | different page numbers give different URLs |
| Seqs.Dedupe | z_scrapper.py:236-243 | the result holds exactly the input's elements, each once, and is no longer than the input |
| Seqs.DedupeFirstOccurrenceOrder | z_scrapper.py:236-243 | the kept elements keep the order of their first occurrences |
| Seqs.DedupeIsSubsequence | z_scrapper.py:236-243 | the kept elements are a subsequence of the input |
| JsonLd.WrittenKeys | z_scrapper.py:77-95 | a dict item always writes beds, baths and url; it writes price and priceCurrency exactly when `offers` is a dict, area and areaUnit exactly when `floorSize` is; it never writes address |
| JsonLd.ApplyItemFrame | z_scrapper.py:73-95 | a dict item adds exactly its written keys and leaves every other entry as it was |
| JsonLd.ApplyItemWrites | z_scrapper.py:77-95 | the values a dict item writes: the offer price, the currency, beds from `numberOfBedrooms` or else `numberOfRooms`, baths, the floor value and unit, the url |
| JsonLd.ApplyItemClean | z_scrapper.py:79-95 | every value written is clean |
| JsonLd.TryParseJsonLd | z_scrapper.py:57-97 | the two nested loops build the specification dictionary; it has only the seven known keys, never "address", and only clean values |
| JsonLd.ApplyBlockItems | z_scrapper.py:72-95 | the inner loop applies the block's items in order |
| JsonLd.ApplyItemsKeys | z_scrapper.py:73-95 | applying items only adds keys the extractor writes |
| JsonLd.ExtractFromKeys | z_scrapper.py:63-97 | processing blocks only adds keys the extractor writes |
| JsonLd.ExtractedKeysOnly | z_scrapper.py:57-97 | the extracted dictionary has only the seven known keys, and in particular no "address" |
| JsonLd.ApplyItemsClean | z_scrapper.py:73-95 | applying items keeps a clean dictionary clean |
| JsonLd.ExtractFromClean | z_scrapper.py:63-97 | processing blocks keeps a clean dictionary clean |
| JsonLd.ExtractedAllClean | z_scrapper.py:57-97 | every extracted value is a clean string |
| JsonLd.ExtractFromAppend | z_scrapper.py:63-97 | processing blocks a then b is processing b from where a left off |
| JsonLd.NonDictItemsSkipped | z_scrapper.py:73-75 | items that are not dicts leave the dictionary unchanged |
| JsonLd.UselessBlocksSkipped | z_scrapper.py:63-75 | empty or unparsable blocks, and blocks without any dict, leave the dictionary unchanged |
| JsonLd.LastDictWins | z_scrapper.py:87-95 | the last dict item's beds, baths and url override earlier ones, even when they are "" |
| JsonLd.ConditionalPairsKept | z_scrapper.py:78-93 | without a dict `offers` the price pair is kept as it was; without a dict `floorSize` the area pair is kept |
| JsonLd.OfferPriceFallback | z_scrapper.py:79-84 | the offer price is `price` when that qualifies, else `priceSpecification.price` when that qualifies, else "" |
| Fallback.WordIndex | z_scrapper.py:111-112 | the alternative the engine settles on matches case-insensitively and ends at a word boundary; every earlier alternative does not |
| Fallback.LetterMatch | z_scrapper.py:111-112 | a matched word starting with a letter starts on a word character |
| Fallback.PriceAmount | z_scrapper.py:107 | the amount `[\d,]+` and its tail are non-empty and end inside the text |
| Fallback.PriceEndAt | z_scrapper.py:107 | a price match starts with "PKR" in any case, followed by at least one amount character |
| Fallback.CountAt | z_scrapper.py:111-112 | a beds or baths match starts at the position, and group 1 is the non-empty digit run found there |
| Fallback.SqUnitEnd | z_scrapper.py:117 | a square-unit alternative starts with "Sq" in any case |
| Fallback.UnitEnd | z_scrapper.py:117 | a unit match is non-empty and starts on a word character |
| Fallback.AreaWithNumber | z_scrapper.py:117 | for a chosen number, group 1 is that number text and group 2 a unit starting on a word character |
| Fallback.AreaAt | z_scrapper.py:117 | an area match has group 1 starting with a digit and group 2 starting on a word character |
| Fallback.MatchAt | z_scrapper.py:107-117 | a match of any of the four patterns starts at the position and is non-empty |
| Fallback.SearchLeftmost | z_scrapper.py:107-117 | `re.search` returns the match at the leftmost position where one exists, and nothing exactly when none exists |
| Fallback.PriceMatchStart | z_scrapper.py:107 | a price match begins with "PKR" in any case |
| Fallback.PriceText | z_scrapper.py:107-108 | `price_text` is "" exactly when the price pattern has no match, and otherwise starts with "PKR" |
| Fallback.CountText | z_scrapper.py:111-114 | beds and baths are digit strings, "" exactly when their pattern has no match |
| Fallback.AreaTexts | z_scrapper.py:117-123 | area and unit are clean, both "" or both non-empty, "" exactly when the area pattern has no match |
| Fallback.HtmlFallbackExtract | z_scrapper.py:99-125 | the link is the page URL; beds and baths are digit strings; the unit is blank exactly when the area is; a price starts with "PKR"; area and unit are clean |
| Fallback.AreaGroupsNotBlank | z_scrapper.py:118-120 | the groups of an area match never clean to "" |
| Fallback.FallbackEmptyIffNoMatch | z_scrapper.py:103-123 | each field is "" exactly when its pattern matches nowhere in the cleaned page text |
| Detail.FirstAcceptable | z_scrapper.py:174-181 | the first backup candidate that is non-empty, at most 140 characters and free of "PKR"; none before it is |
| Detail.ResolveAddress | z_scrapper.py:142-183 | the tier-by-tier loop with its `break` computes the cascade, and the address is trimmed |
| Detail.FirstAcceptableIs | z_scrapper.py:174-181 | when candidate k is the first acceptable one, tier 3 takes it |
| Detail.FirstAcceptableNone | z_scrapper.py:174-181 | with no acceptable candidate, tier 3 gives "" |
| Detail.CascadeTier1 | z_scrapper.py:144-154 | a non-empty tier-1 address decides the address, stripped |
| Detail.CascadeTier2 | z_scrapper.py:157-162 | otherwise a non-empty title-link text decides it, stripped |
| Detail.CascadeTier3 | z_scrapper.py:165-181 | otherwise the first acceptable backup candidate decides it, and the address is "" when there is none |
| Detail.CascadeSkipsRejected | z_scrapper.py:179 | missing candidates, candidates over 140 characters and candidates containing "PKR" are passed over |
| Detail.RejectedCandidates | z_scrapper.py:179 | a 150-character candidate and a candidate containing "PKR" are both rejected |
| Detail.PriceTextOf | z_scrapper.py:199-203 | "currency price" when both are set, the price alone when only it is, "" without a price |
| Detail.ParseDetailPage | z_scrapper.py:127-213 | the method builds the specification record, and its address is trimmed |
| Detail.AddressNeverFromJsonLd | z_scrapper.py:145-154 | the JSON-LD tier never fires, so the address is decided by the HTML tiers alone |
| Detail.ReadBack | z_scrapper.py:131-136 | each field read from the extracted dictionary is the stored value, or "" when it is missing |
| Detail.FallbackBranch | z_scrapper.py:186-196 | with none of price, beds, baths and area, every field but the address is the text fallback's, and the link is the page URL |
| Detail.MetadataBranch | z_scrapper.py:198-213 | otherwise `price_text` is composed from currency and price, the other fields are the JSON-LD ones, and the link is the normalized first of the JSON-LD url and the page URL |
| Detail.LinkDefaultsToUrl | z_scrapper.py:137 | without a stored url, the link read is the cleaned page URL |
| Detail.MetadataLinkDefaultsToUrl | z_scrapper.py:137-212 | without a JSON-LD url, the metadata record links to the cleaned, normalized page URL |
| Detail.MetadataPriceFromJsonLd | z_scrapper.py:131-132 | price and currency are the values the extractor stored, or "" |
| Notifier.NewRowsMembers | notifier.py:28-34 | a row is picked exactly when it is a given row whose stripped link is non-empty and unseen |
| Notifier.NewRowsSubsequence | notifier.py:28-34 | the picked rows keep their order |
| Notifier.PickNew | notifier.py:28-34 | the loop picks exactly those rows, in order |
| Notifier.BuildEmailBody | notifier.py:37-64 | the loop builds the newline join of the specification lines |
| Notifier.RowBlocksLength | notifier.py:42-62 | every row contributes four lines |
| Notifier.RowBlocksAt | notifier.py:42-62 | line j of row k's block is line j of that row's four lines |
| Notifier.BodyShape | notifier.py:38-40 | the body has a header with the row count, a blank line, then four lines per row |
| Notifier.BodyRowLines | notifier.py:42-62 | row i appears as four lines: its number and price, followed by the address when there is one; the beds, baths and area line; the indented link; a blank line |
| Notifier.BodyLineAt | notifier.py:42-62 | body line 2+4(i-1)+j is line j of row i |
| Notifier.SplitAtFirst | notifier.py:64 | splitting at the first newline peels off the first line |
| Notifier.SplitJoin | notifier.py:64 | splitting a join of newline-free lines at newlines recovers the lines |
| Notifier.BodyLinesNoNewline | notifier.py:37-62 | with newline-free fields, no body line contains a newline |
| Notifier.BodySplitLength | notifier.py:37-64 | such a body splits into exactly 2 + 4·n lines |
| Delta.TodayLinks | z_scrapper.py:402 | today's links are exactly the non-empty links of the scraped rows |
| Delta.RowsWithLinkInMembers | z_scrapper.py:412 | the comprehension keeps exactly the rows whose link is in the set |
| Delta.RowsWithLinkInSubsequence | z_scrapper.py:412 | the kept rows keep the scraped order |
| Delta.FirstRunSendsAll | z_scrapper.py:406-408 | with nothing seen, every scraped row is e-mailed |
| Delta.LaterRunSendsNew | z_scrapper.py:400-412 | otherwise a row is e-mailed exactly when its link is non-empty and unseen, in scraped order |
| Delta.SavedSeenGrows | z_scrapper.py:436 | the saved set keeps everything seen before, adds every non-empty link of today, and adds nothing else |
| Delta.NoRenotification | z_scrapper.py:400-436 | a second run over the same rows with the saved set e-mails nothing |
| Delta.AgreesWithPickNewPrefix | notifier.py:28-34 | on a prefix of the rows, selecting by today's new links is `pick_new` when links are trimmed |
| Delta.RowsToEmailIsPickNew | z_scrapper.py:400-412 | on later runs with trimmed links, the main block's selection is exactly `pick_new` |

## Left out

- Playwright browsing is not modelled: page loading, `go_next_page`, the `scrape_zameen` loops over pages and detail pages, and the cross-page `dict.fromkeys` dedupe. The model starts from the hrefs of one page and from one detail page's parts.
- BeautifulSoup, CSS selectors, `json.loads` and `get_text` are not modelled. Their results are inputs: the parsed JSON-LD blocks (`None` for an empty or unparsable one), the title-link text, the first hit of each backup selector, and the page text.
- Links.NormalizeLink: `urljoin(BASE, href)` is an abstract parameter `urlJoin`. The contract says nothing about relative hrefs beyond passing them to it.
- Json.FirstNonEmpty: JSON numbers are integers only. Floats and their `str` rendering are not modelled.
- Fallback.WordIndex, Fallback.MatchAt: `\d`, `\w` and `\b` are ASCII, and `re.I` is ASCII case folding. Python's Unicode digit and word classes are not modelled. Whitespace (`\s`, `strip`) is the full `str.isspace` set.
- CSV writing, `os.environ`, the flag file, `send_email_smtp` and `print` are input/output and are left out.
- `load_seen`/`save_seen` are left out: they are file input/output, the clock, and sorting for the file. The seen set is a parameter, and the set saved is `Delta.SavedSeen`.
- Rows are the `Records.Listing` datatype with every field present. The `.get(key, "")` defaults of `build_email_body` and the `r.get("link") or ""` case of a missing or `None` link are not modelled.
- Delta.RowsToEmailIsPickNew: needs trimmed links. The main block compares raw links, while `pick_new` strips them first, so the two agree only on trimmed links.
- Links.BuildPageUrls: the default `max_pages=20` (z_scrapper.py:248) is not modelled; the page count is always a parameter (the one call site, z_scrapper.py:303-305, passes 15).
- Notifier.BodySplitLength: requires fields without a newline. In the source an address read with `get_text(" ", strip=True)` (z_scrapper.py:162, 177) can keep an inner newline, and then the body splits into more than 2 + 4·n lines. The model does not derive this from the page text.
- Links.PageUrlReplacesSegment: proved for results URLs with a single page segment and no other dash. No concrete results URL from the site is worked through.
