/**
 * Link handling of the scraper: `normalize_link` (z_scrapper.py:35-41), the listing
 * recognizer `is_real_listing` (z_scrapper.py:45-50), the filter-and-dedupe step of
 * `collect_listing_links` (z_scrapper.py:229-243) and `build_page_urls`
 * (z_scrapper.py:246-259).
 *
 * `urljoin(BASE, ·)` is a library call whose behaviour is not modelled: it is the
 * parameter `urlJoin`, an arbitrary total function on strings.
 */
module Links {

  import opened Wrappers
  import opened Text
  import opened Seqs

  const Base: string := "https://www.zameen.com"

  // ---------------------------------------------------------------------------
  // normalize_link
  // ---------------------------------------------------------------------------

  /**
   * `normalize_link(href)`: "" stays ""; otherwise the stripped href is returned
   * when it starts with "http" and resolved against `Base` when it does not.
   */
  function NormalizeLink(urlJoin: string -> string, href: string): (r: string)
    ensures href == "" ==> r == ""
    ensures href != "" && IsPrefix("http", Strip(href)) ==> r == Strip(href)
    ensures href != "" && !IsPrefix("http", Strip(href)) ==> r == urlJoin(Strip(href))
  {
    if href == "" then ""
    else
      var h := Strip(href);
      if IsPrefix("http", h) then h else urlJoin(h)
  }

  /** An absolute link without surrounding whitespace is left unchanged, whatever `urljoin` does. */
  lemma NormalizeAbsoluteUnchanged(urlJoin: string -> string, u: string)
    requires IsPrefix("http", u) && Trimmed(u)
    ensures NormalizeLink(urlJoin, u) == u
  {
    TrimmedStrip(u);
  }

  /** Normalizing twice is normalizing once whenever the first result is absolute. */
  lemma NormalizeIdempotentOnAbsolute(urlJoin: string -> string, href: string)
    requires IsPrefix("http", NormalizeLink(urlJoin, href))
    requires Trimmed(NormalizeLink(urlJoin, href))
    ensures NormalizeLink(urlJoin, NormalizeLink(urlJoin, href)) == NormalizeLink(urlJoin, href)
  {
    NormalizeAbsoluteUnchanged(urlJoin, NormalizeLink(urlJoin, href));
  }

  // ---------------------------------------------------------------------------
  // is_real_listing: ^https://www\.zameen\.com/Property/.+-\d+-\d+-4\.html$
  // ---------------------------------------------------------------------------

  const PropertyPrefix: string := "https://www.zameen.com/Property/"
  const ListingSuffix: string := "-4.html"

  /** Number of trailing digits of s. */
  function DigitSuffixLen(s: string): (n: nat)
    ensures n <= |s|
    ensures AllDigits(s[|s| - n..])
    ensures n < |s| ==> !IsDigit(s[|s| - n - 1])
  {
    if s != [] && IsDigit(s[|s| - 1]) then
      var n := DigitSuffixLen(s[..|s| - 1]) + 1;
      assert s[|s| - n..] == s[..|s| - 1][|s| - n..] + [s[|s| - 1]];
      n
    else 0
  }

  /** Splits s as head + "-" + digits with at least one digit, and returns the head. */
  function CutDashDigits(s: string): (r: Option<string>)
    ensures r.Some? ==> |r.value| < |s| && s == r.value + "-" + s[|r.value| + 1..]
    ensures r.Some? ==> s[|r.value| + 1..] != [] && AllDigits(s[|r.value| + 1..])
  {
    var n := DigitSuffixLen(s);
    if 0 < n < |s| && s[|s| - n - 1] == '-' then
      var head := s[..|s| - n - 1];
      assert s == head + "-" + s[|s| - n..];
      Some(head)
    else None
  }

  /** The recognizer proper, on the URL without the one final newline that `$` tolerates. */
  predicate ListingCore(core: string) {
    && IsPrefix(PropertyPrefix, core)
    && var rest := core[|PropertyPrefix|..];
    && |ListingSuffix| <= |rest|
    && rest[|rest| - |ListingSuffix|..] == ListingSuffix
    && match CutDashDigits(rest[..|rest| - |ListingSuffix|])
       case None => false
       case Some(y) =>
         match CutDashDigits(y)
         case None => false
         case Some(slug) => slug != [] && '\n' !in slug
  }

  /** `is_real_listing(url)`: `PROPERTY_RE.match(url)` succeeds. */
  predicate IsRealListing(url: string) {
    ListingCore(CoreOf(url))
  }

  /** The one final newline `$` tolerates, if url has it. */
  function FinalNewline(url: string): string {
    if url != [] && url[|url| - 1] == '\n' then "\n" else ""
  }

  /** url without that final newline. */
  function CoreOf(url: string): (core: string)
    ensures url == core + FinalNewline(url)
  {
    if url != [] && url[|url| - 1] == '\n' then url[..|url| - 1] else url
  }

  /** A URL the listing pattern describes: slug (`.+`), two digit groups, the `-4.html` tail, optional final newline. */
  function ListingUrl(slug: string, d1: string, d2: string, nl: string): string {
    PropertyPrefix + slug + "-" + d1 + "-" + d2 + ListingSuffix + nl
  }

  /** The pattern's language, stated directly: some slug and digit groups spell the URL. */
  ghost predicate ListingShape(url: string) {
    exists slug, d1, d2, nl ::
      && url == ListingUrl(slug, d1, d2, nl)
      && slug != [] && '\n' !in slug
      && d1 != [] && AllDigits(d1)
      && d2 != [] && AllDigits(d2)
      && (nl == "" || nl == "\n")
  }

  lemma {:induction false} DigitSuffixExact(h: string, d: string)
    requires AllDigits(d)
    requires h != [] && !IsDigit(h[|h| - 1])
    ensures DigitSuffixLen(h + d) == |d|
    decreases |d|
  {
    if d == [] {
      assert h + d == h;
    } else {
      var init := d[..|d| - 1];
      assert (h + d)[..|h + d| - 1] == h + init;
      DigitSuffixExact(h, init);
    }
  }

  lemma CutDashDigitsOf(head: string, d: string)
    requires d != [] && AllDigits(d)
    ensures CutDashDigits(head + "-" + d) == Some(head)
  {
    var s := head + "-" + d;
    DigitSuffixExact(head + "-", d);
    assert head + "-" + d == (head + "-") + d;
    assert s[..|s| - |d| - 1] == head;
  }

  /** Every URL of the pattern's language is accepted. */
  lemma ShapeIsListing(slug: string, d1: string, d2: string, nl: string)
    requires slug != [] && '\n' !in slug
    requires d1 != [] && AllDigits(d1) && d2 != [] && AllDigits(d2)
    requires nl == "" || nl == "\n"
    ensures IsRealListing(ListingUrl(slug, d1, d2, nl))
  {
    CoreOfListingUrl(slug, d1, d2, nl);
    CoreIsListing(slug, d1, d2);
  }

  /** Dropping the optional final newline leaves the URL without it. */
  lemma CoreOfListingUrl(slug: string, d1: string, d2: string, nl: string)
    requires nl == "" || nl == "\n"
    ensures CoreOf(ListingUrl(slug, d1, d2, nl)) == ListingUrl(slug, d1, d2, "")
  {
    var url := ListingUrl(slug, d1, d2, nl);
    var core := ListingUrl(slug, d1, d2, "");
    assert url == core + nl;
    assert core[|core| - 1] == 'l';
    if nl == "\n" {
      assert url[..|url| - 1] == core;
    } else {
      assert url == core;
    }
  }

  /** The URL of the pattern without final newline satisfies the recognizer proper. */
  lemma CoreIsListing(slug: string, d1: string, d2: string)
    requires slug != [] && '\n' !in slug
    requires d1 != [] && AllDigits(d1) && d2 != [] && AllDigits(d2)
    ensures ListingCore(ListingUrl(slug, d1, d2, ""))
  {
    var x := slug + "-" + d1 + "-" + d2;
    var rest := x + ListingSuffix;
    var core := PropertyPrefix + rest;
    assert ListingUrl(slug, d1, d2, "") == core;
    assert core[..|PropertyPrefix|] == PropertyPrefix;
    assert core[|PropertyPrefix|..] == rest;
    assert rest[|rest| - |ListingSuffix|..] == ListingSuffix;
    assert rest[..|rest| - |ListingSuffix|] == x;
    CutDashDigitsOf(slug + "-" + d1, d2);
    assert x == (slug + "-" + d1) + "-" + d2;
    CutDashDigitsOf(slug, d1);
  }

  /** An accepted URL without final newline splits into the pattern's parts. */
  lemma ListingCoreParts(core: string) returns (slug: string, d1: string, d2: string)
    requires ListingCore(core)
    ensures core == ListingUrl(slug, d1, d2, "")
    ensures slug != [] && '\n' !in slug
    ensures d1 != [] && AllDigits(d1) && d2 != [] && AllDigits(d2)
  {
    var rest := core[|PropertyPrefix|..];
    assert core == PropertyPrefix + rest by {
      assert core[..|PropertyPrefix|] == PropertyPrefix;
    }
    var x := rest[..|rest| - |ListingSuffix|];
    assert rest == x + ListingSuffix by {
      assert rest[|rest| - |ListingSuffix|..] == ListingSuffix;
    }
    var y := CutDashDigits(x).value;
    slug := CutDashDigits(y).value;
    d2 := x[|y| + 1..];
    d1 := y[|slug| + 1..];
    assert x == y + "-" + d2;
    assert y == slug + "-" + d1;
    ListingUrlSplit(slug, d1, d2, "");
    assert core == (PropertyPrefix + ((y + "-" + d2) + ListingSuffix)) + "";
  }

  /** Every accepted URL is in the pattern's language. */
  lemma ListingHasShape(url: string)
    requires IsRealListing(url)
    ensures ListingShape(url)
  {
    ShapeOfCore(CoreOf(url), FinalNewline(url));
  }

  lemma ShapeOfCore(core: string, nl: string)
    requires ListingCore(core)
    requires nl == "" || nl == "\n"
    ensures ListingShape(core + nl)
  {
    var slug, d1, d2 := ListingCoreParts(core);
    assert ListingUrl(slug, d1, d2, nl) == ListingUrl(slug, d1, d2, "") + nl;
    ShapeWitness(core + nl, slug, d1, d2, nl);
  }

  lemma ShapeWitness(url: string, slug: string, d1: string, d2: string, nl: string)
    requires url == ListingUrl(slug, d1, d2, nl)
    requires slug != [] && '\n' !in slug
    requires d1 != [] && AllDigits(d1) && d2 != [] && AllDigits(d2)
    requires nl == "" || nl == "\n"
    ensures ListingShape(url)
  {
  }

  /** ListingUrl regrouped as prefix, middle part, suffix and newline. */
  lemma ListingUrlSplit(slug: string, d1: string, d2: string, nl: string)
    ensures ListingUrl(slug, d1, d2, nl)
         == (PropertyPrefix + ((((slug + "-" + d1) + "-" + d2)) + ListingSuffix)) + nl
  {
    var y := slug + "-" + d1;
    var x := y + "-" + d2;
    calc {
      ListingUrl(slug, d1, d2, nl);
      PropertyPrefix + slug + "-" + d1 + "-" + d2 + ListingSuffix + nl;
      { assert PropertyPrefix + slug + "-" + d1 == PropertyPrefix + y; }
      (PropertyPrefix + y) + "-" + d2 + ListingSuffix + nl;
      { assert (PropertyPrefix + y) + "-" + d2 == PropertyPrefix + x; }
      (PropertyPrefix + x) + ListingSuffix + nl;
      { assert (PropertyPrefix + x) + ListingSuffix == PropertyPrefix + (x + ListingSuffix); }
      (PropertyPrefix + (x + ListingSuffix)) + nl;
    }
  }

  /** The recognizer accepts exactly the URLs of the pattern's language (both directions). */
  lemma IsRealListingIff(url: string)
    ensures IsRealListing(url) <==> ListingShape(url)
  {
    if ListingShape(url) {
      var slug, d1, d2, nl :| && url == ListingUrl(slug, d1, d2, nl)
        && slug != [] && '\n' !in slug && d1 != [] && AllDigits(d1)
        && d2 != [] && AllDigits(d2) && (nl == "" || nl == "\n");
      ShapeIsListing(slug, d1, d2, nl);
    }
    if IsRealListing(url) {
      ListingHasShape(url);
    }
  }

  /** What an accepted URL starts and ends with. */
  lemma ListingCoreFrame(core: string)
    requires ListingCore(core)
    ensures |core| >= |PropertyPrefix| + |ListingSuffix|
    ensures core[..|PropertyPrefix|] == PropertyPrefix
    ensures core[|core| - |ListingSuffix|..] == ListingSuffix
  {
    var rest := core[|PropertyPrefix|..];
    SuffixOfDrop(core, |PropertyPrefix|, |ListingSuffix|);
  }

  /** The last n characters of s[p..] are the last n characters of s. */
  lemma SuffixOfDrop(s: string, p: nat, n: nat)
    requires p + n <= |s|
    ensures s[p..][|s| - p - n..] == s[|s| - n..]
  {
  }

  /** Three boundary cases of the listing test: a listing URL is accepted, ... */
  lemma ListingExampleAccepted()
    ensures IsRealListing("https://www.zameen.com/Property/foo-12345-67890-4.html")
  {
    assert "https://www.zameen.com/Property/foo-12345-67890-4.html" == ListingUrl("foo", "12345", "67890", "");
    ShapeIsListing("foo", "12345", "67890", "");
  }

  /** ... the same URL without the `-4` marker is rejected, ... */
  lemma ListingExampleNoMarker()
    ensures !IsRealListing("https://www.zameen.com/Property/foo-12345-67890.html")
  {
    var url := "https://www.zameen.com/Property/foo-12345-67890.html";
    assert url[|url| - 7] == '9' && ListingSuffix[0] == '-';
    assert url[|url| - |ListingSuffix|..] != ListingSuffix by {
      assert url[|url| - |ListingSuffix|..][0] == url[|url| - 7];
    }
    if ListingCore(url) {
      ListingCoreFrame(url);
      assert false;
    }
  }

  /** ... and so is an `/Agency/` path. */
  lemma ListingExampleAgency()
    ensures !IsRealListing("https://www.zameen.com/Agency/foo-12345-67890-4.html")
  {
    var url := "https://www.zameen.com/Agency/foo-12345-67890-4.html";
    assert url[23] == 'A' && PropertyPrefix[23] == 'P';
    assert !IsPrefix(PropertyPrefix, url) by {
      assert |PropertyPrefix| <= |url|;
      assert url[..|PropertyPrefix|][23] == url[23];
    }
  }

  // ---------------------------------------------------------------------------
  // collect_listing_links: filter, then dedupe
  // ---------------------------------------------------------------------------

  /** Every href passed through `normalize_link`, in order. */
  function NormalizedHrefs(urlJoin: string -> string, hrefs: seq<string>): (us: seq<string>)
    ensures |us| == |hrefs|
  {
    if hrefs == [] then [] else NormalizedHrefs(urlJoin, hrefs[..|hrefs| - 1]) + [NormalizeLink(urlJoin, hrefs[|hrefs| - 1])]
  }

  /** Position k of NormalizedHrefs is href k normalized. */
  lemma {:induction false} NormalizedHrefsAt(urlJoin: string -> string, hrefs: seq<string>, k: nat)
    requires k < |hrefs|
    ensures NormalizedHrefs(urlJoin, hrefs)[k] == NormalizeLink(urlJoin, hrefs[k])
  {
    if k < |hrefs| - 1 {
      NormalizedHrefsAt(urlJoin, hrefs[..|hrefs| - 1], k);
    }
  }

  /** The real listings among us, in order (the list `links`). */
  function RealListings(us: seq<string>): (r: seq<string>)
    ensures forall i :: 0 <= i < |r| ==> IsRealListing(r[i]) && r[i] in us
    ensures forall k :: 0 <= k < |us| && IsRealListing(us[k]) ==> us[k] in r
  {
    Keep(IsRealListing, us)
  }

  /** The real listings keep the order they have among us. */
  lemma RealListingsInOrder(us: seq<string>)
    ensures IsSubsequence(RealListings(us), us)
  {
    KeepSubsequence(IsRealListing, us);
  }

  /** The elements of s that satisfy p, in order. */
  function Keep(p: string -> bool, s: seq<string>): (r: seq<string>)
    ensures forall i :: 0 <= i < |r| ==> p(r[i]) && r[i] in s
    ensures forall k :: 0 <= k < |s| && p(s[k]) ==> s[k] in r
  {
    if s == [] then []
    else
      var init, u := s[..|s| - 1], s[|s| - 1];
      assert s == init + [u];
      Keep(p, init) + (if p(u) then [u] else [])
  }

  /** Keep drops elements and reorders none. */
  lemma {:induction false} KeepSubsequence(p: string -> bool, s: seq<string>)
    ensures IsSubsequence(Keep(p, s), s)
    decreases |s|
  {
    if s != [] {
      var init, u := s[..|s| - 1], s[|s| - 1];
      assert init + [u] == s;
      KeepSubsequence(p, init);
      SubsequenceExtend(Keep(p, init), init, u);
      if !p(u) {
        assert Keep(p, s) == Keep(p, init) + [];
        assert Keep(p, init) + [] == Keep(p, init);
      }
    }
  }

  /** What the collected links are: real listings among us, each once, and every real listing of us. */
  lemma CollectedLinksFacts(us: seq<string>)
    ensures NoDuplicates(Dedupe(RealListings(us)))
    ensures forall i :: 0 <= i < |Dedupe(RealListings(us))| ==>
      IsRealListing(Dedupe(RealListings(us))[i]) && Dedupe(RealListings(us))[i] in us
    ensures forall k :: 0 <= k < |us| && IsRealListing(us[k]) ==> us[k] in Dedupe(RealListings(us))
  {
    KeptOnce(IsRealListing, us);
  }

  /** The collected links keep the order in which they occur among us. */
  lemma CollectedLinksInOrder(us: seq<string>)
    ensures IsSubsequence(Dedupe(RealListings(us)), us)
  {
    DedupeIsSubsequence(RealListings(us));
    RealListingsInOrder(us);
    SubsequenceTrans(Dedupe(RealListings(us)), RealListings(us), us);
  }

  /** The elements of s that satisfy p, each once. */
  lemma KeptOnce(p: string -> bool, s: seq<string>)
    ensures NoDuplicates(Dedupe(Keep(p, s)))
    ensures forall i :: 0 <= i < |Dedupe(Keep(p, s))| ==> p(Dedupe(Keep(p, s))[i]) && Dedupe(Keep(p, s))[i] in s
    ensures forall k :: 0 <= k < |s| && p(s[k]) ==> s[k] in Dedupe(Keep(p, s))
  {
    var r := Keep(p, s);
    var d := Dedupe(r);
    forall i | 0 <= i < |d| ensures p(d[i]) && d[i] in s {
      var j :| 0 <= j < |r| && r[j] == d[i];
    }
    forall k | 0 <= k < |s| && p(s[k]) ensures s[k] in d {
      var j :| 0 <= j < |r| && r[j] == s[k];
    }
  }

  /** The first loop of `collect_listing_links`: normalize each href and keep the real listings. */
  method RealListingLinks(urlJoin: string -> string, hrefs: seq<string>) returns (links: seq<string>)
    ensures links == RealListings(NormalizedHrefs(urlJoin, hrefs))
  {
    links := [];
    for i := 0 to |hrefs|
      invariant links == RealListings(NormalizedHrefs(urlJoin, hrefs[..i]))
    {
      var u := NormalizeLink(urlJoin, hrefs[i]);
      assert hrefs[..i + 1][..i] == hrefs[..i];
      assert NormalizedHrefs(urlJoin, hrefs[..i + 1]) == NormalizedHrefs(urlJoin, hrefs[..i]) + [u];
      if IsRealListing(u) {
        links := links + [u];
      }
    }
    assert hrefs[..|hrefs|] == hrefs;
  }

  /** The second loop of `collect_listing_links`: keep each link the first time it is met. */
  method DedupeLinks(links: seq<string>) returns (uniq: seq<string>)
    ensures uniq == Dedupe(links)
  {
    var seen: set<string> := {};
    uniq := [];
    for i := 0 to |links|
      invariant uniq == Dedupe(links[..i])
      invariant forall u :: u in seen <==> u in links[..i]
    {
      var u := links[i];
      assert links[..i + 1] == links[..i] + [u];
      if u !in seen {
        seen := seen + {u};
        uniq := uniq + [u];
      }
    }
    assert links[..|links|] == links;
  }

  /**
   * The pure part of `collect_listing_links`: normalizes every href, keeps the
   * real listings, then drops repeats keeping first occurrences.
   */
  method CollectListingLinks(urlJoin: string -> string, hrefs: seq<string>) returns (uniq: seq<string>)
    ensures uniq == Dedupe(RealListings(NormalizedHrefs(urlJoin, hrefs)))
    ensures NoDuplicates(uniq)
    ensures forall i :: 0 <= i < |uniq| ==> IsRealListing(uniq[i]) && uniq[i] in NormalizedHrefs(urlJoin, hrefs)
    ensures forall k :: 0 <= k < |hrefs| && IsRealListing(NormalizedHrefs(urlJoin, hrefs)[k]) ==>
      NormalizedHrefs(urlJoin, hrefs)[k] in uniq
    ensures IsSubsequence(uniq, NormalizedHrefs(urlJoin, hrefs))
  {
    var links := RealListingLinks(urlJoin, hrefs);
    uniq := DedupeLinks(links);
    CollectedLinksFacts(NormalizedHrefs(urlJoin, hrefs));
    CollectedLinksInOrder(NormalizedHrefs(urlJoin, hrefs));
  }

  // ---------------------------------------------------------------------------
  // build_page_urls: PAGE_RE = -\d+-\d+\.html, replaced by -12-N.html
  // ---------------------------------------------------------------------------

  /** t[i..] starts with the literal w. */
  predicate LiteralAt(t: string, i: nat, w: string) {
    i + |w| <= |t| && t[i..i + |w|] == w
  }

  /**
   * Length of the `PAGE_RE` match starting at i, 0 when there is none. Each `\d+`
   * is followed by a non-digit literal, so the greedy (longest) digit run is the
   * only one that can succeed.
   */
  function PageMatchLen(s: string, i: nat): (m: nat)
    requires i <= |s|
    ensures i + m <= |s|
  {
    if i < |s| && s[i] == '-' then
      var n1 := Run(s, i + 1, Digits);
      var j := i + 1 + n1;
      if n1 > 0 && j < |s| && s[j] == '-' then
        var n2 := Run(s, j + 1, Digits);
        var k := j + 1 + n2;
        if n2 > 0 && LiteralAt(s, k, ".html") then k + 5 - i else 0
      else 0
    else 0
  }

  /** `PAGE_RE.sub(repl, s[i..])`: every match, scanning left to right, is replaced by repl. */
  function SubFrom(s: string, repl: string, i: nat): string
    requires i <= |s|
    decreases |s| - i
  {
    if i == |s| then []
    else
      var m := PageMatchLen(s, i);
      if m > 0 then repl + SubFrom(s, repl, i + m) else [s[i]] + SubFrom(s, repl, i + 1)
  }

  function SubPageSegment(s: string, repl: string): string {
    SubFrom(s, repl, 0)
  }

  /** The replacement for page n: `f"-12-{n}.html"`. */
  function PageSegment(n: nat): string {
    "-12-" + NatToString(n) + ".html"
  }

  /**
   * `build_page_urls(first_page_url, max_pages)`: one URL per page 1..max_pages,
   * page n's being the first URL with every page segment replaced by page n's.
   */
  method BuildPageUrls(firstPageUrl: string, maxPages: int) returns (urls: seq<string>)
    ensures |urls| == if maxPages < 0 then 0 else maxPages
    ensures forall k :: 0 <= k < |urls| ==> urls[k] == SubPageSegment(firstPageUrl, PageSegment(k + 1))
  {
    urls := [];
    var pageNo := 1;
    while pageNo <= maxPages
      invariant 1 <= pageNo
      invariant pageNo <= (if maxPages < 0 then 0 else maxPages) + 1
      invariant |urls| == pageNo - 1
      invariant forall k :: 0 <= k < |urls| ==> urls[k] == SubPageSegment(firstPageUrl, PageSegment(k + 1))
    {
      var url := SubPageSegment(firstPageUrl, PageSegment(pageNo));
      urls := urls + [url];
      pageNo := pageNo + 1;
    }
  }

  lemma {:induction false} RunExact(t: string, i: nat, cls: CharClass, n: nat)
    requires i + n <= |t|
    requires forall k :: i <= k < i + n ==> InClass(cls, t[k])
    requires i + n < |t| ==> !InClass(cls, t[i + n])
    ensures Run(t, i, cls) == n
    decreases n
  {
    if n > 0 {
      RunExact(t, i + 1, cls, n - 1);
    }
  }

  /** Over a stretch without '-', substitution copies the text. */
  lemma {:induction false} SubFromNoDash(s: string, repl: string, i: nat, j: nat)
    requires i <= j <= |s|
    requires forall k :: i <= k < j ==> s[k] != '-'
    ensures SubFrom(s, repl, i) == s[i..j] + SubFrom(s, repl, j)
    decreases j - i
  {
    if i < j {
      SubFromNoDash(s, repl, i + 1, j);
      SubFromCopyOne(s, repl, i);
      SliceCons(s, i, j);
      ConsAssoc(s[i], s[i + 1..j], SubFrom(s, repl, j));
    }
  }

  lemma SliceCons(s: string, i: nat, j: nat)
    requires i < j <= |s|
    ensures s[i..j] == [s[i]] + s[i + 1..j]
  {
  }

  lemma ConsAssoc(c: char, a: string, b: string)
    ensures [c] + (a + b) == ([c] + a) + b
  {
  }

  /** A character other than '-' starts no match and is copied. */
  lemma SubFromCopyOne(s: string, repl: string, i: nat)
    requires i < |s| && s[i] != '-'
    ensures SubFrom(s, repl, i) == [s[i]] + SubFrom(s, repl, i + 1)
  {
    assert PageMatchLen(s, i) == 0;
  }

  /** The URL of a results page: a page segment `-d1-d2.html` between a prefix and a query. */
  function ResultsUrl(prefix: string, d1: string, d2: string, query: string): string {
    prefix + "-" + d1 + "-" + d2 + ".html" + query
  }

  /** The page segment `-d1-d2.html` itself. */
  function Segment(d1: string, d2: string): string {
    "-" + d1 + "-" + d2 + ".html"
  }

  /** Where a page segment of s starts, `PAGE_RE` matches exactly that segment. */
  lemma PageMatchAtSegment(s: string, p: nat, d1: string, d2: string)
    requires d1 != [] && AllDigits(d1) && d2 != [] && AllDigits(d2)
    requires p + |Segment(d1, d2)| <= |s| && s[p..p + |Segment(d1, d2)|] == Segment(d1, d2)
    ensures PageMatchLen(s, p) == |Segment(d1, d2)|
  {
    SegmentChars(s, p, d1, d2);
    PageMatchOfChars(s, p, |d1|, |d2|);
  }

  /** The characters of a page segment found in s at p. */
  lemma SegmentChars(s: string, p: nat, d1: string, d2: string)
    requires d1 != [] && AllDigits(d1) && d2 != [] && AllDigits(d2)
    requires p + |Segment(d1, d2)| <= |s| && s[p..p + |Segment(d1, d2)|] == Segment(d1, d2)
    ensures var j, k := p + 1 + |d1|, p + 2 + |d1| + |d2|;
      && k + 5 <= |s| && s[p] == '-' && s[j] == '-' && s[k] == '.'
      && (forall q :: p + 1 <= q < j ==> IsDigit(s[q]))
      && (forall q :: j + 1 <= q < k ==> IsDigit(s[q]))
      && s[k..k + 5] == ".html"
  {
    var w := Segment(d1, d2);
    var j, k := p + 1 + |d1|, p + 2 + |d1| + |d2|;
    assert forall q :: p <= q < p + |w| ==> s[q] == w[q - p];
    forall q | p + 1 <= q < j ensures IsDigit(s[q]) {
      assert w[q - p] == d1[q - p - 1];
    }
    forall q | j + 1 <= q < k ensures IsDigit(s[q]) {
      assert w[q - p] == d2[q - j - 1];
    }
    assert s[k..k + 5] == w[k - p..k - p + 5];
  }

  /** `PAGE_RE` at p on `-`, n1 digits, `-`, n2 digits, `.html`. */
  lemma PageMatchOfChars(s: string, p: nat, n1: nat, n2: nat)
    requires n1 > 0 && n2 > 0
    requires var j, k := p + 1 + n1, p + 2 + n1 + n2;
      && k + 5 <= |s| && s[p] == '-' && s[j] == '-' && s[k] == '.'
      && (forall q :: p + 1 <= q < j ==> IsDigit(s[q]))
      && (forall q :: j + 1 <= q < k ==> IsDigit(s[q]))
      && s[k..k + 5] == ".html"
    ensures PageMatchLen(s, p) == n1 + n2 + 7
  {
    RunExact(s, p + 1, Digits, n1);
    RunExact(s, p + 2 + n1, Digits, n2);
  }

  /** Substitution from position i, once a match of length m is known there. */
  lemma SubFromAtMatch(s: string, repl: string, i: nat, m: nat)
    requires i + m <= |s| && m > 0
    requires PageMatchLen(s, i) == m
    ensures SubFrom(s, repl, i) == repl + SubFrom(s, repl, i + m)
  {
  }

  /**
   * Page URLs (the documented `-12-1.html` to `-12-N.html` scheme): when the first URL's
   * only '-' characters are those of its page segment, page n's URL differs from it
   * exactly in that segment, the query string kept.
   */
  lemma PageUrlReplacesSegment(prefix: string, d1: string, d2: string, query: string, n: nat)
    requires '-' !in prefix && '-' !in query
    requires d1 != [] && AllDigits(d1) && d2 != [] && AllDigits(d2)
    ensures SubPageSegment(ResultsUrl(prefix, d1, d2, query), PageSegment(n)) == prefix + PageSegment(n) + query
  {
    ResultsUrlParts(prefix, d1, d2, query);
    SubFromOneSegment(ResultsUrl(prefix, d1, d2, query), PageSegment(n), prefix, d1, d2, query);
  }

  /** A dash-free prefix, one page segment and a dash-free rest: only the segment is replaced. */
  lemma SubFromOneSegment(s: string, repl: string, prefix: string, d1: string, d2: string, query: string)
    requires d1 != [] && AllDigits(d1) && d2 != [] && AllDigits(d2)
    requires '-' !in prefix && '-' !in query
    requires |s| == |prefix| + |Segment(d1, d2)| + |query|
    requires s[0..|prefix|] == prefix
    requires s[|prefix|..|prefix| + |Segment(d1, d2)|] == Segment(d1, d2)
    requires s[|prefix| + |Segment(d1, d2)|..|s|] == query
    ensures SubFrom(s, repl, 0) == prefix + repl + query
  {
    var p, m := |prefix|, |Segment(d1, d2)|;
    PageMatchAtSegment(s, p, d1, d2);
    SubFromAtMatch(s, repl, p, m);
    SubFromOneMatch(s, repl, prefix, p + m, query);
  }

  /** A text made of a dash-free prefix, one match replaced up to e, and a dash-free rest. */
  lemma SubFromOneMatch(s: string, repl: string, prefix: string, e: nat, query: string)
    requires |prefix| < e <= |s| && s[0..|prefix|] == prefix && s[e..|s|] == query
    requires '-' !in prefix && '-' !in query
    requires SubFrom(s, repl, |prefix|) == repl + SubFrom(s, repl, e)
    ensures SubFrom(s, repl, 0) == prefix + repl + query
  {
    SubFromCopy(s, repl, 0, |prefix|, prefix);
    SubFromCopy(s, repl, e, |s|, query);
    SubFromEnd(s, repl);
    Chain(prefix, repl, query, SubFrom(s, repl, 0), SubFrom(s, repl, |prefix|), SubFrom(s, repl, e), SubFrom(s, repl, |s|));
  }

  /** Where the prefix, the page segment and the query sit in a results URL. */
  lemma ResultsUrlParts(prefix: string, d1: string, d2: string, query: string)
    ensures var s := ResultsUrl(prefix, d1, d2, query);
      var p, e := |prefix|, |prefix| + |Segment(d1, d2)|;
      && |s| == e + |query| && s[0..p] == prefix && s[p..e] == Segment(d1, d2) && s[e..|s|] == query
  {
    assert ResultsUrl(prefix, d1, d2, query) == prefix + Segment(d1, d2) + query;
  }

  lemma Chain(a: string, b: string, c: string, x0: string, x1: string, x2: string, x3: string)
    requires x0 == a + x1 && x1 == b + x2 && x2 == c + x3 && x3 == []
    ensures x0 == a + b + c
  {
    assert c + [] == c;
  }

  /** A stretch w without '-' is copied unchanged by the substitution. */
  lemma SubFromCopy(s: string, repl: string, i: nat, j: nat, w: string)
    requires i <= j <= |s| && s[i..j] == w && '-' !in w
    ensures SubFrom(s, repl, i) == w + SubFrom(s, repl, j)
  {
    forall q | i <= q < j ensures s[q] != '-' {
      assert s[q] == w[q - i];
    }
    SubFromNoDash(s, repl, i, j);
  }

  lemma SubFromEnd(s: string, repl: string)
    ensures SubFrom(s, repl, |s|) == []
  {
  }

  /** Such first URLs give a different URL for every page. */
  lemma PageUrlsDistinct(prefix: string, d1: string, d2: string, query: string, m: nat, n: nat)
    requires '-' !in prefix && '-' !in query
    requires d1 != [] && AllDigits(d1) && d2 != [] && AllDigits(d2)
    requires m != n
    ensures SubPageSegment(ResultsUrl(prefix, d1, d2, query), PageSegment(m))
         != SubPageSegment(ResultsUrl(prefix, d1, d2, query), PageSegment(n))
  {
    PageUrlReplacesSegment(prefix, d1, d2, query, m);
    PageUrlReplacesSegment(prefix, d1, d2, query, n);
    var a := prefix + PageSegment(m) + query;
    var b := prefix + PageSegment(n) + query;
    var sm, sn := NatToString(m), NatToString(n);
    var p := |prefix|;
    NatToStringDistinct(m, n);
    if |sm| == |sn| {
      var q :| 0 <= q < |sm| && sm[q] != sn[q];
      assert a[p + 4 + q] == sm[q];
      assert b[p + 4 + q] == sn[q];
    } else if |sm| < |sn| {
      assert a[p + 4 + |sm|] == '.';
      assert b[p + 4 + |sm|] == sn[|sm|];
    } else {
      assert b[p + 4 + |sn|] == '.';
      assert a[p + 4 + |sn|] == sm[|sn|];
    }
  }
}
