/**
 * The text fallback `html_fallback_extract` (z_scrapper.py:99-125): four independent
 * leftmost-match searches over the cleaned page text, written as scanners.
 *
 * Each scanner follows the backtracking order of Python's `re` engine. Where a
 * quantifier's shorter choices can never lead to a match (a greedy `\s*` or `\d+`
 * followed by something that cannot start with what it gave up), only the
 * greedy choice is tried; the comment at each scanner says why. `re.I` is ASCII
 * case folding (`Lower`), `\d` the ASCII digits and `\b` the boundary between
 * ASCII word and non-word characters.
 */
module Fallback {

  import opened Wrappers
  import opened Text

  /** A successful match: its span in the text, and the texts of groups 1 and 2 ("" when the pattern has none). */
  datatype Match = Match(start: nat, end: nat, group1: string, group2: string)

  /** The four patterns of z_scrapper.py:107, 111, 112 and 117. */
  datatype Pattern = PricePattern | BedsPattern | BathsPattern | AreaPattern

  const Magnitudes: seq<string> := ["Thousand", "Lac", "Lakh", "Crore"]
  /** `Beds?|Bedrooms?`, alternatives in the order the engine tries them. */
  const BedWords: seq<string> := ["Beds", "Bed", "Bedrooms", "Bedroom"]
  const BathWords: seq<string> := ["Baths", "Bath", "Bathrooms", "Bathroom"]
  const LandUnits: seq<string> := ["Marla", "Kanal"]

  predicate IsAsciiLetter(c: char) {
    ('a' <= c <= 'z') || ('A' <= c <= 'Z')
  }

  /** The first of `words` (tried in order) that occurs at i, ignoring case, and is followed by `\b`. */
  function WordIndex(t: string, i: nat, words: seq<string>): (r: Option<nat>)
    requires i <= |t|
    ensures r.Some? ==> r.value < |words| && MatchesCI(t, i, words[r.value]) && IsBoundary(t, i + |words[r.value]|)
    ensures r.Some? ==> forall j :: 0 <= j < r.value && MatchesCI(t, i, words[j]) ==> !IsBoundary(t, i + |words[j]|)
    ensures r.None? ==> forall j :: 0 <= j < |words| && MatchesCI(t, i, words[j]) ==> !IsBoundary(t, i + |words[j]|)
    decreases |words|
  {
    if words == [] then None
    else if MatchesCI(t, i, words[0]) && IsBoundary(t, i + |words[0]|) then Some(0)
    else
      match WordIndex(t, i, words[1..])
      case None => None
      case Some(k) => Some(k + 1)
  }

  /** A character equal, ignoring case, to an ASCII letter is a word character. */
  lemma LetterMatch(t: string, i: nat, w: string)
    requires MatchesCI(t, i, w) && w != [] && IsAsciiLetter(w[0])
    ensures i < |t| && IsWordChar(t[i])
  {
    assert Lower(t[i + 0]) == Lower(w[0]);
  }

  // ---------------------------------------------------------------------------
  // \bPKR\s*[\d,]+(?:\.\d+)?(?:\s*(?:Thousand|Lac|Lakh|Crore))?\b
  // ---------------------------------------------------------------------------

  /**
   * `(?:\s*(?:Thousand|Lac|Lakh|Crore))?\b` at q: the magnitude is tried first, then
   * the empty choice. Only the greedy `\s*` can reach a magnitude, since each
   * magnitude starts with a letter.
   */
  function PriceTail(t: string, q: nat): (e: Option<nat>)
    requires q <= |t|
    ensures e.Some? ==> q <= e.value <= |t|
  {
    var w := Run(t, q, Spaces);
    match WordIndex(t, q + w, Magnitudes)
    case Some(k) => Some(q + w + |Magnitudes[k]|)
    case None => if IsBoundary(t, q) then Some(q) else None
  }

  /**
   * What follows the `[\d,]+` ending at p: first with the decimal part `\.\d+`, then
   * without. Only the greedy `\d+` of the decimal part can succeed: a shorter one
   * leaves a digit, which neither a magnitude nor `\b` can follow a digit with.
   */
  function PriceAfterAmount(t: string, p: nat): (e: Option<nat>)
    requires p <= |t|
    ensures e.Some? ==> p <= e.value <= |t|
  {
    var d := if p < |t| && t[p] == '.' then Run(t, p + 1, Digits) else 0;
    var withDecimal := if d > 0 then PriceTail(t, p + 1 + d) else None;
    if withDecimal.Some? then withDecimal else PriceTail(t, p)
  }

  /** `[\d,]+` from c with full backtracking: m characters, then m - 1, down to 1. */
  function PriceAmount(t: string, c: nat, m: nat): (e: Option<nat>)
    requires c + m <= |t|
    ensures e.Some? ==> c < e.value <= |t|
    decreases m
  {
    if m == 0 then None
    else
      match PriceAfterAmount(t, c + m)
      case Some(e) => Some(e)
      case None => PriceAmount(t, c, m - 1)
  }

  /**
   * End of the price match starting at i, if any. The `\s*` after "PKR" is greedy
   * only: `[\d,]` cannot match a whitespace character it gave back.
   */
  function PriceEndAt(t: string, i: nat): (e: Option<nat>)
    requires i <= |t|
    ensures e.Some? ==> MatchesCI(t, i, "PKR") && i + 3 < e.value <= |t|
  {
    if IsBoundary(t, i) && MatchesCI(t, i, "PKR") then
      var c := i + 3 + Run(t, i + 3, Spaces);
      PriceAmount(t, c, Run(t, c, DigitsOrCommas))
    else None
  }

  // ---------------------------------------------------------------------------
  // \b(\d+)\s*(Beds?|Bedrooms?)\b   and   \b(\d+)\s*(Baths?|Bathrooms?)\b
  // ---------------------------------------------------------------------------

  /**
   * The bed or bath count match at i. Only the greedy `\d+` and `\s*` can succeed:
   * every alternative starts with a letter, so it cannot start at a digit or a space given back.
   */
  function CountAt(t: string, i: nat, words: seq<string>): (r: Option<Match>)
    requires i <= |t|
    ensures r.Some? ==> r.value.start == i && i < r.value.end <= |t|
    ensures r.Some? ==> r.value.group1 != [] && AllDigits(r.value.group1)
    ensures r.Some? ==> i + |r.value.group1| <= r.value.end && r.value.group1 == t[i..i + |r.value.group1|]
  {
    if IsBoundary(t, i) then
      var n := Run(t, i, Digits);
      if n == 0 then None
      else
        var u := i + n + Run(t, i + n, Spaces);
        match WordIndex(t, u, words)
        case None => None
        case Some(k) =>
          var e := u + |words[k]|;
          Some(Match(i, e, t[i..i + n], t[u..e]))
    else None
  }

  // ---------------------------------------------------------------------------
  // \b(\d+(?:[.,]\d+)?)\s*(Sq\.?\s*Yd\.?|Sq\.?\s*Ft\.?|Marla|Kanal)\b
  // ---------------------------------------------------------------------------

  /**
   * `Sq\.?\s*U\.?\b` at u for the two-letter unit U. The greedy choices of the first
   * `\.?` and of `\s*` are the only ones that can reach U, a letter; the final `\.?`
   * is tried with the dot first, then without.
   */
  function SqUnitEnd(t: string, u: nat, unit: string): (e: Option<nat>)
    requires u <= |t|
    ensures e.Some? ==> u + 2 <= e.value <= |t| && MatchesCI(t, u, "Sq")
  {
    if MatchesCI(t, u, "Sq") then
      var a := if u + 2 < |t| && t[u + 2] == '.' then u + 3 else u + 2;
      var b := a + Run(t, a, Spaces);
      if MatchesCI(t, b, unit) then
        var e := b + |unit|;
        if e < |t| && t[e] == '.' && IsBoundary(t, e + 1) then Some(e + 1)
        else if IsBoundary(t, e) then Some(e)
        else None
      else None
    else None
  }

  /** The unit alternatives in order, each followed by `\b`; a unit starts with a letter. */
  function UnitEnd(t: string, u: nat): (e: Option<nat>)
    requires u <= |t|
    ensures e.Some? ==> u < e.value <= |t| && IsWordChar(t[u])
  {
    var yd := SqUnitEnd(t, u, "Yd");
    var ft := SqUnitEnd(t, u, "Ft");
    if yd.Some? then
      LetterMatch(t, u, "Sq");
      yd
    else if ft.Some? then
      LetterMatch(t, u, "Sq");
      ft
    else
      match WordIndex(t, u, LandUnits)
      case None => None
      case Some(k) =>
        LetterMatch(t, u, LandUnits[k]);
        Some(u + |LandUnits[k]|)
  }

  /** The area match once the number `t[i..p]` is chosen: the greedy `\s*`, then a unit. */
  function AreaWithNumber(t: string, i: nat, p: nat): (r: Option<Match>)
    requires i < p <= |t| && IsDigit(t[i])
    ensures r.Some? ==> r.value.start == i && p < r.value.end <= |t|
    ensures r.Some? ==> r.value.group1 == t[i..p] && r.value.group2 != [] && IsWordChar(r.value.group2[0])
  {
    var u := p + Run(t, p, Spaces);
    match UnitEnd(t, u)
    case None => None
    case Some(e) => Some(Match(i, e, t[i..p], t[u..e]))
  }

  /**
   * The area match at i. Only the greedy `\d+` can succeed (a unit cannot start at
   * a digit); the fraction `[.,]\d+` is tried first with its greedy `\d+`, then left out.
   */
  function AreaAt(t: string, i: nat): (r: Option<Match>)
    requires i <= |t|
    ensures r.Some? ==> r.value.start == i && i < r.value.end <= |t|
    ensures r.Some? ==> r.value.group1 != [] && IsDigit(r.value.group1[0])
    ensures r.Some? ==> r.value.group2 != [] && IsWordChar(r.value.group2[0])
  {
    if IsBoundary(t, i) then
      var n := Run(t, i, Digits);
      if n == 0 then None
      else
        var p := i + n;
        var f := if p < |t| && (t[p] == '.' || t[p] == ',') then Run(t, p + 1, Digits) else 0;
        var withFraction := if f > 0 then AreaWithNumber(t, i, p + 1 + f) else None;
        if withFraction.Some? then withFraction else AreaWithNumber(t, i, p)
    else None
  }

  // ---------------------------------------------------------------------------
  // re.search
  // ---------------------------------------------------------------------------

  /** `pattern.match` at position i of t. */
  function MatchAt(pat: Pattern, t: string, i: nat): (r: Option<Match>)
    requires i <= |t|
    ensures r.Some? ==> r.value.start == i && i < r.value.end <= |t|
  {
    match pat
    case PricePattern =>
      (match PriceEndAt(t, i)
       case None => None
       case Some(e) => Some(Match(i, e, "", "")))
    case BedsPattern => CountAt(t, i, BedWords)
    case BathsPattern => CountAt(t, i, BathWords)
    case AreaPattern => AreaAt(t, i)
  }

  /** The first index from `from` on where ms holds a value, |ms| when there is none. */
  function FirstSome<T>(ms: seq<Option<T>>, from: nat): (k: nat)
    requires from <= |ms|
    ensures from <= k <= |ms|
    ensures k < |ms| ==> ms[k].Some?
    ensures forall j :: from <= j < k ==> ms[j].None?
    decreases |ms| - from
  {
    if from == |ms| || ms[from].Some? then from else FirstSome(ms, from + 1)
  }

  /** The outcome of `pattern.match` at each position 0..|t| of t. */
  function MatchesAt(pat: Pattern, t: string): (ms: seq<Option<Match>>)
    ensures |ms| == |t| + 1
  {
    seq(|t| + 1, k requires 0 <= k <= |t| => MatchAt(pat, t, k))
  }

  /** `re.search(pattern, t[from..])`: the match at the first position, from `from` on, where there is one. */
  function Search(pat: Pattern, t: string, from: nat): Option<Match>
    requires from <= |t|
  {
    var ms := MatchesAt(pat, t);
    var k := FirstSome(ms, from);
    if k < |ms| then ms[k] else None
  }

  /** Search finds the leftmost match, and finds none exactly when no position matches. */
  lemma SearchLeftmost(pat: Pattern, t: string, from: nat)
    requires from <= |t|
    ensures Search(pat, t, from).Some? ==>
      && from <= Search(pat, t, from).value.start <= |t|
      && MatchAt(pat, t, Search(pat, t, from).value.start) == Search(pat, t, from)
      && forall k :: from <= k < Search(pat, t, from).value.start ==> MatchAt(pat, t, k).None?
    ensures Search(pat, t, from).None? <==> forall k :: from <= k <= |t| ==> MatchAt(pat, t, k).None?
  {
    var ms := MatchesAt(pat, t);
    var k := FirstSome(ms, from);
    forall j | from <= j <= |t| ensures ms[j] == MatchAt(pat, t, j) { }
    if k < |ms| {
      assert ms[k] == MatchAt(pat, t, k);
      assert ms[k].value.start == k;
    }
  }

  // ---------------------------------------------------------------------------
  // html_fallback_extract
  // ---------------------------------------------------------------------------

  /** The dictionary `html_fallback_extract` returns, one field per key. */
  datatype FallbackFields = FallbackFields(
    priceText: string, beds: string, baths: string, area: string, areaUnit: string, link: string)

  /** The page text the searches run over: `clean(soup.get_text(" "))`. */
  function SearchText(pageText: string): string {
    Clean(pageText)
  }

  /** A price match starts with "PKR", ignoring case. */
  lemma PriceMatchStart(t: string, i: nat)
    requires i <= |t| && MatchAt(PricePattern, t, i).Some?
    ensures MatchesCI(t, i, "PKR") && i + 3 < MatchAt(PricePattern, t, i).value.end
  {
  }

  /** A literal found at i is found at the start of any slice from i that contains it. */
  lemma MatchesCISlice(t: string, i: nat, j: nat, w: string)
    requires MatchesCI(t, i, w) && i + |w| <= j <= |t|
    ensures MatchesCI(t[i..j], 0, w)
  {
    assert forall k :: 0 <= k < |w| ==> t[i..j][k] == t[i + k];
  }

  /** `group(0)` of the first price match, or "". */
  function PriceText(text: string): (p: string)
    ensures p != "" ==> MatchesCI(p, 0, "PKR")
    ensures p == "" <==> Search(PricePattern, text, 0).None?
  {
    SearchLeftmost(PricePattern, text, 0);
    match Search(PricePattern, text, 0)
    case None => ""
    case Some(m) =>
      PriceMatchStart(text, m.start);
      MatchesCISlice(text, m.start, m.end, "PKR");
      text[m.start..m.end]
  }

  /** `group(1)` of the first count match, or "". */
  function CountText(pat: Pattern, text: string): (c: string)
    requires pat == BedsPattern || pat == BathsPattern
    ensures AllDigits(c)
    ensures c == "" <==> Search(pat, text, 0).None?
  {
    SearchLeftmost(pat, text, 0);
    match Search(pat, text, 0)
    case None => ""
    case Some(m) => m.group1
  }

  /** The cleaned groups 1 and 2 of the first area match, or two "". */
  function AreaTexts(text: string): (r: (string, string))
    ensures r.1 == "" <==> r.0 == ""
    ensures r.0 == "" <==> Search(AreaPattern, text, 0).None?
    ensures IsClean(r.0) && IsClean(r.1)
  {
    SearchLeftmost(AreaPattern, text, 0);
    match Search(AreaPattern, text, 0)
    case None => ("", "")
    case Some(m) =>
      AreaGroupsNotBlank(m.group1, m.group2);
      (Clean(m.group1), Clean(m.group2))
  }

  /** `html_fallback_extract(soup, page_url)` over the page's flattened text. */
  function HtmlFallbackExtract(pageText: string, pageUrl: string): (r: FallbackFields)
    ensures r.link == pageUrl
    ensures AllDigits(r.beds) && AllDigits(r.baths)
    ensures r.areaUnit == "" <==> r.area == ""
    ensures r.priceText != "" ==> MatchesCI(r.priceText, 0, "PKR")
    ensures IsClean(r.area) && IsClean(r.areaUnit)
  {
    var text := SearchText(pageText);
    var area := AreaTexts(text);
    FallbackFields(PriceText(text), CountText(BedsPattern, text), CountText(BathsPattern, text), area.0, area.1, pageUrl)
  }

  /** A string that starts with a non-space character does not clean to "". */
  lemma NotBlankClean(g: string)
    requires g != [] && !IsSpace(g[0])
    ensures Clean(g) != ""
  {
    CleanEmptyIff(g);
  }

  /** The area and its unit each start with a non-space character, so neither cleans to "". */
  lemma AreaGroupsNotBlank(g1: string, g2: string)
    requires g1 != [] && IsDigit(g1[0]) && g2 != [] && IsWordChar(g2[0])
    ensures Clean(g1) != "" && Clean(g2) != ""
  {
    NotBlankClean(g1);
    NotBlankClean(g2);
  }

  /** Each field is "" exactly when its pattern matches nowhere in the cleaned text. */
  lemma FallbackEmptyIffNoMatch(pageText: string, pageUrl: string)
    ensures var r := HtmlFallbackExtract(pageText, pageUrl);
      var text := SearchText(pageText);
      && (r.priceText == "" <==> forall k :: 0 <= k <= |text| ==> MatchAt(PricePattern, text, k).None?)
      && (r.beds == "" <==> forall k :: 0 <= k <= |text| ==> MatchAt(BedsPattern, text, k).None?)
      && (r.baths == "" <==> forall k :: 0 <= k <= |text| ==> MatchAt(BathsPattern, text, k).None?)
      && (r.area == "" <==> forall k :: 0 <= k <= |text| ==> MatchAt(AreaPattern, text, k).None?)
  {
    var text := SearchText(pageText);
    var pats := [PricePattern, BedsPattern, BathsPattern, AreaPattern];
    forall pat | pat in pats
      ensures Search(pat, text, 0).None? <==> forall k :: 0 <= k <= |text| ==> MatchAt(pat, text, k).None?
    {
      SearchLeftmost(pat, text, 0);
    }
  }
}
