/**
 * The values `first_nonempty` (z_scrapper.py:25-33) is given: what `json.loads`
 * produces (numbers restricted to integers) and `dict.get` returns, with
 * Python's `None` as `JNull`, and the plain strings the scraper passes itself.
 */
module Json {

  import opened Text

  datatype Json =
    | JNull
    | JBool(b: bool)
    | JInt(n: int)
    | JStr(s: string)
    | JArray(items: seq<Json>)
    | JObject(fields: map<string, Json>)

  /** `d.get(key)`: the value, or `None` when the key is missing. */
  function Get(d: map<string, Json>, key: string): Json {
    if key in d then d[key] else JNull
  }

  /** The candidates `first_nonempty` stops at: a string that is not blank once cleaned, or a number (a bool is an int). */
  predicate Qualifies(v: Json) {
    match v
    case JStr(s) => Clean(s) != []
    case JInt(_) => true
    case JBool(_) => true
    case _ => false
  }

  /** The text `first_nonempty` returns for a candidate it stops at: `clean(v)` or `str(v)`. */
  function Render(v: Json): string
    requires Qualifies(v)
  {
    match v
    case JStr(s) => Clean(s)
    case JInt(n) => IntToString(n)
    case JBool(b) => if b then "True" else "False"
  }

  /**
   * `first_nonempty(*vals)`: skips `None`, blank strings and values that are neither
   * string nor number; returns the first cleaned string or stringified number,
   * or "" when there is none. Every result is a clean string.
   */
  function FirstNonEmpty(vals: seq<Json>): (r: string)
    ensures IsClean(r)
  {
    if vals == [] then ""
    else
      match vals[0]
      case JNull => FirstNonEmpty(vals[1..])
      case JStr(s) => if Clean(s) != "" then Clean(s) else FirstNonEmpty(vals[1..])
      case JInt(n) => NoSpaceIsClean(IntToString(n)); IntToString(n)
      case JBool(b) => if b then "True" else "False"
      case _ => FirstNonEmpty(vals[1..])
  }

  /** The result is the rendering of the first qualifying candidate, whatever follows it. */
  lemma {:induction false} FirstNonEmptyPicksFirst(vals: seq<Json>, k: nat)
    requires k < |vals| && Qualifies(vals[k])
    requires forall j :: 0 <= j < k ==> !Qualifies(vals[j])
    ensures FirstNonEmpty(vals) == Render(vals[k])
  {
    if k > 0 {
      assert !Qualifies(vals[0]);
      FirstNonEmptyPicksFirst(vals[1..], k - 1);
    }
  }

  /** With no qualifying candidate the result is "". */
  lemma {:induction false} FirstNonEmptyNoneQualify(vals: seq<Json>)
    requires forall j :: 0 <= j < |vals| ==> !Qualifies(vals[j])
    ensures FirstNonEmpty(vals) == ""
  {
    if vals != [] {
      assert !Qualifies(vals[0]);
      FirstNonEmptyNoneQualify(vals[1..]);
    }
  }

  /** The result is blank exactly when no candidate qualifies. */
  lemma {:induction false} FirstNonEmptyBlankIff(vals: seq<Json>)
    ensures FirstNonEmpty(vals) == "" <==> forall j :: 0 <= j < |vals| ==> !Qualifies(vals[j])
  {
    if vals != [] {
      FirstNonEmptyBlankIff(vals[1..]);
      if Qualifies(vals[0]) {
        match vals[0]
        case JStr(s) =>
        case JInt(n) =>
        case JBool(b) =>
      } else {
        forall j | 0 < j < |vals| ensures vals[j] == vals[1..][j - 1] { }
      }
    }
  }

  /** A single string candidate comes back cleaned; a clean one comes back unchanged. */
  lemma FirstNonEmptyOfString(s: string)
    ensures FirstNonEmpty([JStr(s)]) == Clean(s)
    ensures IsClean(s) ==> FirstNonEmpty([JStr(s)]) == s
  {
    if IsClean(s) {
      CleanFixpoint(s);
    }
  }
}
