/**
 * String helpers of the scraper (z_scrapper.py:22-23): whitespace, `str.strip()`,
 * `clean`, ASCII digits, decimal formatting of integers (Python's `str(int)`),
 * case-insensitive literal matching and regex word boundaries.
 */
module Text {

  import opened Wrappers

  // ---------------------------------------------------------------------------
  // Character classes
  // ---------------------------------------------------------------------------

  /** The characters Python's `str.isspace()` accepts: what `\s` matches and `str.strip()` removes. */
  predicate IsSpace(c: char) {
    var n := c as int;
    n == 0x20 || (0x09 <= n <= 0x0D) || (0x1C <= n <= 0x1F) || n == 0x85 || n == 0xA0
    || n == 0x1680 || (0x2000 <= n <= 0x200A) || n == 0x2028 || n == 0x2029
    || n == 0x202F || n == 0x205F || n == 0x3000
  }

  /** An ASCII decimal digit (the model's `\d`). */
  predicate IsDigit(c: char) {
    '0' <= c <= '9'
  }

  /** An ASCII letter, digit or underscore (the model's `\w`). */
  predicate IsWordChar(c: char) {
    ('a' <= c <= 'z') || ('A' <= c <= 'Z') || IsDigit(c) || c == '_'
  }

  predicate AllDigits(s: string) {
    forall i :: 0 <= i < |s| ==> IsDigit(s[i])
  }

  /** No character of s is whitespace. */
  predicate NoSpace(s: string) {
    forall i :: 0 <= i < |s| ==> !IsSpace(s[i])
  }

  /** ASCII case folding, as `re.I` applies it to the letters of a pattern. */
  function Lower(c: char): char {
    if 'A' <= c <= 'Z' then (c as int + 32) as char else c
  }

  /** The literal w occurs at position i of t, ignoring ASCII case. */
  predicate MatchesCI(t: string, i: nat, w: string) {
    i + |w| <= |t| && forall k :: 0 <= k < |w| ==> Lower(t[i + k]) == Lower(w[k])
  }

  /** Position k of t (0 <= k <= |t|) is a regex word boundary `\b`. */
  predicate IsBoundary(t: string, k: nat)
    requires k <= |t|
  {
    (k > 0 && IsWordChar(t[k - 1])) != (k < |t| && IsWordChar(t[k]))
  }

  /** The character classes the scanners run over greedily: `\s`, `\d` and `[\d,]`. */
  datatype CharClass = Spaces | Digits | DigitsOrCommas

  predicate InClass(cls: CharClass, c: char) {
    match cls
    case Spaces => IsSpace(c)
    case Digits => IsDigit(c)
    case DigitsOrCommas => IsDigit(c) || c == ','
  }

  /** Length of the longest run of `cls` characters of t starting at i: a greedy `\s*`, `\d*` or `[\d,]*`. */
  function Run(t: string, i: nat, cls: CharClass): (n: nat)
    requires i <= |t|
    ensures i + n <= |t|
    ensures forall k :: i <= k < i + n ==> InClass(cls, t[k])
    ensures i + n < |t| ==> !InClass(cls, t[i + n])
    decreases |t| - i
  {
    if i < |t| && InClass(cls, t[i]) then 1 + Run(t, i + 1, cls) else 0
  }

  // ---------------------------------------------------------------------------
  // Prefixes and substrings
  // ---------------------------------------------------------------------------

  /** `s.startswith(p)`. */
  predicate IsPrefix(p: string, s: string) {
    |p| <= |s| && s[..|p|] == p
  }

  /** `sub in s`. */
  predicate Contains(s: string, sub: string)
    decreases |s|
  {
    IsPrefix(sub, s) || (s != [] && Contains(s[1..], sub))
  }

  // ---------------------------------------------------------------------------
  // str.strip()
  // ---------------------------------------------------------------------------

  /** The non-whitespace characters of s, in order. */
  function NonSpace(s: string): string {
    if s == [] then [] else (if IsSpace(s[0]) then [] else [s[0]]) + NonSpace(s[1..])
  }

  /** `s.lstrip()`: drops the leading whitespace and nothing else. */
  function StripLeft(s: string): (r: string)
    ensures |r| <= |s| && r == s[|s| - |r|..]
    ensures r == [] || !IsSpace(r[0])
    ensures forall i :: 0 <= i < |s| - |r| ==> IsSpace(s[i])
    ensures NonSpace(r) == NonSpace(s)
  {
    if s != [] && IsSpace(s[0]) then StripLeft(s[1..]) else s
  }

  /** `s.rstrip()`: drops the trailing whitespace and nothing else. */
  function StripRight(s: string): (r: string)
    ensures |r| <= |s| && r == s[..|r|]
    ensures r == [] || !IsSpace(r[|r| - 1])
    ensures forall i :: |r| <= i < |s| ==> IsSpace(s[i])
  {
    if s != [] && IsSpace(s[|s| - 1]) then StripRight(s[..|s| - 1]) else s
  }

  /** `s.strip()`. */
  function Strip(s: string): (r: string)
  {
    StripRight(StripLeft(s))
  }

  /** Neither end of s is whitespace. */
  predicate Trimmed(s: string) {
    s == [] || (!IsSpace(s[0]) && !IsSpace(s[|s| - 1]))
  }

  /** The only whitespace character in s is the plain space. */
  predicate OnlyPlainSpaces(s: string) {
    forall i :: 0 <= i < |s| && IsSpace(s[i]) ==> s[i] == ' '
  }

  /** No two adjacent spaces. */
  predicate NoDoubleSpaces(s: string) {
    forall i :: 0 <= i < |s| - 1 && s[i] == ' ' ==> s[i + 1] != ' '
  }

  /** The shape of every value `clean` returns. */
  predicate IsClean(s: string) {
    Trimmed(s) && OnlyPlainSpaces(s) && NoDoubleSpaces(s)
  }

  lemma {:induction false} NonSpaceAppend(a: string, b: string)
    ensures NonSpace(a + b) == NonSpace(a) + NonSpace(b)
  {
    if a != [] {
      assert (a + b)[1..] == a[1..] + b;
      NonSpaceAppend(a[1..], b);
    } else {
      assert a + b == b;
    }
  }

  /** s has no non-whitespace character exactly when every character is whitespace. */
  lemma {:induction false} NonSpaceEmptyIff(s: string)
    ensures NonSpace(s) == [] <==> forall i :: 0 <= i < |s| ==> IsSpace(s[i])
  {
    if s != [] {
      NonSpaceEmptyIff(s[1..]);
      if NonSpace(s) == [] {
        forall i | 0 <= i < |s| ensures IsSpace(s[i]) {
          if i > 0 { assert s[i] == s[1..][i - 1]; }
        }
      }
      if forall i :: 0 <= i < |s| ==> IsSpace(s[i]) {
        forall i | 0 <= i < |s[1..]| ensures IsSpace(s[1..][i]) {
          assert s[1..][i] == s[i + 1];
        }
      }
    }
  }

  lemma {:induction false} StripRightNonSpace(s: string)
    ensures NonSpace(StripRight(s)) == NonSpace(s)
    decreases |s|
  {
    if s != [] && IsSpace(s[|s| - 1]) {
      var init := s[..|s| - 1];
      StripRightNonSpace(init);
      assert s == init + [s[|s| - 1]];
      NonSpaceAppend(init, [s[|s| - 1]]);
      assert NonSpace([s[|s| - 1]]) == [];
    }
  }

  /** `strip` removes the whitespace at both ends and keeps every other character. */
  lemma StripSpec(s: string)
    ensures Trimmed(Strip(s))
    ensures NonSpace(Strip(s)) == NonSpace(s)
  {
    var l := StripLeft(s);
    StripRightNonSpace(l);
    var r := StripRight(l);
    if r != [] {
      assert r[0] == l[0];
    }
  }

  lemma TrimmedStrip(s: string)
    requires Trimmed(s)
    ensures Strip(s) == s
  {
  }

  // ---------------------------------------------------------------------------
  // clean(s) = re.sub(r"\s+", " ", (s or "").strip())
  // ---------------------------------------------------------------------------

  /** `re.sub(r"\s+", " ", s)`: every maximal run of whitespace becomes one plain space. */
  function Collapse(s: string): (r: string)
    ensures |r| <= |s|
    ensures r == [] <==> s == []
    ensures s != [] ==> (r[0] == ' ' <==> IsSpace(s[0]))
    decreases |s|
  {
    if s == [] then []
    else if IsSpace(s[0]) then
      var rest := StripLeft(s);
      assert |rest| < |s|;
      [' '] + Collapse(rest)
    else
      [s[0]] + Collapse(s[1..])
  }

  /**
   * What the collapsed string looks like: it ends in a space exactly when s ends in
   * whitespace, its only whitespace is single plain spaces, and every other character is kept.
   */
  lemma {:induction false} CollapseShape(s: string)
    ensures var r := Collapse(s);
      && (s != [] ==> (r[|r| - 1] == ' ' <==> IsSpace(s[|s| - 1])))
      && OnlyPlainSpaces(r) && NoDoubleSpaces(r) && NonSpace(r) == NonSpace(s)
    decreases |s|
  {
    if s != [] {
      if IsSpace(s[0]) {
        var rest := StripLeft(s);
        CollapseShape(rest);
        ConsShape(' ', Collapse(rest));
        LastOfSuffix(s, rest);
      } else {
        var tail := s[1..];
        CollapseShape(tail);
        ConsShape(s[0], Collapse(tail));
        LastOfSuffix(s, tail);
        assert NonSpace(s) == [s[0]] + NonSpace(tail);
      }
    }
  }

  lemma LastOfSuffix(s: string, r: string)
    requires |r| <= |s| && r == s[|s| - |r|..]
    ensures r != [] ==> r[|r| - 1] == s[|s| - 1]
  {
  }

  /** One character put in front of a collapsed string keeps it collapsed, unless it makes a double space. */
  lemma ConsShape(h: char, c: string)
    requires OnlyPlainSpaces(c) && NoDoubleSpaces(c)
    requires IsSpace(h) ==> h == ' '
    requires h == ' ' ==> c == [] || c[0] != ' '
    ensures var r := [h] + c;
      && OnlyPlainSpaces(r) && NoDoubleSpaces(r)
      && r[|r| - 1] == (if c == [] then h else c[|c| - 1])
      && NonSpace(r) == (if IsSpace(h) then [] else [h]) + NonSpace(c)
  {
    var r := [h] + c;
    assert r[1..] == c;
    assert forall i :: 1 <= i < |r| ==> r[i] == c[i - 1];
  }

  /** `clean(s)` for a string argument: the words of s joined by single spaces. */
  function Clean(s: string): (r: string)
    ensures r == Unwords(Words(s))
    ensures IsClean(r)
    ensures NonSpace(r) == NonSpace(s)
  {
    StripSpec(s);
    CollapseShape(Strip(s));
    CollapseStripWords(s);
    Collapse(Strip(s))
  }

  /** `clean(s)` for a possibly absent argument: `(s or "")` turns `None` into "". */
  function CleanOpt(s: Option<string>): (r: string)
    ensures s.None? ==> r == []
    ensures s.Some? ==> r == Unwords(Words(s.value))
    ensures s.Some? ==> IsClean(r) && NonSpace(r) == NonSpace(s.value)
  {
    match s
    case None => Clean([])
    case Some(v) => Clean(v)
  }

  lemma {:induction false} CollapseFixpoint(s: string)
    requires OnlyPlainSpaces(s) && NoDoubleSpaces(s)
    ensures Collapse(s) == s
    decreases |s|
  {
    if s != [] {
      var tail := s[1..];
      assert OnlyPlainSpaces(tail) by {
        forall i | 0 <= i < |tail| && IsSpace(tail[i]) ensures tail[i] == ' ' {
          assert tail[i] == s[i + 1];
        }
      }
      assert NoDoubleSpaces(tail) by {
        forall i | 0 <= i < |tail| - 1 && tail[i] == ' ' ensures tail[i + 1] != ' ' {
          assert tail[i] == s[i + 1] && tail[i + 1] == s[i + 2];
        }
      }
      CollapseFixpoint(tail);
      if IsSpace(s[0]) {
        assert tail == [] || !IsSpace(tail[0]) by {
          if tail != [] { assert tail[0] == s[1]; }
        }
        assert StripLeft(tail) == tail;
        assert StripLeft(s) == tail;
      }
      assert s == [s[0]] + tail;
    }
  }

  /** A clean string is its own `clean`. */
  lemma CleanFixpoint(s: string)
    requires IsClean(s)
    ensures Clean(s) == s
  {
    TrimmedStrip(s);
    CollapseFixpoint(s);
  }

  /** `clean` is idempotent. */
  lemma CleanIdempotent(s: string)
    ensures Clean(Clean(s)) == Clean(s)
  {
    CleanFixpoint(Clean(s));
  }

  /** `clean(s)` is blank exactly when s is all whitespace (the truth test `first_nonempty` applies). */
  lemma CleanEmptyIff(s: string)
    ensures Clean(s) == [] <==> forall i :: 0 <= i < |s| ==> IsSpace(s[i])
  {
    var r := Clean(s);
    NonSpaceEmptyIff(s);
    NonSpaceEmptyIff(r);
    if r != [] {
      assert !IsSpace(r[0]);
    }
  }

  /** A string without whitespace is clean, so `clean` leaves it alone. */
  lemma NoSpaceIsClean(s: string)
    requires NoSpace(s)
    ensures IsClean(s) && Clean(s) == s
  {
    CleanFixpoint(s);
  }

  // ---------------------------------------------------------------------------
  // Words: what `clean` keeps of a string
  // ---------------------------------------------------------------------------

  /** Length of the run of non-whitespace characters that starts s. */
  function WordLen(s: string): (n: nat)
    ensures n <= |s|
    ensures forall i :: 0 <= i < n ==> !IsSpace(s[i])
    ensures n < |s| ==> IsSpace(s[n])
  {
    if s == [] || IsSpace(s[0]) then 0 else 1 + WordLen(s[1..])
  }

  /** `s.split()`: the maximal runs of non-whitespace characters of s, in order. */
  function Words(s: string): seq<string>
    decreases |s|
  {
    var t := StripLeft(s);
    if t == [] then []
    else
      var n := WordLen(t);
      [t[..n]] + Words(t[n..])
  }

  /** Every word is a non-empty run without whitespace. */
  lemma {:induction false} WordsShape(s: string)
    ensures forall k :: 0 <= k < |Words(s)| ==> Words(s)[k] != [] && NoSpace(Words(s)[k])
    decreases |s|
  {
    var t := StripLeft(s);
    if t != [] {
      var n := WordLen(t);
      WordsShape(t[n..]);
      var ws := Words(s);
      assert ws == [t[..n]] + Words(t[n..]);
      forall k | 0 <= k < |ws| ensures ws[k] != [] && NoSpace(ws[k]) {
        if k > 0 {
          assert ws[k] == Words(t[n..])[k - 1];
        }
      }
    }
  }

  /** `" ".join(ws)`. */
  function Unwords(ws: seq<string>): string {
    if ws == [] then []
    else if |ws| == 1 then ws[0]
    else ws[0] + " " + Unwords(ws[1..])
  }

  /** When exactly the first k characters of s are leading whitespace, lstrip drops those. */
  lemma {:induction false} StripLeftAt(s: string, k: nat)
    requires k <= |s|
    requires forall i :: 0 <= i < k ==> IsSpace(s[i])
    requires k == |s| || !IsSpace(s[k])
    ensures StripLeft(s) == s[k..]
  {
    if k > 0 {
      StripLeftAt(s[1..], k - 1);
      assert s[1..][k - 1..] == s[k..];
    }
  }

  /** When the first n characters are exactly the leading word, WordLen finds n. */
  lemma {:induction false} WordLenAt(s: string, n: nat)
    requires n <= |s|
    requires forall i :: 0 <= i < n ==> !IsSpace(s[i])
    requires n == |s| || IsSpace(s[n])
    ensures WordLen(s) == n
  {
    if n > 0 {
      WordLenAt(s[1..], n - 1);
    }
  }

  /** Trailing whitespace does not lengthen the leading word. */
  lemma {:induction false} WordLenAppend(r: string, w: string)
    requires forall i :: 0 <= i < |w| ==> IsSpace(w[i])
    ensures WordLen(r + w) == WordLen(r)
  {
    if r != [] && !IsSpace(r[0]) {
      assert (r + w)[1..] == r[1..] + w;
      WordLenAppend(r[1..], w);
    }
  }

  /** A non-space character in front is copied by collapsing. */
  lemma CollapseCons(c: char, rest: string)
    requires !IsSpace(c)
    ensures Collapse([c] + rest) == [c] + Collapse(rest)
  {
    assert ([c] + rest)[1..] == rest;
  }

  /** Collapsing copies a leading run without whitespace unchanged. */
  lemma {:induction false} CollapseAppendWord(w: string, rest: string)
    requires NoSpace(w)
    ensures Collapse(w + rest) == w + Collapse(rest)
    decreases |w|
  {
    if w == [] {
      assert w + rest == rest;
    } else {
      var tail := w[1..];
      assert w + rest == [w[0]] + (tail + rest);
      CollapseCons(w[0], tail + rest);
      CollapseAppendWord(tail, rest);
      ConcatAssoc([w[0]], tail, Collapse(rest));
      assert [w[0]] + tail == w;
    }
  }

  /** Leading whitespace is no word. */
  lemma WordsStripLeft(s: string)
    ensures Words(StripLeft(s)) == Words(s)
  {
    StripLeftAt(StripLeft(s), 0);
  }

  /** Trailing whitespace is no word either. */
  lemma {:induction false} WordsAppendSpace(t: string, w: string)
    requires forall i :: 0 <= i < |w| ==> IsSpace(w[i])
    ensures Words(t + w) == Words(t)
    decreases |t|
  {
    var r := StripLeft(t);
    var k := |t| - |r|;
    if r == [] {
      assert forall i :: 0 <= i < |t + w| ==> IsSpace((t + w)[i]);
      StripLeftAt(t + w, |t + w|);
    } else {
      SliceAppend(t, w, k);
      assert t[k..] == r;
      StripLeftAt(t + w, k);
      var n := WordLen(r);
      WordLenAppend(r, w);
      SliceAppend(r, w, n);
      WordsAppendSpace(r[n..], w);
    }
  }

  /** Trailing whitespace is no word, so rstrip keeps the words. */
  lemma WordsStripRight(l: string)
    ensures Words(StripRight(l)) == Words(l)
  {
    var r := StripRight(l);
    var w := l[|r|..];
    PrefixSplit(l, |r|);
    assert forall i :: 0 <= i < |w| ==> IsSpace(w[i]) by {
      forall i | 0 <= i < |w| ensures IsSpace(w[i]) {
        assert w[i] == l[|r| + i];
      }
    }
    WordsAppendSpace(r, w);
  }

  lemma PrefixSplit(l: string, k: nat)
    requires k <= |l|
    ensures l == l[..k] + l[k..]
  {
  }

  lemma SliceAppend(r: string, w: string, n: nat)
    requires n <= |r|
    ensures (r + w)[..n] == r[..n] && (r + w)[n..] == r[n..] + w
    ensures n < |r| ==> (r + w)[n] == r[n]
  {
  }

  lemma ConcatAssoc(a: string, b: string, c: string)
    ensures a + (b + c) == a + b + c
  {
  }

  lemma UnwordsCons(w: string, ws: seq<string>)
    requires ws != []
    ensures Unwords([w] + ws) == w + " " + Unwords(ws)
  {
    assert ([w] + ws)[1..] == ws;
  }

  /** On a string with no whitespace at either end, collapsing joins its words with single spaces. */
  lemma {:induction false} CollapseTrimmed(t: string)
    requires Trimmed(t)
    ensures Collapse(t) == Unwords(Words(t))
    decreases |t|
  {
    if t != [] {
      if WordLen(t) == |t| {
        OneWord(t);
      } else {
        var word, r2 := FirstWordGap(t);
        CollapseTrimmed(r2);
        JoinStep(word, Words(r2), Collapse(r2));
      }
    }
  }

  /** A trimmed string with no whitespace is one word and collapses to itself. */
  lemma OneWord(t: string)
    requires t != [] && Trimmed(t) && WordLen(t) == |t|
    ensures Collapse(t) == t && Words(t) == [t]
  {
    WordsLead(t);
    PrefixSplit(t, |t|);
    CollapseAppendWord(t, []);
    assert t[|t|..] == [] && StripLeft([]) == [];
    assert t + [] == t;
  }

  /** A trimmed string of more than one word: its first word, then the trimmed rest after the gap. */
  lemma FirstWordGap(t: string) returns (word: string, r2: string)
    requires t != [] && Trimmed(t) && WordLen(t) < |t|
    ensures |r2| < |t| && Trimmed(r2) && Words(r2) != []
    ensures Collapse(t) == word + ([' '] + Collapse(r2))
    ensures Words(t) == [word] + Words(r2)
  {
    var n := WordLen(t);
    word, r2 := t[..n], StripLeft(t[n..]);
    GapCollapse(t, n);
    GapWords(t, n);
  }

  /** The collapse of a trimmed string of several words, split after its first word. */
  lemma GapCollapse(t: string, n: nat)
    requires t != [] && Trimmed(t) && n == WordLen(t) < |t|
    ensures Collapse(t) == t[..n] + ([' '] + Collapse(StripLeft(t[n..])))
  {
    var rest := t[n..];
    PrefixSplit(t, n);
    CollapseAppendWord(t[..n], rest);
    assert rest[|rest| - 1] == t[|t| - 1];
    GapCollapseRest(rest);
  }

  /** The words of a trimmed string of several words, split after its first word. */
  lemma GapWords(t: string, n: nat)
    requires t != [] && Trimmed(t) && n == WordLen(t) < |t|
    ensures var r2 := StripLeft(t[n..]);
      |r2| < |t| && Trimmed(r2) && Words(r2) != [] && Words(t) == [t[..n]] + Words(r2)
  {
    var rest := t[n..];
    WordsLead(t);
    assert rest[|rest| - 1] == t[|t| - 1];
    GapWordsRest(rest);
  }

  /** The whitespace after a word, when a later word follows, collapses to one space. */
  lemma GapCollapseRest(rest: string)
    requires rest != [] && IsSpace(rest[0])
    ensures Collapse(rest) == [' '] + Collapse(StripLeft(rest))
  {
  }

  /** The whitespace after a word, when a later word follows, hides no word. */
  lemma GapWordsRest(rest: string)
    requires rest != [] && IsSpace(rest[0]) && !IsSpace(rest[|rest| - 1])
    ensures var r2 := StripLeft(rest);
      |r2| < |rest| && Trimmed(r2) && Words(rest) == Words(r2) && Words(r2) != []
  {
    var r2 := StripLeft(rest);
    assert r2 != [];
    LastOfSuffix(rest, r2);
    WordsStripLeft(rest);
  }

  /** One more word in front of a non-empty joined list. */
  lemma JoinStep(word: string, ws: seq<string>, c: string)
    requires ws != [] && c == Unwords(ws)
    ensures word + ([' '] + c) == Unwords([word] + ws)
  {
    UnwordsCons(word, ws);
    ConcatAssoc(word, " ", c);
  }

  /** `re.sub(r"\s+", " ", s.strip())` is the words of s joined by single spaces. */
  lemma CollapseStripWords(s: string)
    ensures Collapse(Strip(s)) == Unwords(Words(s))
  {
    StripSpec(s);
    CollapseTrimmed(Strip(s));
    WordsStripRight(StripLeft(s));
    WordsStripLeft(s);
  }

  /** A joined string starts with the first character of its first word. */
  lemma UnwordsHead(ws: seq<string>)
    requires ws != [] && ws[0] != []
    ensures Unwords(ws) != [] && Unwords(ws)[0] == ws[0][0]
  {
  }

  /** Splitting words joined by single spaces gives the words back. */
  lemma {:induction false} WordsOfUnwords(ws: seq<string>)
    requires forall k :: 0 <= k < |ws| ==> ws[k] != [] && NoSpace(ws[k])
    ensures Words(Unwords(ws)) == ws
    decreases |ws|
  {
    if ws != [] {
      var w := ws[0];
      if |ws| == 1 {
        WordsSingle(w);
      } else {
        var tail := ws[1..];
        var rest := Unwords(tail);
        UnwordsHead(tail);
        WordsOfUnwords(tail);
        WordsJoinedPair(w, rest);
        assert Unwords(ws) == w + " " + rest;
        assert ws == [w] + tail;
      }
    }
  }

  /** A single word is its own only word. */
  lemma WordsSingle(w: string)
    requires w != [] && NoSpace(w)
    ensures Words(w) == [w]
  {
    WordLenAt(w, |w|);
    WordsLead(w);
    assert w[..|w|] == w && w[|w|..] == [];
    assert StripLeft([]) == [];
  }

  /** A word, a space and a string starting with a non-space: the word comes first. */
  lemma WordsJoinedPair(w: string, rest: string)
    requires w != [] && NoSpace(w)
    requires rest != [] && !IsSpace(rest[0])
    ensures Words(w + " " + rest) == [w] + Words(rest)
  {
    var u := w + " " + rest;
    assert u[..|w|] == w && u[|w|..] == " " + rest;
    assert forall i :: 0 <= i < |w| ==> u[i] == w[i];
    assert u[|w|] == ' ';
    WordLenAt(u, |w|);
    WordsLead(u);
    StripLeftAt(" " + rest, 1);
    assert (" " + rest)[1..] == rest;
    WordsStripLeft(" " + rest);
  }

  /** On a string starting with a non-space, the first word is its leading run. */
  lemma WordsLead(u: string)
    requires u != [] && !IsSpace(u[0])
    ensures Words(u) == [u[..WordLen(u)]] + Words(u[WordLen(u)..])
  {
    StripLeftAt(u, 0);
    assert u[0..] == u;
  }

  /** The words of `clean(s)` are the words of s. */
  lemma CleanKeepsWords(s: string)
    ensures Words(Clean(s)) == Words(s)
  {
    WordsShape(s);
    WordsOfUnwords(Words(s));
  }

  // ---------------------------------------------------------------------------
  // Decimal formatting: Python's str(int)
  // ---------------------------------------------------------------------------

  function DigitChar(d: nat): (c: char)
    requires d < 10
    ensures IsDigit(c)
  {
    ('0' as int + d) as char
  }

  /** Decimal digits of n, most significant first, no leading zero. */
  function NatToString(n: nat): (r: string)
    ensures r != [] && AllDigits(r)
    ensures r[0] == '0' ==> n == 0
    decreases n
  {
    if n < 10 then [DigitChar(n)] else NatToString(n / 10) + [DigitChar(n % 10)]
  }

  /** `str(n)` for a Python int: a minus sign for negatives, then the decimal digits. */
  function IntToString(n: int): (r: string)
    ensures r != [] && NoSpace(r)
  {
    if n < 0 then "-" + NatToString(-n) else NatToString(n)
  }

  /** The value of a string of decimal digits (the inverse of NatToString). */
  function DigitsValue(s: string): nat
    requires AllDigits(s)
  {
    if s == [] then 0 else DigitsValue(s[..|s| - 1]) * 10 + (s[|s| - 1] as int - '0' as int)
  }

  /** Reading back the decimal text of n gives n. */
  lemma {:induction false} NatToStringRoundTrip(n: nat)
    ensures DigitsValue(NatToString(n)) == n
    decreases n
  {
    if n >= 10 {
      NatToStringRoundTrip(n / 10);
      var s := NatToString(n);
      assert s[..|s| - 1] == NatToString(n / 10);
    }
  }

  /** Distinct naturals have distinct decimal texts. */
  lemma NatToStringInjective(m: nat, n: nat)
    requires NatToString(m) == NatToString(n)
    ensures m == n
  {
    NatToStringRoundTrip(m);
    NatToStringRoundTrip(n);
  }

  lemma NatToStringDistinct(m: nat, n: nat)
    requires m != n
    ensures NatToString(m) != NatToString(n)
  {
    if NatToString(m) == NatToString(n) {
      NatToStringInjective(m, n);
    }
  }
}
