/**
 * The notifier's pure part (notifier.py): `pick_new` (notifier.py:28-34), the
 * order-preserving filter of rows with a fresh link, and `build_email_body`
 * (notifier.py:37-64), the line-by-line formatter of the e-mail text.
 */
module Notifier {

  import opened Text
  import opened Seqs
  import opened Records

  // ---------------------------------------------------------------------------
  // pick_new
  // ---------------------------------------------------------------------------

  /** A row is new when its stripped link is non-empty and not yet seen. */
  predicate IsNew(r: Listing, seen: set<string>) {
    Strip(r.link) != "" && Strip(r.link) !in seen
  }

  /** The new rows, in their original order. */
  function NewRows(rows: seq<Listing>, seen: set<string>): seq<Listing>
    decreases |rows|
  {
    if rows == [] then []
    else
      var init, r := rows[..|rows| - 1], rows[|rows| - 1];
      NewRows(init, seen) + if IsNew(r, seen) then [r] else []
  }

  /** A row is among the new rows exactly when it is a row and it is new. */
  lemma {:induction false} NewRowsMembers(rows: seq<Listing>, seen: set<string>)
    ensures forall r :: r in NewRows(rows, seen) <==> r in rows && IsNew(r, seen)
    decreases |rows|
  {
    if rows != [] {
      var init, last := rows[..|rows| - 1], rows[|rows| - 1];
      NewRowsMembers(init, seen);
      assert rows == init + [last];
    }
  }

  /** The new rows keep the order of `rows`: they form a subsequence of it. */
  lemma {:induction false} NewRowsSubsequence(rows: seq<Listing>, seen: set<string>)
    ensures IsSubsequence(NewRows(rows, seen), rows)
    decreases |rows|
  {
    if rows != [] {
      var init, last := rows[..|rows| - 1], rows[|rows| - 1];
      var prev := NewRows(init, seen);
      assert init + [last] == rows;
      NewRowsSubsequence(init, seen);
      SubsequenceExtend(prev, init, last);
      if IsNew(last, seen) {
        assert NewRows(rows, seen) == prev + [last];
      } else {
        assert NewRows(rows, seen) == prev + [];
        assert prev + [] == prev;
      }
    }
  }

  /** `pick_new(rows, seen)`: appends each new row, in order. */
  method PickNew(rows: seq<Listing>, seen: set<string>) returns (newRows: seq<Listing>)
    ensures newRows == NewRows(rows, seen)
    ensures forall r :: r in newRows <==> r in rows && IsNew(r, seen)
    ensures IsSubsequence(newRows, rows)
  {
    newRows := [];
    for i := 0 to |rows|
      invariant newRows == NewRows(rows[..i], seen)
    {
      var r := rows[i];
      var link := Strip(r.link);
      assert rows[..i + 1][..i] == rows[..i];
      if link != "" && link !in seen {
        newRows := newRows + [r];
      }
    }
    assert rows[..|rows|] == rows;
    NewRowsMembers(rows, seen);
    NewRowsSubsequence(rows, seen);
  }

  // ---------------------------------------------------------------------------
  // build_email_body
  // ---------------------------------------------------------------------------

  /** `f"New Zameen rental listings found: {n}"`. */
  function HeaderLine(n: nat): string {
    "New Zameen rental listings found: " + NatToString(n)
  }

  /** The first line of row i: its number, its price, and its address when it has one. */
  function FirstRowLine(i: nat, r: Listing): string {
    if r.address != "" then NatToString(i) + ") " + r.priceText + " | " + r.address
    else NatToString(i) + ") " + r.priceText
  }

  function DetailsLine(r: Listing): string {
    "   " + r.beds + " bed | " + r.baths + " bath | " + r.area + " " + r.areaUnit
  }

  function LinkLine(r: Listing): string {
    "   " + r.link
  }

  /** The four lines row i contributes. */
  function RowLines(i: nat, r: Listing): seq<string> {
    [FirstRowLine(i, r), DetailsLine(r), LinkLine(r), ""]
  }

  /** The lines of rows numbered from `first` on. */
  function RowBlocks(rows: seq<Listing>, first: nat): seq<string>
    decreases |rows|
  {
    if rows == [] then [] else RowBlocks(rows[..|rows| - 1], first) + RowLines(first + |rows| - 1, rows[|rows| - 1])
  }

  /** The list `lines` once the loop has run: the header, a blank line, then four lines per row. */
  function BodyLines(rows: seq<Listing>): seq<string> {
    [HeaderLine(|rows|), ""] + RowBlocks(rows, 1)
  }

  /** `"\n".join(lines)`. */
  function Join(lines: seq<string>): string
    decreases |lines|
  {
    if lines == [] then ""
    else if |lines| == 1 then lines[0]
    else lines[0] + "\n" + Join(lines[1..])
  }

  /** `build_email_body(new_rows)`: appends the lines row by row, numbering from 1, then joins them. */
  method BuildEmailBody(rows: seq<Listing>) returns (body: string)
    ensures body == Join(BodyLines(rows))
  {
    var lines: seq<string> := [];
    lines := lines + [HeaderLine(|rows|)];
    lines := lines + [""];
    for i := 1 to |rows| + 1
      invariant lines == [HeaderLine(|rows|), ""] + RowBlocks(rows[..i - 1], 1)
    {
      var r := rows[i - 1];
      if r.address != "" {
        lines := lines + [NatToString(i) + ") " + r.priceText + " | " + r.address];
      } else {
        lines := lines + [NatToString(i) + ") " + r.priceText];
      }
      lines := lines + ["   " + r.beds + " bed | " + r.baths + " bath | " + r.area + " " + r.areaUnit];
      lines := lines + ["   " + r.link];
      lines := lines + [""];
      assert rows[..i][..i - 1] == rows[..i - 1];
      assert RowBlocks(rows[..i], 1) == RowBlocks(rows[..i - 1], 1) + RowLines(i, r);
    }
    assert rows[..|rows|] == rows;
    body := Join(lines);
  }

  // ---------------------------------------------------------------------------
  // Properties of the body
  // ---------------------------------------------------------------------------

  lemma {:induction false} RowBlocksLength(rows: seq<Listing>, first: nat)
    ensures |RowBlocks(rows, first)| == 4 * |rows|
    decreases |rows|
  {
    if rows != [] {
      RowBlocksLength(rows[..|rows| - 1], first);
    }
  }

  /** Line 4k + j of the row lines is line j of row k's four, numbered first + k. */
  lemma {:induction false} RowBlocksAt(rows: seq<Listing>, first: nat, k: nat, j: nat)
    requires k < |rows| && j < 4
    ensures |RowBlocks(rows, first)| == 4 * |rows|
    ensures RowBlocks(rows, first)[4 * k + j] == RowLines(first + k, rows[k])[j]
    decreases |rows|
  {
    RowBlocksLength(rows, first);
    var init := rows[..|rows| - 1];
    RowBlocksLength(init, first);
    if k < |rows| - 1 {
      RowBlocksAt(init, first, k, j);
    }
  }

  /** The body has the header line, a blank line, and exactly four lines per row. */
  lemma BodyShape(rows: seq<Listing>)
    ensures |BodyLines(rows)| == 2 + 4 * |rows|
    ensures BodyLines(rows)[0] == "New Zameen rental listings found: " + NatToString(|rows|)
    ensures BodyLines(rows)[1] == ""
  {
    RowBlocksLength(rows, 1);
  }

  /** Row i (from 1) gives its price line, its details line, its link line and a blank line. */
  lemma BodyRowLines(rows: seq<Listing>, i: nat)
    requires 1 <= i <= |rows|
    ensures |BodyLines(rows)| == 2 + 4 * |rows|
    ensures var r := rows[i - 1];
      var at := 2 + 4 * (i - 1);
      && (r.address != "" ==> BodyLines(rows)[at] == NatToString(i) + ") " + r.priceText + " | " + r.address)
      && (r.address == "" ==> BodyLines(rows)[at] == NatToString(i) + ") " + r.priceText)
      && BodyLines(rows)[at + 1] == "   " + r.beds + " bed | " + r.baths + " bath | " + r.area + " " + r.areaUnit
      && BodyLines(rows)[at + 2] == "   " + r.link
      && BodyLines(rows)[at + 3] == ""
  {
    BodyLineAt(rows, i, 0);
    BodyLineAt(rows, i, 1);
    BodyLineAt(rows, i, 2);
    BodyLineAt(rows, i, 3);
  }

  /** Line j of row i's four, in the body. */
  lemma BodyLineAt(rows: seq<Listing>, i: nat, j: nat)
    requires 1 <= i <= |rows| && j < 4
    ensures |BodyLines(rows)| == 2 + 4 * |rows|
    ensures BodyLines(rows)[2 + 4 * (i - 1) + j] == RowLines(i, rows[i - 1])[j]
  {
    RowBlocksAt(rows, 1, i - 1, j);
  }

  // ---------------------------------------------------------------------------
  // str.split("\n"), the inverse of the join
  // ---------------------------------------------------------------------------

  /** `s.split("\n")`. */
  function Split(s: string): (parts: seq<string>)
    ensures parts != []
    decreases |s|
  {
    if '\n' !in s then [s]
    else
      var i := FirstIndex(s, '\n');
      [s[..i]] + Split(s[i + 1..])
  }

  /** A line without newline, then a newline, then more: splitting cuts at that newline. */
  lemma SplitAtFirst(a: string, rest: string)
    requires '\n' !in a
    ensures Split(a + "\n" + rest) == [a] + Split(rest)
  {
    var s := a + "\n" + rest;
    assert s[|a|] == '\n';
    assert s[..|a|] == a;
    FirstIndexUnique(s, '\n', |a|);
    assert s[|a| + 1..] == rest;
  }

  /** Splitting the joined lines gives the lines back when none of them contains a newline. */
  lemma {:induction false} SplitJoin(lines: seq<string>)
    requires lines != []
    requires forall k :: 0 <= k < |lines| ==> '\n' !in lines[k]
    ensures Split(Join(lines)) == lines
    decreases |lines|
  {
    if |lines| > 1 {
      SplitJoin(lines[1..]);
      SplitAtFirst(lines[0], Join(lines[1..]));
      assert lines == [lines[0]] + lines[1..];
    }
  }

  /** No line of the body contains a newline when no field of any row does. */
  lemma BodyLinesNoNewline(rows: seq<Listing>, k: nat)
    requires forall i :: 0 <= i < |rows| ==> NoNewlineFields(rows[i])
    requires k < |BodyLines(rows)|
    ensures '\n' !in BodyLines(rows)[k]
  {
    RowBlocksLength(rows, 1);
    if k == 0 {
      NatToStringNoNewline(|rows|);
    } else if k >= 2 {
      var q, j := DivMod4(k - 2);
      RowBlocksAt(rows, 1, q, j);
      RowLinesNoNewline(q + 1, rows[q], j);
      assert BodyLines(rows)[k] == RowBlocks(rows, 1)[k - 2];
    }
  }

  /** n split as 4q + j with j < 4. */
  lemma DivMod4(n: nat) returns (q: nat, j: nat)
    ensures n == 4 * q + j && j < 4
  {
    q, j := n / 4, n % 4;
  }

  /** None of the four lines of a row contains a newline when its fields do not. */
  lemma RowLinesNoNewline(i: nat, r: Listing, j: nat)
    requires NoNewlineFields(r) && j < 4
    ensures '\n' !in RowLines(i, r)[j]
  {
    NatToStringNoNewline(i);
  }

  predicate NoNewlineFields(r: Listing) {
    && '\n' !in r.priceText && '\n' !in r.beds && '\n' !in r.baths && '\n' !in r.area
    && '\n' !in r.areaUnit && '\n' !in r.address && '\n' !in r.link
  }

  lemma NatToStringNoNewline(n: nat)
    ensures '\n' !in NatToString(n)
  {
    var s := NatToString(n);
    assert forall i :: 0 <= i < |s| ==> s[i] != '\n';
  }

  /** Split on newlines, the body of n rows has 2 + 4n lines, unless a field itself holds a newline. */
  lemma BodySplitLength(rows: seq<Listing>)
    requires forall i :: 0 <= i < |rows| ==> NoNewlineFields(rows[i])
    ensures |Split(Join(BodyLines(rows)))| == 2 + 4 * |rows|
  {
    BodyShape(rows);
    forall k | 0 <= k < |BodyLines(rows)| ensures '\n' !in BodyLines(rows)[k] {
      BodyLinesNoNewline(rows, k);
    }
    SplitJoin(BodyLines(rows));
  }
}
