/**
 * The first-run / delta selection of the scraper's main block (z_scrapper.py:400-412)
 * and the seen set it saves afterwards (z_scrapper.py:436). The seen set loaded
 * from disk and the scraped rows are parameters; the file I/O is not modelled.
 */
module Delta {

  import opened Text
  import opened Seqs
  import opened Records
  import opened Notifier

  /** `today_links`: the non-empty links of the scraped rows. */
  function TodayLinks(rows: seq<Listing>): (links: set<string>)
    ensures forall u :: u in links <==> u != "" && exists i :: 0 <= i < |rows| && rows[i].link == u
  {
    var links := set i | 0 <= i < |rows| && rows[i].link != "" :: rows[i].link;
    links
  }

  /** `new_links = today_links - seen`. */
  function NewLinks(rows: seq<Listing>, seen: set<string>): set<string> {
    TodayLinks(rows) - seen
  }

  /** `[r for r in rows if r.get("link") in links]`, in order. */
  function RowsWithLinkIn(rows: seq<Listing>, links: set<string>): seq<Listing>
    decreases |rows|
  {
    if rows == [] then []
    else
      var init, r := rows[..|rows| - 1], rows[|rows| - 1];
      RowsWithLinkIn(init, links) + if r.link in links then [r] else []
  }

  /** `rows_to_email`: every row on the first run (nothing seen yet), otherwise the rows with a new link. */
  function RowsToEmail(rows: seq<Listing>, seen: set<string>): seq<Listing> {
    if seen == {} then rows else RowsWithLinkIn(rows, NewLinks(rows, seen))
  }

  /** The set saved for the next run: `seen.union(today_links)`. */
  function SavedSeen(rows: seq<Listing>, seen: set<string>): set<string> {
    seen + TodayLinks(rows)
  }

  lemma {:induction false} RowsWithLinkInMembers(rows: seq<Listing>, links: set<string>)
    ensures forall r :: r in RowsWithLinkIn(rows, links) <==> r in rows && r.link in links
    decreases |rows|
  {
    if rows != [] {
      var init, last := rows[..|rows| - 1], rows[|rows| - 1];
      RowsWithLinkInMembers(init, links);
      assert rows == init + [last];
    }
  }

  lemma {:induction false} RowsWithLinkInSubsequence(rows: seq<Listing>, links: set<string>)
    ensures IsSubsequence(RowsWithLinkIn(rows, links), rows)
    decreases |rows|
  {
    if rows != [] {
      var init, last := rows[..|rows| - 1], rows[|rows| - 1];
      var prev := RowsWithLinkIn(init, links);
      assert init + [last] == rows;
      RowsWithLinkInSubsequence(init, links);
      SubsequenceExtend(prev, init, last);
      if last.link in links {
        assert RowsWithLinkIn(rows, links) == prev + [last];
      } else {
        assert RowsWithLinkIn(rows, links) == prev + [];
        assert prev + [] == prev;
      }
    }
  }

  /** On the first run every scraped row is e-mailed. */
  lemma FirstRunSendsAll(rows: seq<Listing>)
    ensures RowsToEmail(rows, {}) == rows
  {
  }

  /**
   * On later runs a row is e-mailed exactly when it is a scraped row whose link is
   * non-empty and not yet seen, and the e-mailed rows keep the scraped order.
   */
  lemma LaterRunSendsNew(rows: seq<Listing>, seen: set<string>)
    requires seen != {}
    ensures forall r :: r in RowsToEmail(rows, seen) <==> r in rows && r.link != "" && r.link !in seen
    ensures IsSubsequence(RowsToEmail(rows, seen), rows)
  {
    var links := NewLinks(rows, seen);
    RowsWithLinkInMembers(rows, links);
    RowsWithLinkInSubsequence(rows, links);
    forall r | r in rows ensures r.link in links <==> r.link != "" && r.link !in seen {
      var i :| 0 <= i < |rows| && rows[i] == r;
      assert rows[i].link == r.link;
    }
  }

  /** The saved set keeps everything seen before and adds every link scraped today. */
  lemma SavedSeenGrows(rows: seq<Listing>, seen: set<string>)
    ensures seen <= SavedSeen(rows, seen)
    ensures forall i :: 0 <= i < |rows| && rows[i].link != "" ==> rows[i].link in SavedSeen(rows, seen)
    ensures forall u :: u in SavedSeen(rows, seen) - seen ==> u != ""
    ensures forall u :: u in SavedSeen(rows, seen) <==>
      u in seen || (u != "" && exists i :: 0 <= i < |rows| && rows[i].link == u)
  {
  }

  /** Running again on the same rows with the saved set e-mails nothing: no listing is reported twice. */
  lemma NoRenotification(rows: seq<Listing>, seen: set<string>)
    requires SavedSeen(rows, seen) != {}
    ensures RowsToEmail(rows, SavedSeen(rows, seen)) == []
  {
    var saved := SavedSeen(rows, seen);
    LaterRunSendsNew(rows, saved);
    forall r | r in rows ensures r.link == "" || r.link in saved {
      var i :| 0 <= i < |rows| && rows[i] == r;
      assert rows[i].link == r.link;
    }
    var out := RowsToEmail(rows, saved);
    // no row is a member of out, so out has no positions
    assert forall k :: 0 <= k < |out| ==> out[k] !in out;
  }

  /** The filter of a prefix of rows by the new links of all rows is the filter by its own new links. */
  lemma {:induction false} AgreesWithPickNewPrefix(init: seq<Listing>, rows: seq<Listing>, seen: set<string>)
    requires |init| <= |rows| && init == rows[..|init|]
    requires forall i :: 0 <= i < |rows| ==> Trimmed(rows[i].link)
    ensures RowsWithLinkIn(init, NewLinks(rows, seen)) == NewRows(init, seen)
    decreases |init|
  {
    if init != [] {
      var pre, last := init[..|init| - 1], init[|init| - 1];
      assert pre == rows[..|pre|];
      AgreesWithPickNewPrefix(pre, rows, seen);
      assert last == rows[|init| - 1];
      TrimmedStrip(last.link);
      assert last.link != "" ==> last.link in TodayLinks(rows) by {
        assert rows[|init| - 1].link == last.link;
      }
    }
  }

  /** The selection as a whole: on later runs, with trimmed links, it is exactly `pick_new`. */
  lemma RowsToEmailIsPickNew(rows: seq<Listing>, seen: set<string>)
    requires seen != {}
    requires forall i :: 0 <= i < |rows| ==> Trimmed(rows[i].link)
    ensures RowsToEmail(rows, seen) == NewRows(rows, seen)
  {
    AgreesWithPickNewPrefix(rows, rows, seen);
    assert rows[..|rows|] == rows;
  }
}
