/**
 * The listing half of the portal client (`get_lowongan` in
 * scraper_requests.py): turning the listing page's first table into entries.
 * HTML parsing and HTTP are abstracted: a page is the list of its tables, a
 * table the list of its `<tr>` rows, a row the list of its `<td>` cells.
 */
module Scraper {
  import opened Wrappers
  import opened Text

  const BaseUrl := "https://siasisten.cs.ui.ac.id"

  /** Sentinel link of a posting whose "Daftar" cell holds no anchor with an href. */
  const NoLink := "Link not available"

  /** A data row needs this many cells; shorter rows are skipped. */
  const MinCells := 9
  const TitleColumn := 1
  const LinkColumn := 8

  /**
   * One `<td>`: its text as `get_text(separator="\n")` yields it, and the
   * href of its first anchor that has one.
   */
  datatype Cell = Cell(text: string, href: Option<string>)

  type Row = seq<Cell>
  type Table = seq<Row>

  /** One posting ("lowongan"): the `{title, daftar_link}` record. */
  datatype Entry = Entry(title: string, daftarLink: string)

  /** The entry a wide-enough row describes. */
  function EntryOfRow(row: Row): (e: Entry)
    requires |row| >= MinCells
    ensures e.title == Strip(row[TitleColumn].text)
    ensures Trimmed(e.title)
    ensures row[LinkColumn].href.Some? ==>
              |e.daftarLink| >= |BaseUrl|
              && e.daftarLink[..|BaseUrl|] == BaseUrl
              && e.daftarLink[|BaseUrl|..] == row[LinkColumn].href.value
    ensures row[LinkColumn].href.None? ==> e.daftarLink == NoLink
  {
    var title := Strip(row[TitleColumn].text);
    var link := match row[LinkColumn].href
      case Some(h) => BaseUrl + h
      case None => NoLink;
    Entry(title, link)
  }

  /** A title is already stripped: stripping it again changes nothing. */
  lemma TitleIsStripped(row: Row)
    requires |row| >= MinCells
    ensures Strip(EntryOfRow(row).title) == EntryOfRow(row).title
  {
    StripIdempotent(row[TitleColumn].text);
  }

  /** The number of rows among `rows[lo..hi]` that have at least `MinCells` cells. */
  function WideRowsIn(rows: seq<Row>, lo: nat, hi: nat): nat
    requires hi <= |rows|
    decreases hi
  {
    if hi <= lo then 0
    else WideRowsIn(rows, lo, hi - 1) + (if |rows[hi - 1]| >= MinCells then 1 else 0)
  }

  lemma WideRowsInStep(rows: seq<Row>, lo: nat, hi: nat)
    requires lo <= hi < |rows|
    ensures WideRowsIn(rows, lo, hi + 1) == WideRowsIn(rows, lo, hi) + (if |rows[hi]| >= MinCells then 1 else 0)
  {
  }

  /** The number of rows after the header that have at least `MinCells` cells. */
  function WideDataRows(rows: seq<Row>): nat
  {
    WideRowsIn(rows, 1, |rows|)
  }

  /**
   * `picked` lists, in increasing order, exactly the indices below `bound`
   * of the rows after the header (index 0) that have at least `MinCells` cells.
   */
  ghost predicate PicksBelow(rows: seq<Row>, picked: seq<nat>, bound: nat)
    requires bound <= |rows|
  {
    && (forall k :: 0 <= k < |picked| ==> 1 <= picked[k] < bound && |rows[picked[k]]| >= MinCells)
    && (forall k, l :: 0 <= k < l < |picked| ==> picked[k] < picked[l])
    && (forall i :: 1 <= i < bound && |rows[i]| >= MinCells ==> i in picked)
  }

  /** `picked` lists, in increasing order, the wide rows after the header. */
  ghost predicate Picks(rows: seq<Row>, picked: seq<nat>)
  {
    PicksBelow(rows, picked, |rows|)
  }

  /** Looking at one more row keeps `PicksBelow`, whether or not the row is picked. */
  lemma PicksBelowStep(rows: seq<Row>, picked: seq<nat>, i: nat)
    requires 1 <= i < |rows|
    requires PicksBelow(rows, picked, i)
    ensures |rows[i]| >= MinCells ==> PicksBelow(rows, picked + [i], i + 1)
    ensures |rows[i]| < MinCells ==> PicksBelow(rows, picked, i + 1)
  {
    if |rows[i]| >= MinCells {
      var p := picked + [i];
      forall j | 1 <= j < i + 1 && |rows[j]| >= MinCells ensures j in p {
        if j < i { assert j in picked; } else { assert p[|picked|] == j; }
      }
    }
  }

  /** `entries` holds, in order, the entry of each row `picked` names. */
  ghost predicate EntriesOf(rows: seq<Row>, picked: seq<nat>, entries: seq<Entry>)
  {
    && |entries| == |picked|
    && (forall k :: 0 <= k < |entries| ==>
          picked[k] < |rows| && |rows[picked[k]]| >= MinCells && entries[k] == EntryOfRow(rows[picked[k]]))
  }

  lemma EntriesOfStep(rows: seq<Row>, picked: seq<nat>, entries: seq<Entry>, i: nat)
    requires EntriesOf(rows, picked, entries)
    requires i < |rows| && |rows[i]| >= MinCells
    ensures EntriesOf(rows, picked + [i], entries + [EntryOfRow(rows[i])])
  {
    var p, es := picked + [i], entries + [EntryOfRow(rows[i])];
    forall k | 0 <= k < |es|
      ensures p[k] < |rows| && |rows[p[k]]| >= MinCells && es[k] == EntryOfRow(rows[p[k]])
    {
      if k < |entries| {
        assert p[k] == picked[k] && es[k] == entries[k];
      }
    }
  }

  /** `entries` holds, in row order, the entry of every wide row after the header; `picked` names their rows. */
  ghost predicate Extracted(rows: seq<Row>, entries: seq<Entry>, picked: seq<nat>)
  {
    Picks(rows, picked) && EntriesOf(rows, picked, entries)
  }

  /**
   * The row loop of `get_lowongan`: skip the header, skip rows that are too
   * short, and turn every other row into an entry. The ghost `picked` names
   * the row each entry came from.
   */
  method ExtractRows(rows: seq<Row>) returns (entries: seq<Entry>, ghost picked: seq<nat>)
    ensures Extracted(rows, entries, picked)
    ensures |entries| == WideDataRows(rows)
    ensures |rows| <= 1 ==> entries == []
  {
    entries, picked := [], [];
    if |rows| <= 1 {
      return;
    }
    var i := 1;
    while i < |rows|
      invariant 1 <= i <= |rows|
      invariant |picked| == WideRowsIn(rows, 1, i)
      invariant PicksBelow(rows, picked, i)
      invariant EntriesOf(rows, picked, entries)
    {
      PicksBelowStep(rows, picked, i);
      WideRowsInStep(rows, 1, i);
      var cells := rows[i];
      if |cells| >= MinCells {
        EntriesOfStep(rows, picked, entries, i);
        entries := entries + [EntryOfRow(cells)];
        picked := picked + [i];
      }
      i := i + 1;
    }
  }

  /**
   * `get_lowongan` past the HTTP request: `page` is None when the request or
   * the parse raised, otherwise the page's tables. Only the first table is read.
   */
  method GetLowongan(page: Option<seq<Table>>) returns (entries: seq<Entry>)
    ensures page.None? ==> entries == []
    ensures page == Some([]) ==> entries == []
    ensures page.Some? && page.value != [] ==>
              |entries| == WideDataRows(page.value[0])
              && exists picked :: Extracted(page.value[0], entries, picked)
  {
    if page.None? || page.value == [] {
      return [];
    }
    var table := page.value[0];
    ghost var picked;
    entries, picked := ExtractRows(table);
  }
}
