/** `main`: the driver loop. It writes the CSV header, then walks the manga
    ids from 1 up to a ceiling (10 in the script), fetching and parsing the
    page of each id and writing one row per page that parses. An
    `IndexError` skips the id, unless the id is beyond the catalog bound
    (176901), in which case the loop stops; any other error ends the run.
    The web is abstracted to a function from URL to what fetching it gives. */
module Driver {
  import opened Wrappers
  import opened Text
  import opened Extractor

  const HomeUrl := "https://www.mangaupdates.com/series.html?id="

  /** The highest manga id of the catalog, as of 2021. */
  const CatalogBound: nat := 176901

  /** The last id the script scrapes. */
  const Ceiling: nat := 10

  /** The CSV columns, in order. */
  const Fieldnames: seq<string> := [
    "title", "description", "media_type", "status", "authors", "artists", "year",
    "original_publisher", "average", "total_votes", "bay_average", "licensed_english",
    "weekly_position", "monthly_position", "three_month_position", "six_month_position",
    "yearly_position", "percent_ten", "percent_nine_plus", "percent_eight_plus",
    "percent_seven_plus", "percent_six_plus", "percent_five_plus", "percent_four_plus",
    "percent_three_plus", "percent_two_plus", "percent_one_plus"
  ]

  /** The page address of a manga: the home URL followed by `str(id)`. */
  function Url(id: nat): (u: string)
    ensures |u| > |HomeUrl| && u[..|HomeUrl|] == HomeUrl
  {
    HomeUrl + Decimal(id)
  }

  /** Different ids have different addresses. */
  lemma UrlInjective(m: nat, n: nat)
    requires Url(m) == Url(n)
    ensures m == n
  {
    assert Decimal(m) == Url(m)[|HomeUrl|..];
    assert Decimal(n) == Url(n)[|HomeUrl|..];
    DecimalInjective(m, n);
  }

  // ---------------------------------------------------------------------------
  // The dictionary and the writer

  /** The keys of a list of dictionary items, in order. */
  function Keys(entries: seq<(string, string)>): (ks: seq<string>)
    ensures |ks| == |entries|
    ensures forall i :: 0 <= i < |entries| ==> ks[i] == entries[i].0
  {
    seq(|entries|, i requires 0 <= i < |entries| => entries[i].0)
  }

  /** The values of a list of dictionary items, in order. */
  function Values(entries: seq<(string, string)>): (vs: seq<string>)
    ensures |vs| == |entries|
    ensures forall i :: 0 <= i < |entries| ==> vs[i] == entries[i].1
  {
    seq(|entries|, i requires 0 <= i < |entries| => entries[i].1)
  }

  /** No key occurs twice. */
  predicate Distinct(ks: seq<string>) {
    forall i, j :: 0 <= i < j < |ks| ==> ks[i] != ks[j]
  }

  /** The dictionary that assigning the items one after the other builds:
      a later assignment to a key replaces an earlier one. */
  function DictOf(entries: seq<(string, string)>): (d: map<string, string>)
    ensures d.Keys == set i | 0 <= i < |entries| :: entries[i].0
  {
    if entries == [] then map[]
    else DictOf(entries[..|entries| - 1])[entries[|entries| - 1].0 := entries[|entries| - 1].1]
  }

  /** With distinct keys, every item survives. */
  lemma {:induction false} DictOfLookup(entries: seq<(string, string)>, i: nat)
    requires Distinct(Keys(entries)) && i < |entries|
    ensures entries[i].0 in DictOf(entries) && DictOf(entries)[entries[i].0] == entries[i].1
    decreases |entries|
  {
    var init := entries[..|entries| - 1];
    if i < |entries| - 1 {
      assert Keys(entries)[i] != Keys(entries)[|entries| - 1];
      assert Keys(init) == Keys(entries)[..|entries| - 1];
      DictOfLookup(init, i);
    }
  }

  /** What `DictWriter.writerow` does with a dictionary: a key that is not a
      column raises `ValueError`; otherwise the row holds the value of each
      column, or the empty string for a column the dictionary lacks. */
  datatype WriteError = ValueError

  function WriteRow(fieldnames: seq<string>, d: map<string, string>): (r: Result<seq<string>, WriteError>)
    ensures r.Ok? <==> d.Keys <= set f | f in fieldnames
    ensures r.Ok? ==> (|r.value| == |fieldnames|
      && forall i :: 0 <= i < |fieldnames| ==> r.value[i] == (if fieldnames[i] in d then d[fieldnames[i]] else ""))
  {
    if exists k :: k in d && k !in fieldnames then Err(ValueError)
    else Ok(seq(|fieldnames|, i requires 0 <= i < |fieldnames| =>
                if fieldnames[i] in d then d[fieldnames[i]] else ""))
  }

  /** The columns are distinct. */
  lemma FieldnamesDistinct()
    ensures Distinct(Fieldnames)
  {
  }

  /** The keys of a record are the columns, inserted in column order. */
  lemma EntriesKeys(r: Record)
    ensures Keys(Entries(r)) == Fieldnames
  {
  }

  /** The row written for a record: its values, in column order. */
  function Line(r: Record): seq<string> {
    Values(Entries(r))
  }

  /** Writing the dictionary built from items with distinct keys, against
      those keys as columns, writes the values in item order. */
  lemma WriteDistinct(e: seq<(string, string)>)
    requires Distinct(Keys(e))
    ensures WriteRow(Keys(e), DictOf(e)) == Ok(Values(e))
  {
    forall i | 0 <= i < |e|
      ensures e[i].0 in DictOf(e) && DictOf(e)[e[i].0] == e[i].1
    {
      DictOfLookup(e, i);
    }
    assert DictOf(e).Keys <= set f | f in Keys(e) by {
      forall k | k in DictOf(e).Keys
        ensures k in Keys(e)
      {
        var i :| 0 <= i < |e| && e[i].0 == k;
        assert Keys(e)[i] == k;
      }
    }
    var w := WriteRow(Keys(e), DictOf(e));
    assert w.value == Values(e);
  }

  /** Writing a record never raises, and writes its values under their own
      columns. */
  lemma WriteRecord(r: Record)
    ensures WriteRow(Fieldnames, DictOf(Entries(r))) == Ok(Line(r))
  {
    EntriesKeys(r);
    FieldnamesDistinct();
    WriteDistinct(Entries(r));
  }

  // ---------------------------------------------------------------------------
  // One id

  /** What fetching a page gives: the parsed page, or a failure that
      `get_soup` raises (an HTTP error status, a connection failure). */
  datatype Fetched = Page(doc: Document) | TransportError

  /** The outcome of one id: a record, an `IndexError`, or a fatal error. */
  datatype Outcome = Parsed(record: Record) | Missing | Fatal

  /** `parse_soup(get_soup(home_url + str(id)))`. */
  function Attempt(get: string -> Fetched, id: nat): (o: Outcome)
    ensures o.Fatal? <==> get(Url(id)).TransportError?
    ensures o.Parsed? <==> get(Url(id)).Page? && ParseSoup(get(Url(id)).doc).Ok?
    ensures o.Parsed? ==> ParseSoup(get(Url(id)).doc) == Ok(o.record)
  {
    match get(Url(id))
    case TransportError => Fatal
    case Page(doc) =>
      match ParseSoup(doc)
      case Ok(r) => Parsed(r)
      case Err(_) => Missing
  }

  /** The loop goes on past `id`: the page parsed, or the `IndexError` came
      at an id within the catalog. */
  predicate GoesOn(outcome: nat -> Outcome, bound: nat, id: nat) {
    outcome(id).Parsed? || (outcome(id).Missing? && id <= bound)
  }

  /** The records of the ids `lo` to `hi - 1` whose page parsed, by id. */
  function Rows(outcome: nat -> Outcome, lo: nat, hi: nat): (rows: seq<Record>)
    ensures lo <= hi ==> |rows| <= hi - lo
    ensures forall x :: x in rows ==> exists id :: lo <= id < hi && outcome(id) == Parsed(x)
    decreases hi
  {
    if hi <= lo then []
    else Rows(outcome, lo, hi - 1) + (if outcome(hi - 1).Parsed? then [outcome(hi - 1).record] else [])
  }

  /** The ids `lo` to `hi - 1` whose page parsed, in ascending order. */
  function RowIds(outcome: nat -> Outcome, lo: nat, hi: nat): (ids: seq<nat>)
    ensures forall k :: 0 <= k < |ids| ==> lo <= ids[k] < hi && outcome(ids[k]).Parsed?
    ensures forall id :: lo <= id < hi && outcome(id).Parsed? ==> id in ids
    ensures forall k, l :: 0 <= k < l < |ids| ==> ids[k] < ids[l]
    decreases hi
  {
    if hi <= lo then []
    else RowIds(outcome, lo, hi - 1) + (if outcome(hi - 1).Parsed? then [hi - 1] else [])
  }

  /** One row per id whose page parsed, in the order of the ids. */
  lemma {:induction false} RowsByIds(outcome: nat -> Outcome, lo: nat, hi: nat)
    ensures |Rows(outcome, lo, hi)| == |RowIds(outcome, lo, hi)|
    ensures forall k :: 0 <= k < |Rows(outcome, lo, hi)| ==>
      Rows(outcome, lo, hi)[k] == outcome(RowIds(outcome, lo, hi)[k]).record
    decreases hi
  {
    if hi > lo {
      RowsByIds(outcome, lo, hi - 1);
    }
  }

  /** The ids `lo` to `hi - 1` whose page parsed. */
  ghost function ParsedIds(outcome: nat -> Outcome, lo: nat, hi: nat): set<nat> {
    set id: nat | lo <= id < hi && outcome(id).Parsed?
  }

  /** As many rows as ids whose page parsed. */
  lemma {:induction false} RowCount(outcome: nat -> Outcome, lo: nat, hi: nat)
    ensures |Rows(outcome, lo, hi)| == |ParsedIds(outcome, lo, hi)|
    decreases hi
  {
    if hi > lo {
      RowCount(outcome, lo, hi - 1);
      ParsedIdsStep(outcome, lo, hi);
    } else {
      assert ParsedIds(outcome, lo, hi) == {};
    }
  }

  /** Extending the range by one id adds that id when its page parsed. */
  lemma ParsedIdsStep(outcome: nat -> Outcome, lo: nat, hi: nat)
    requires lo < hi
    ensures |ParsedIds(outcome, lo, hi)|
      == |ParsedIds(outcome, lo, hi - 1)| + (if outcome(hi - 1).Parsed? then 1 else 0)
  {
    if outcome(hi - 1).Parsed? {
      assert ParsedIds(outcome, lo, hi) == ParsedIds(outcome, lo, hi - 1) + {hi - 1};
    } else {
      assert ParsedIds(outcome, lo, hi) == ParsedIds(outcome, lo, hi - 1);
    }
  }

  /** `writer.writerow(record)`: the row of one record. */
  method RowOf(record: Record) returns (row: seq<string>)
    ensures row == Line(record)
  {
    var written := WriteRow(Fieldnames, DictOf(Entries(record)));
    WriteRecord(record);
    row := written.value;
  }

  /** The CSV the run writes: the header, then one row per record. */
  function Csv(rows: seq<Record>): (lines: seq<seq<string>>)
    ensures |lines| == |rows| + 1 && lines[0] == Fieldnames
    ensures forall k :: 0 <= k < |rows| ==> lines[k + 1] == Line(rows[k])
  {
    [Fieldnames] + seq(|rows|, k requires 0 <= k < |rows| => Line(rows[k]))
  }

  /** Writing one more row adds its line at the end. */
  lemma CsvAppend(rows: seq<Record>, r: Record)
    ensures Csv(rows + [r]) == Csv(rows) + [Line(r)]
  {
    assert |Csv(rows + [r])| == |Csv(rows) + [Line(r)]|;
    forall k | 0 <= k < |Csv(rows + [r])|
      ensures Csv(rows + [r])[k] == (Csv(rows) + [Line(r)])[k]
    {
      if 0 < k <= |rows| {
        assert (rows + [r])[k - 1] == rows[k - 1];
      }
    }
  }

  // ---------------------------------------------------------------------------
  // The loop

  /** How the run ends: the loop condition fails, the `break` at an id beyond
      the catalog, or a fatal error that propagates out of `main`. */
  datatype Exit = Completed | EndOfCatalog | TransportFailure

  /** The first id from `lo` on, below `hi`, at which the loop does not go
      on, or `hi` when it goes on past all of them. */
  function FirstStop(outcome: nat -> Outcome, bound: nat, lo: nat, hi: nat): (r: nat)
    ensures lo <= hi ==> lo <= r <= hi
    ensures forall id :: lo <= id < r ==> GoesOn(outcome, bound, id)
    ensures lo <= r < hi ==> !GoesOn(outcome, bound, r)
    decreases hi - lo
  {
    if hi <= lo then lo
    else if GoesOn(outcome, bound, lo) then FirstStop(outcome, bound, lo + 1, hi)
    else lo
  }

  /** The ids `lo` to `hi - 1`, in ascending order. */
  function Range(lo: nat, hi: nat): (ids: seq<nat>)
    ensures |ids| == if lo <= hi then hi - lo else 0
    ensures forall k :: 0 <= k < |ids| ==> ids[k] == lo + k
    decreases hi - lo
  {
    if hi <= lo then [] else [lo] + Range(lo + 1, hi)
  }

  /** The loop of `main`, with the outcome of each id, the ceiling and the
      catalog bound as parameters. The run ends at the first id at which the
      loop does not go on, or past the ceiling; what was written is the
      header and the rows of the ids before it whose page parsed, in id
      order; `exit` says why it ended; the ids attempted are 1, 2, ... in
      ascending order, the last one included when the run stopped there. */
  method Scrape(outcome: nat -> Outcome, ceiling: nat, bound: nat)
    returns (written: seq<seq<string>>, mangaId: nat, exit: Exit, ghost attempted: seq<nat>)
    ensures mangaId == FirstStop(outcome, bound, 1, ceiling + 1)
    ensures written == Csv(Rows(outcome, 1, mangaId))
    ensures exit == Completed <==> mangaId == ceiling + 1
    ensures exit == EndOfCatalog <==> mangaId <= ceiling && outcome(mangaId).Missing?
    ensures exit == TransportFailure <==> mangaId <= ceiling && outcome(mangaId).Fatal?
    ensures attempted == Range(1, if exit == Completed then mangaId else mangaId + 1)
  {
    written := [Fieldnames];
    mangaId := 1;
    exit := Completed;
    attempted := [];
    while mangaId <= ceiling
      invariant 1 <= mangaId <= ceiling + 1
      invariant FirstStop(outcome, bound, 1, ceiling + 1) == FirstStop(outcome, bound, mangaId, ceiling + 1)
      invariant written == Csv(Rows(outcome, 1, mangaId))
      invariant attempted == Range(1, mangaId)
      decreases ceiling + 1 - mangaId
    {
      RangeAppend(1, mangaId);
      attempted := attempted + [mangaId];
      match outcome(mangaId)
      case Fatal =>
        exit := TransportFailure;
        return;
      case Parsed(record) =>
        var row := RowOf(record);
        CsvAppend(Rows(outcome, 1, mangaId), record);
        written := written + [row];
        mangaId := mangaId + 1;
      case Missing =>
        if mangaId > bound {
          exit := EndOfCatalog;
          return;
        }
        mangaId := mangaId + 1;
    }
  }

  lemma RangeAppend(lo: nat, hi: nat)
    requires lo <= hi
    ensures Range(lo, hi + 1) == Range(lo, hi) + [hi]
  {
  }

  /** The script's run: ids 1 to 10 against the catalog bound. The `break`
      cannot happen; a run without a fatal error attempts all ten ids, and
      one that meets one stops at the first, having written the rows of the
      ids before it. */
  method ScrapeManga(outcome: nat -> Outcome) returns (written: seq<seq<string>>, mangaId: nat, exit: Exit)
    ensures exit != EndOfCatalog
    ensures 1 <= mangaId <= Ceiling + 1 && written == Csv(Rows(outcome, 1, mangaId))
    ensures forall id :: 1 <= id < mangaId ==> !outcome(id).Fatal?
    ensures exit == Completed <==> mangaId == Ceiling + 1
    ensures exit == TransportFailure <==> mangaId <= Ceiling && outcome(mangaId).Fatal?
  {
    ghost var attempted;
    written, mangaId, exit, attempted := Scrape(outcome, Ceiling, CatalogBound);
    forall id | 1 <= id < mangaId
      ensures !outcome(id).Fatal?
    {
      assert GoesOn(outcome, CatalogBound, id);
    }
  }

  /** The outcome of each id when pages are fetched with `get`. */
  function Outcomes(get: string -> Fetched): (outcome: nat -> Outcome)
    ensures forall id: nat :: outcome(id).Fatal? <==> get(Url(id)).TransportError?
  {
    (id: nat) => Attempt(get, id)
  }

  /** `main` against the web `get`: the pages of the ids before the one the
      run stops at were all fetched, and a run that does not complete stops
      at an id whose fetch failed. */
  method ScrapeSite(get: string -> Fetched) returns (written: seq<seq<string>>, mangaId: nat, exit: Exit)
    ensures exit != EndOfCatalog
    ensures 1 <= mangaId <= Ceiling + 1 && written == Csv(Rows(Outcomes(get), 1, mangaId))
    ensures forall id :: 1 <= id < mangaId ==> get(Url(id)).Page?
    ensures exit == Completed <==> mangaId == Ceiling + 1
    ensures exit == TransportFailure <==> mangaId <= Ceiling && get(Url(mangaId)).TransportError?
  {
    written, mangaId, exit := ScrapeManga(Outcomes(get));
  }

  /** The rows of a run against `get` are the records its pages parse to. */
  lemma OutcomeParsed(get: string -> Fetched, id: nat)
    requires Outcomes(get)(id).Parsed?
    ensures get(Url(id)).Page? && ParseSoup(get(Url(id)).doc) == Ok(Outcomes(get)(id).record)
  {
  }
}
