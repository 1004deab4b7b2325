/**
 * The values behind the baby-names ranking report: the rows of the two
 * tables (one per gender, one row per year), the records scraped from each
 * page and stored for later runs, the grouping of stored records by gender
 * and year, and where each table starts on the spreadsheet.
 */
module BabyTables {
  import opened Wrappers
  import opened PyStr
  import opened Seqs
  import opened BabySettings
  import opened BabyMixins

  // -----------------------------------------------------------------------
  // Table cells, rows and headers
  // -----------------------------------------------------------------------

  /** A table cell: a year or the text 'N/A', or a rank. */
  datatype Cell = Text(text: string) | Rank(rank: int)

  const NotAvailable: Cell := Text("N/A")

  /** What `get_all_row_data` appends for a name-to-rank dictionary: one
      entry per report name, in order. */
  function RowEntries(ranks: map<string, int>, namesInReport: seq<string>): seq<Cell>
    decreases |namesInReport|
  {
    if |namesInReport| == 0 then []
    else
      var name := namesInReport[|namesInReport| - 1];
      RowEntries(ranks, namesInReport[..|namesInReport| - 1]) +
        [if name in ranks then Rank(ranks[name]) else NotAvailable]
  }

  /** One entry per report name: its rank when the name is a key of the
      dictionary, 'N/A' otherwise. */
  lemma {:induction false} RowEntriesSpec(ranks: map<string, int>, namesInReport: seq<string>)
    ensures |RowEntries(ranks, namesInReport)| == |namesInReport|
    ensures forall i :: 0 <= i < |namesInReport| ==>
      RowEntries(ranks, namesInReport)[i] ==
        if namesInReport[i] in ranks then Rank(ranks[namesInReport[i]]) else NotAvailable
    decreases |namesInReport|
  {
    if |namesInReport| > 0 {
      RowEntriesSpec(ranks, namesInReport[..|namesInReport| - 1]);
    }
  }

  /** Only the report names are looked up: dictionaries that agree on them
      give the same entries. */
  lemma {:induction false} RowEntriesReadsReportNames(a: map<string, int>, b: map<string, int>, namesInReport: seq<string>)
    requires forall n :: n in namesInReport ==> (n in a <==> n in b) && (n in a ==> a[n] == b[n])
    ensures RowEntries(a, namesInReport) == RowEntries(b, namesInReport)
    decreases |namesInReport|
  {
    if |namesInReport| > 0 {
      var ns := namesInReport[..|namesInReport| - 1];
      assert forall n :: n in ns ==> n in namesInReport;
      RowEntriesReadsReportNames(a, b, ns);
    }
  }

  const MaleTitle: string := "Male Name Rankings Per Year"
  const FemaleTitle: string := "Female Name Rankings Per Year"

  /** `header_2`. */
  function Header2(namesInReport: seq<string>): seq<string>
  {
    ["Year"] + namesInReport
  }

  /** `header_1`: the title over the year column, blanks over the names. */
  function Header1(title: string, namesInReport: seq<string>): seq<string>
  {
    [title] + seq(|namesInReport|, _ => "")
  }

  /** The two-level column labels, `zip(header_1, header_2)`. */
  function Columns(title: string, namesInReport: seq<string>): seq<(string, string)>
  {
    var h1, h2 := Header1(title, namesInReport), Header2(namesInReport);
    seq(|h2|, i requires 0 <= i < |h2| => (h1[i], h2[i]))
  }

  /** Both header lists have one entry more than there are names; the first
      column is the title over "Year", then one column per name with a blank
      top label. */
  lemma HeadersSpec(title: string, namesInReport: seq<string>)
    ensures |Header1(title, namesInReport)| == |Header2(namesInReport)| == |namesInReport| + 1
    ensures |Columns(title, namesInReport)| == |namesInReport| + 1
    ensures Columns(title, namesInReport)[0] == (title, "Year")
    ensures forall i :: 0 <= i < |namesInReport| ==> Columns(title, namesInReport)[i + 1] == ("", namesInReport[i])
  {
  }

  /** A table: its column labels and its rows, `[year] + entries`. */
  datatype Table = Table(columns: seq<(string, string)>, rows: seq<seq<Cell>>)

  // -----------------------------------------------------------------------
  // Scraping one page
  // -----------------------------------------------------------------------

  /** The gender of a stored record, written 'm' or 'f' in the source. */
  datatype Gender = Male | Female

  /** A stored record, `[gender, year, name, rank]`. */
  datatype Record = Record(gender: Gender, year: string, name: string, rank: int)

  /** The texts of one ranking row: the rank and the two name cells. */
  datatype TableRow = TableRow(rankText: string, maleText: string, femaleText: string)

  /** What a page gives the scraper: the texts of the elements found for
      each header tag, the header row's children (`None` for one that is
      not a tag) and the ranking rows, the header row first. */
  datatype Page = Page(titles: seq<Option<string>>, headerCells: seq<Option<string>>, rows: seq<TableRow>)

  /** The two records a ranking row adds, the male one first. */
  function RowRecords(year: string, row: TableRow, rank: int): seq<Record>
  {
    [Record(Male, year, Strip(row.maleText), rank), Record(Female, year, Strip(row.femaleText), rank)]
  }

  /** The two name-to-rank dictionaries of a page and its records. */
  datatype Scrape = Scrape(male: map<string, int>, female: map<string, int>, records: seq<Record>)

  /** The loop over a page's ranking rows. */
  function ScrapeRows(year: string, rows: seq<TableRow>): Result<Scrape, Error>
    decreases |rows|
  {
    if |rows| == 0 then Success(Scrape(map[], map[], []))
    else match ScrapeRows(year, rows[..|rows| - 1])
      case Failure(e) => Failure(e)
      case Success(s) =>
        var row := rows[|rows| - 1];
        match ParseInt(row.rankText)
        case None => Failure(InvalidRank(row.rankText))
        case Some(rank) =>
          Success(Scrape(s.male[Strip(row.maleText) := rank], s.female[Strip(row.femaleText) := rank],
                         s.records + RowRecords(year, row, rank)))
  }

  /** The ranking rows after the header row: `rows[1:]`. */
  function DataRows(page: Page): seq<TableRow>
  {
    Slice(page.rows, 1, |page.rows|)
  }

  /** One page: the year check, the column check, then the rows. */
  function ScrapePage(year: string, filename: string, page: Page): Result<Scrape, Error>
  {
    match ValidateYear(year, page.titles)
    case Fail(e) => Failure(e)
    case Pass =>
      if ColumnOrder(page.headerCells) != ExpectedColumnOrder then Failure(UnexpectedColumnOrder(filename))
      else ScrapeRows(year, DataRows(page))
  }

  /** The (name, rank) pairs of the records of one gender, in order. */
  function GenderPairs(records: seq<Record>, g: Gender): seq<(string, int)>
    decreases |records|
  {
    if |records| == 0 then []
    else
      var r := records[|records| - 1];
      GenderPairs(records[..|records| - 1], g) + (if r.gender == g then [(r.name, r.rank)] else [])
  }

  /** A page's rows are scraped exactly when every rank text is an
      integer; otherwise the error is the first bad rank. */
  lemma {:induction false} ScrapeRowsSucceeds(year: string, rows: seq<TableRow>)
    ensures ScrapeRows(year, rows).Success? <==>
      forall i :: 0 <= i < |rows| ==> ParseInt(rows[i].rankText).Some?
    ensures ScrapeRows(year, rows).Failure? ==> ScrapeRows(year, rows).error.InvalidRank?
    decreases |rows|
  {
    if |rows| > 0 {
      var n := |rows| - 1;
      ScrapeRowsSucceeds(year, rows[..n]);
      assert forall i :: 0 <= i < n ==> rows[..n][i] == rows[i];
    }
  }

  /** Each row adds its male record and then its female record, with the
      stripped names and the row's rank, in row order. */
  lemma {:induction false} ScrapeRowsRecords(year: string, rows: seq<TableRow>)
    ensures ScrapeRows(year, rows).Success? ==>
      var s := ScrapeRows(year, rows).value;
      && |s.records| == 2 * |rows|
      && forall i :: 0 <= i < |rows| ==>
           ParseInt(rows[i].rankText).Some? &&
           s.records[2 * i..2 * i + 2] == RowRecords(year, rows[i], ParseInt(rows[i].rankText).value)
  {
    if ScrapeRows(year, rows).Success? {
      ScrapeRowsLength(year, rows);
      forall i | 0 <= i < |rows|
        ensures ParseInt(rows[i].rankText).Some? &&
          ScrapeRows(year, rows).value.records[2 * i..2 * i + 2] ==
            RowRecords(year, rows[i], ParseInt(rows[i].rankText).value)
      {
        ScrapeRowsRecordAt(year, rows, i);
      }
    }
  }

  /** Each row read adds two records. */
  lemma {:induction false} ScrapeRowsLength(year: string, rows: seq<TableRow>)
    requires ScrapeRows(year, rows).Success?
    ensures |ScrapeRows(year, rows).value.records| == 2 * |rows|
    decreases |rows|
  {
    if |rows| > 0 {
      ScrapeRowsLength(year, rows[..|rows| - 1]);
    }
  }

  /** The records of row `i` sit at positions `2 * i` and `2 * i + 1`. */
  lemma {:induction false} ScrapeRowsRecordAt(year: string, rows: seq<TableRow>, i: nat)
    requires i < |rows|
    requires ScrapeRows(year, rows).Success?
    ensures ParseInt(rows[i].rankText).Some?
    ensures |ScrapeRows(year, rows).value.records| == 2 * |rows|
    ensures ScrapeRows(year, rows).value.records[2 * i..2 * i + 2] ==
      RowRecords(year, rows[i], ParseInt(rows[i].rankText).value)
  {
    var q := rows[..i + 1];
    ScrapeRowsPrefix(year, rows, i + 1);
    ScrapeRowsStep(year, q);
    assert q[..i] == rows[..i] && q[i] == rows[i];
    ScrapeRowsLength(year, rows);
    ScrapeRowsLength(year, q[..i]);
    var front := ScrapeRows(year, q[..i]).value.records;
    var added := RowRecords(year, rows[i], ParseInt(rows[i].rankText).value);
    PairAfterPrefix(front, added);
    PrefixPair(front + added, ScrapeRows(year, rows).value.records, 2 * i);
  }

  /** Reading fewer rows gives a prefix of the records. */
  lemma {:induction false} ScrapeRowsPrefix(year: string, rows: seq<TableRow>, m: nat)
    requires m <= |rows| && ScrapeRows(year, rows).Success?
    ensures ScrapeRows(year, rows[..m]).Success?
    ensures ScrapeRows(year, rows[..m]).value.records <= ScrapeRows(year, rows).value.records
    decreases |rows|
  {
    if m == |rows| {
      assert rows[..m] == rows;
    } else {
      var n := |rows| - 1;
      ScrapeRowsStep(year, rows);
      ScrapeRowsPrefix(year, rows[..n], m);
      assert rows[..n][..m] == rows[..m];
    }
  }

  /** A pair inside a prefix is the same pair in the whole. */
  lemma PrefixPair(front: seq<Record>, whole: seq<Record>, k: nat)
    requires front <= whole && k + 2 <= |front|
    ensures whole[k..k + 2] == front[k..k + 2]
  {
  }

  /** A successful read of the rows extends the read of all rows but the
      last by the records of the last row. */
  lemma ScrapeRowsStep(year: string, rows: seq<TableRow>)
    requires |rows| > 0 && ScrapeRows(year, rows).Success?
    ensures ScrapeRows(year, rows[..|rows| - 1]).Success?
    ensures ParseInt(rows[|rows| - 1].rankText).Some?
    ensures ScrapeRows(year, rows).value.records ==
      ScrapeRows(year, rows[..|rows| - 1]).value.records +
      RowRecords(year, rows[|rows| - 1], ParseInt(rows[|rows| - 1].rankText).value)
  {
  }

  /** An appended pair sits right after the front part. */
  lemma PairAfterPrefix(front: seq<Record>, back: seq<Record>)
    requires |back| == 2
    ensures (front + back)[|front|..|front| + 2] == back
  {
  }

  /** Once a rank has failed to parse, later rows do not change the failure. */
  lemma {:induction false} ScrapeRowsFailureSticks(year: string, rows: seq<TableRow>, k: nat)
    requires k <= |rows|
    requires ScrapeRows(year, rows[..k]).Failure?
    ensures ScrapeRows(year, rows) == ScrapeRows(year, rows[..k])
    decreases |rows|
  {
    if k < |rows| {
      var rs := rows[..|rows| - 1];
      assert rs[..k] == rows[..k];
      ScrapeRowsFailureSticks(year, rs, k);
    } else {
      assert rows[..k] == rows;
    }
  }

  /** A row's two records add one pair to each gender's pairs. */
  lemma RowRecordsPairs(records: seq<Record>, year: string, row: TableRow, rank: int)
    ensures GenderPairs(records + RowRecords(year, row, rank), Male) ==
      GenderPairs(records, Male) + [(Strip(row.maleText), rank)]
    ensures GenderPairs(records + RowRecords(year, row, rank), Female) ==
      GenderPairs(records, Female) + [(Strip(row.femaleText), rank)]
  {
    var added := RowRecords(year, row, rank);
    var all := records + added;
    assert all[..|records| + 1] == records + [added[0]];
    assert (records + [added[0]])[..|records|] == records;
  }

  /** Each dictionary is what assigning its gender's records in order
      leaves: a later row with the same name overwrites the earlier rank. */
  lemma {:induction false} ScrapeRowsDictionaries(year: string, rows: seq<TableRow>)
    ensures ScrapeRows(year, rows).Success? ==>
      var s := ScrapeRows(year, rows).value;
      s.male == LastWins(GenderPairs(s.records, Male)) && s.female == LastWins(GenderPairs(s.records, Female))
    decreases |rows|
  {
    if |rows| > 0 {
      var n := |rows| - 1;
      ScrapeRowsDictionaries(year, rows[..n]);
      var prev := ScrapeRows(year, rows[..n]);
      if prev.Success? && ParseInt(rows[n].rankText).Some? {
        var p := prev.value;
        var rank := ParseInt(rows[n].rankText).value;
        var added := RowRecords(year, rows[n], rank);
        RowRecordsPairs(p.records, year, rows[n], rank);
        LastWinsSnoc(GenderPairs(p.records, Male), (added[0].name, rank));
        LastWinsSnoc(GenderPairs(p.records, Female), (added[1].name, rank));
      }
    }
  }

  // -----------------------------------------------------------------------
  // Scraping every page
  // -----------------------------------------------------------------------

  /** The rows of both tables and the records of every page read so far. */
  datatype Scraped = Scraped(maleRows: seq<seq<Cell>>, femaleRows: seq<seq<Cell>>, data: seq<Record>)

  /** The outcome of scraping each selected file, with the year from its
      name; `pages` gives a file's parsed page. */
  function PageResults(filenames: seq<string>, years: seq<string>, pages: string -> Page): (r: seq<Result<Scrape, Error>>)
    requires |filenames| == |years|
    ensures |r| == |filenames|
  {
    seq(|filenames|, i requires 0 <= i < |filenames| => ScrapePage(years[i], filenames[i], pages(filenames[i])))
  }

  /** The loop of `dfs_from_html` over the files, given each page's outcome:
      a table row per gender and the page's records, until a page fails. */
  function CollectRows(namesInReport: seq<string>, years: seq<string>, results: seq<Result<Scrape, Error>>)
    : Result<Scraped, Error>
    requires |years| == |results|
    decreases |years|
  {
    if |years| == 0 then Success(Scraped([], [], []))
    else
      var n := |years| - 1;
      match CollectRows(namesInReport, years[..n], results[..n])
      case Failure(e) => Failure(e)
      case Success(acc) =>
        match results[n]
        case Failure(e) => Failure(e)
        case Success(s) =>
          Success(Scraped(acc.maleRows + [[Text(years[n])] + RowEntries(s.male, namesInReport)],
                          acc.femaleRows + [[Text(years[n])] + RowEntries(s.female, namesInReport)],
                          acc.data + s.records))
  }

  /** `dfs_from_html`: the two tables and the records it stores. */
  function HtmlTables(namesInReport: seq<string>, listing: seq<string>, pages: string -> Page)
    : Result<(Table, Table, seq<Record>), Error>
  {
    match FilenameInfo(listing)
    case Failure(e) => Failure(e)
    case Success((filenames, years)) =>
      match CollectRows(namesInReport, years, PageResults(filenames, years, pages))
      case Failure(e) => Failure(e)
      case Success(s) =>
        Success((Table(Columns(MaleTitle, namesInReport), s.maleRows),
                 Table(Columns(FemaleTitle, namesInReport), s.femaleRows),
                 s.data))
  }

  /** The run over the pages succeeds exactly when every page does; otherwise
      it fails with the error of the first page that fails. */
  lemma {:induction false} CollectRowsSucceeds(namesInReport: seq<string>, years: seq<string>, results: seq<Result<Scrape, Error>>)
    requires |years| == |results|
    ensures CollectRows(namesInReport, years, results).Success? <==>
      forall i :: 0 <= i < |results| ==> results[i].Success?
    ensures CollectRows(namesInReport, years, results).Failure? ==>
      exists i :: 0 <= i < |results| && results[i] == Failure(CollectRows(namesInReport, years, results).error) &&
        forall j :: 0 <= j < i ==> results[j].Success?
    decreases |years|
  {
    if |years| > 0 {
      var n := |years| - 1;
      CollectRowsSucceeds(namesInReport, years[..n], results[..n]);
      assert forall i :: 0 <= i < n ==> results[..n][i] == results[i];
    }
  }

  /** Each table has one row per page, in file order: the file's year
      followed by the entries of that page's dictionary for the report
      names; the stored records are the pages' records, in file order. */
  lemma {:induction false} CollectRowsSpec(namesInReport: seq<string>, years: seq<string>, results: seq<Result<Scrape, Error>>)
    requires |years| == |results|
    ensures CollectRows(namesInReport, years, results).Success? ==>
      var s := CollectRows(namesInReport, years, results).value;
      && |s.maleRows| == |years| && |s.femaleRows| == |years|
      && forall i :: 0 <= i < |years| ==>
           && results[i].Success?
           && s.maleRows[i] == [Text(years[i])] + RowEntries(results[i].value.male, namesInReport)
           && s.femaleRows[i] == [Text(years[i])] + RowEntries(results[i].value.female, namesInReport)
    ensures CollectRows(namesInReport, years, results).Success? ==>
      CollectRows(namesInReport, years, results).value.data == RecordsOf(results)
  {
    if CollectRows(namesInReport, years, results).Success? {
      CollectRowsData(namesInReport, years, results);
      CollectRowsLength(namesInReport, years, results);
      var s := CollectRows(namesInReport, years, results).value;
      forall i | 0 <= i < |years|
        ensures && results[i].Success?
                && s.maleRows[i] == [Text(years[i])] + RowEntries(results[i].value.male, namesInReport)
                && s.femaleRows[i] == [Text(years[i])] + RowEntries(results[i].value.female, namesInReport)
      {
        CollectRowsAt(namesInReport, years, results, i);
      }
    }
  }

  /** The stored records are the pages' records, in file order. */
  lemma {:induction false} CollectRowsData(namesInReport: seq<string>, years: seq<string>, results: seq<Result<Scrape, Error>>)
    requires |years| == |results|
    requires CollectRows(namesInReport, years, results).Success?
    ensures CollectRows(namesInReport, years, results).value.data == RecordsOf(results)
    decreases |years|
  {
    if |years| > 0 {
      var n := |years| - 1;
      CollectRowsData(namesInReport, years[..n], results[..n]);
    }
  }

  /** Each table gets one row per page. */
  lemma {:induction false} CollectRowsLength(namesInReport: seq<string>, years: seq<string>, results: seq<Result<Scrape, Error>>)
    requires |years| == |results|
    requires CollectRows(namesInReport, years, results).Success?
    ensures |CollectRows(namesInReport, years, results).value.maleRows| == |years|
    ensures |CollectRows(namesInReport, years, results).value.femaleRows| == |years|
    decreases |years|
  {
    if |years| > 0 {
      var n := |years| - 1;
      CollectRowsLength(namesInReport, years[..n], results[..n]);
    }
  }

  /** Row `i` of each table comes from page `i`. */
  lemma {:induction false} CollectRowsAt(namesInReport: seq<string>, years: seq<string>, results: seq<Result<Scrape, Error>>, i: nat)
    requires |years| == |results| && i < |years|
    requires CollectRows(namesInReport, years, results).Success?
    ensures results[i].Success?
    ensures |CollectRows(namesInReport, years, results).value.maleRows| == |years|
    ensures |CollectRows(namesInReport, years, results).value.femaleRows| == |years|
    ensures CollectRows(namesInReport, years, results).value.maleRows[i] ==
      [Text(years[i])] + RowEntries(results[i].value.male, namesInReport)
    ensures CollectRows(namesInReport, years, results).value.femaleRows[i] ==
      [Text(years[i])] + RowEntries(results[i].value.female, namesInReport)
    decreases |years|
  {
    var n := |years| - 1;
    CollectRowsLength(namesInReport, years, results);
    CollectRowsLength(namesInReport, years[..n], results[..n]);
    if i < n {
      CollectRowsAt(namesInReport, years[..n], results[..n], i);
      assert results[..n][i] == results[i] && years[..n][i] == years[i];
    }
  }

  /** Once a page has failed, later pages do not change the failure. */
  lemma {:induction false} CollectRowsFailureSticks(namesInReport: seq<string>, years: seq<string>, results: seq<Result<Scrape, Error>>, k: nat)
    requires |years| == |results| && k <= |years|
    requires CollectRows(namesInReport, years[..k], results[..k]).Failure?
    ensures CollectRows(namesInReport, years, results) == CollectRows(namesInReport, years[..k], results[..k])
    decreases |years|
  {
    if k < |years| {
      var n := |years| - 1;
      assert years[..n][..k] == years[..k] && results[..n][..k] == results[..k];
      CollectRowsFailureSticks(namesInReport, years[..n], results[..n], k);
    } else {
      assert years[..k] == years && results[..k] == results;
    }
  }

  /** The records of successful pages, in order. */
  function RecordsOf(results: seq<Result<Scrape, Error>>): seq<Record>
    decreases |results|
  {
    if |results| == 0 then []
    else
      var n := |results| - 1;
      RecordsOf(results[..n]) + (match results[n] case Success(s) => s.records case Failure(_) => [])
  }

  // -----------------------------------------------------------------------
  // Grouping stored records
  // -----------------------------------------------------------------------

  /** The query `name in names_in_report` on the stored records. */
  function Query(records: seq<Record>, namesInReport: seq<string>): seq<Record>
  {
    Filter(records, (r: Record) => r.name in namesInReport)
  }

  /** One gender's part of `nested_data`: the years in the order they were
      first added, and each year's name-to-rank dictionary. */
  datatype YearGroups = YearGroups(years: seq<string>, ranks: map<string, map<string, int>>)

  /** `nested_data[gender][year][name] = rank`, or a new year dictionary
      when the year is not there yet (the `KeyError` branch). */
  function Insert(groups: YearGroups, year: string, name: string, rank: int): YearGroups
  {
    if year in groups.ranks then YearGroups(groups.years, groups.ranks[year := groups.ranks[year][name := rank]])
    else YearGroups(groups.years + [year], groups.ranks[year := map[name := rank]])
  }

  /** One gender's part of `nested_data` after the loop over the records. */
  function Group(records: seq<Record>, g: Gender): YearGroups
    decreases |records|
  {
    if |records| == 0 then YearGroups([], map[])
    else
      var r := records[|records| - 1];
      var groups := Group(records[..|records| - 1], g);
      if r.gender == g then Insert(groups, r.year, r.name, r.rank) else groups
  }

  /** The years of one gender's records, in order, with repeats. */
  function YearsOf(records: seq<Record>, g: Gender): seq<string>
    decreases |records|
  {
    if |records| == 0 then []
    else
      var r := records[|records| - 1];
      YearsOf(records[..|records| - 1], g) + (if r.gender == g then [r.year] else [])
  }

  /** The (name, rank) pairs of one gender's records for one year, in order. */
  function PairsFor(records: seq<Record>, g: Gender, year: string): seq<(string, int)>
    decreases |records|
  {
    if |records| == 0 then []
    else
      var r := records[|records| - 1];
      PairsFor(records[..|records| - 1], g, year) + (if r.gender == g && r.year == year then [(r.name, r.rank)] else [])
  }

  /** The first occurrence of each element, in order. */
  function Dedup(s: seq<string>): seq<string>
    decreases |s|
  {
    if |s| == 0 then []
    else
      var init := s[..|s| - 1];
      Dedup(init) + (if s[|s| - 1] in init then [] else [s[|s| - 1]])
  }

  /** `Dedup` keeps every element once and drops nothing else. */
  lemma {:induction false} DedupSpec(s: seq<string>)
    ensures forall x :: x in Dedup(s) <==> x in s
    ensures forall i, j :: 0 <= i < j < |Dedup(s)| ==> Dedup(s)[i] != Dedup(s)[j]
    decreases |s|
  {
    if |s| > 0 {
      var init := s[..|s| - 1];
      DedupSpec(init);
      assert s == init + [s[|s| - 1]];
    }
  }

  /** A year without records of a gender has no pairs for it. */
  lemma {:induction false} PairsForAbsentYear(records: seq<Record>, g: Gender, year: string)
    requires year !in YearsOf(records, g)
    ensures PairsFor(records, g, year) == []
    decreases |records|
  {
    if |records| > 0 {
      PairsForAbsentYear(records[..|records| - 1], g, year);
    }
  }

  /** Grouping has a dictionary for exactly the years of the gender's records. */
  lemma {:induction false} GroupKeys(records: seq<Record>, g: Gender)
    ensures forall y :: y in Group(records, g).ranks <==> y in YearsOf(records, g)
    decreases |records|
  {
    if |records| > 0 {
      GroupKeys(records[..|records| - 1], g);
    }
  }

  /** Grouping lists each year of the gender's records once, in the order
      the years first appear. */
  lemma {:induction false} GroupYears(records: seq<Record>, g: Gender)
    ensures Group(records, g).years == Dedup(YearsOf(records, g))
    decreases |records|
  {
    if |records| > 0 {
      var n := |records| - 1;
      var init := records[..n];
      var r := records[n];
      GroupYears(init, g);
      GroupKeys(init, g);
      if r.gender == g {
        var ys := YearsOf(init, g);
        assert YearsOf(records, g) == ys + [r.year];
        assert (ys + [r.year])[..|ys|] == ys;
        assert Dedup(ys + [r.year]) == Dedup(ys) + (if r.year in ys then [] else [r.year]);
        assert (r.year in Group(init, g).ranks) == (r.year in ys);
      } else {
        assert YearsOf(records, g) == YearsOf(init, g) + [];
        assert YearsOf(init, g) + [] == YearsOf(init, g);
        assert Group(records, g) == Group(init, g);
      }
    }
  }

  /** Each year's dictionary is what assigning that year's records in order
      leaves: a later record with the same name overwrites the earlier rank. */
  lemma {:induction false} GroupRanks(records: seq<Record>, g: Gender)
    ensures forall y :: y in Group(records, g).ranks ==>
      Group(records, g).ranks[y] == LastWins(PairsFor(records, g, y))
    decreases |records|
  {
    if |records| > 0 {
      var n := |records| - 1;
      var init := records[..n];
      var r := records[n];
      GroupRanks(init, g);
      GroupKeys(init, g);
      var groups := Group(records, g);
      forall y | y in groups.ranks ensures groups.ranks[y] == LastWins(PairsFor(records, g, y)) {
        if r.gender == g && y == r.year {
          if r.year !in YearsOf(init, g) {
            PairsForAbsentYear(init, g, r.year);
          }
          LastWinsSnoc(PairsFor(init, g, r.year), (r.name, r.rank));
        } else {
          assert PairsFor(records, g, y) == PairsFor(init, g, y);
        }
      }
    }
  }

  /** The rows `dfs_from_pkl` appends for one gender: one per year, the year
      followed by the entries of that year's dictionary. */
  function GroupRows(groups: YearGroups, namesInReport: seq<string>): seq<seq<Cell>>
    decreases |groups.years|
  {
    if |groups.years| == 0 then []
    else
      var n := |groups.years| - 1;
      var year := groups.years[n];
      GroupRows(YearGroups(groups.years[..n], groups.ranks), namesInReport) +
        [[Text(year)] + RowEntries(if year in groups.ranks then groups.ranks[year] else map[], namesInReport)]
  }

  /** `dfs_from_pkl`: the two tables built from the stored records. */
  function PklTables(namesInReport: seq<string>, records: seq<Record>): (Table, Table)
  {
    var found := Query(records, namesInReport);
    (Table(Columns(MaleTitle, namesInReport), GroupRows(Group(found, Male), namesInReport)),
     Table(Columns(FemaleTitle, namesInReport), GroupRows(Group(found, Female), namesInReport)))
  }

  lemma {:induction false} GroupRowsSpec(groups: YearGroups, namesInReport: seq<string>)
    ensures |GroupRows(groups, namesInReport)| == |groups.years|
    ensures forall i :: 0 <= i < |groups.years| ==>
      var year := groups.years[i];
      GroupRows(groups, namesInReport)[i] ==
        [Text(year)] + RowEntries(if year in groups.ranks then groups.ranks[year] else map[], namesInReport)
    decreases |groups.years|
  {
    if |groups.years| > 0 {
      var n := |groups.years| - 1;
      GroupRowsSpec(YearGroups(groups.years[..n], groups.ranks), namesInReport);
    }
  }

  /** A table built from stored records has exactly one row per year that has
      a record of a report name for its gender, in the order those years first
      appear, and no year twice; the row holds, for each report name, the rank
      of the last such record of that year. */
  lemma PklTableRows(namesInReport: seq<string>, records: seq<Record>, g: Gender)
    ensures var found := Query(records, namesInReport);
      var rows := GroupRows(Group(found, g), namesInReport);
      var years := Dedup(YearsOf(found, g));
      && |rows| == |years|
      && (forall i, j :: 0 <= i < j < |years| ==> years[i] != years[j])
      && (forall y :: y in years <==> y in YearsOf(found, g))
      && forall i :: 0 <= i < |years| ==>
           rows[i] == [Text(years[i])] + RowEntries(LastWins(PairsFor(found, g, years[i])), namesInReport)
  {
    var found := Query(records, namesInReport);
    GroupKeys(found, g);
    GroupYears(found, g);
    GroupRanks(found, g);
    GroupRowsSpec(Group(found, g), namesInReport);
    DedupSpec(YearsOf(found, g));
  }

  // -----------------------------------------------------------------------
  // Placing the tables on the sheet
  // -----------------------------------------------------------------------

  /** The number of rows of each table (`len(df.index)`). */
  function RowCounts(tables: seq<Table>): seq<nat>
  {
    seq(|tables|, i requires 0 <= i < |tables| => |tables[i].rows|)
  }

  /** Where table `i` starts: after the rows of the tables before it and two
      rows of gap after each of them. */
  function StartRow(tables: seq<Table>, i: nat): nat
    requires i <= |tables|
  {
    Sum(RowCounts(tables)[..i]) + 2 * i
  }

  /** The first table starts at row 0, each later one `len(previous) + 2`
      rows after the previous one. */
  lemma StartRowSteps(tables: seq<Table>, i: nat)
    requires i < |tables|
    ensures StartRow(tables, 0) == 0
    ensures StartRow(tables, i + 1) == StartRow(tables, i) + |tables[i].rows| + 2
  {
    assert RowCounts(tables)[..i + 1][..i] == RowCounts(tables)[..i];
  }

  /** Two tables go at row 0 and two rows below the first one's last row. */
  lemma TwoTablesPlaced(dataframes: seq<Table>, placed: seq<(nat, Table)>)
    requires |dataframes| == 2 && |placed| == 2
    requires forall i :: 0 <= i < 2 ==> placed[i] == (StartRow(dataframes, i), dataframes[i])
    ensures placed == [(0, dataframes[0]), (|dataframes[0].rows| + 2, dataframes[1])]
  {
    StartRowSteps(dataframes, 0);
  }
}
