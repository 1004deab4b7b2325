/**
 * The baby-names ranking report `Script`: for a few names, one table per
 * gender with a row per year holding each name's rank, built either by
 * scraping the `baby<year>.html` pages (and storing the scraped records) or
 * from records stored by an earlier run, then placed one under the other on
 * a spreadsheet.
 */
module BabyQuestion2 {
  import opened Wrappers
  import opened PyStr
  import opened BabyMixins
  import opened BabyTables

  /** The constructor's check: a configured report file name must end in ".xlsx". */
  function CheckExcelFilename(excelFilename: string): (r: Outcome<Error>)
    ensures excelFilename == "" ==> r.Pass?
    ensures r.Fail? ==> r.error == InvalidExcelFilename(excelFilename) && !EndsWith(excelFilename, ".xlsx")
  {
    SuffixSliceTest(excelFilename, ".xlsx");
    if excelFilename != "" && Slice(excelFilename, -5, |excelFilename|) != ".xlsx" then
      Fail(InvalidExcelFilename(excelFilename))
    else Pass
  }

  /** The file name is accepted exactly when it is empty or ends in ".xlsx". */
  lemma ExcelFilenameAccepted(excelFilename: string)
    ensures CheckExcelFilename(excelFilename).Pass? <==> excelFilename == "" || EndsWith(excelFilename, ".xlsx")
    ensures CheckExcelFilename(excelFilename).Fail? ==>
      CheckExcelFilename(excelFilename).error == InvalidExcelFilename(excelFilename)
  {
    SuffixSliceTest(excelFilename, ".xlsx");
  }

  /** `get_pkl_filename`: the script's base name with ".py" replaced. */
  function PklFilename(basename: string): string
  {
    ReplaceAll(basename, ".py", "_data.pkl")
  }

  /** A script `<stem>.py` stores its records in `<stem>_data.pkl`. */
  lemma PklFilenameSpec(stem: string)
    requires !IsInfix(".py", stem)
    ensures PklFilename(stem + ".py") == stem + "_data.pkl"
  {
    ReplaceExtension(stem, "_data.pkl");
  }

  /** A Python list passed by reference. */
  class RowBuffer {
    var items: seq<Cell>

    constructor (items: seq<Cell>)
      ensures this.items == items
    {
      this.items := items;
    }
  }

  /** What `save_to_excel` writes: the path, the sheet and each table with
      the row it starts at. */
  datatype Workbook = Workbook(path: string, sheetname: string, placed: seq<(nat, Table)>)

  /** The outcome of `execute_report`: the two tables, the records stored
      when the pages were scraped, and the workbook when one is generated. */
  datatype Run = Run(male: Table, female: Table, stored: Option<seq<Record>>, workbook: Option<Workbook>)

  /** `Script(...)`: the constructor's check, then the new script.
      `sharedRowData` is the list Python creates once, when `get_all_row_data`
      is defined, for its default `new_row_data`; every script is given that
      same list. */
  method NewScript(namesInReport: seq<string>, excelFilename: string, excelSheetname: string, generateExcel: bool,
                   sharedRowData: RowBuffer)
    returns (r: Result<Script, Error>)
    ensures r.Success? <==> CheckExcelFilename(excelFilename).Pass?
    ensures r.Failure? ==> r.error == InvalidExcelFilename(excelFilename)
    ensures r.Success? ==>
      && fresh(r.value) && r.value.defaultRowData == sharedRowData
      && r.value.namesInReport == namesInReport && r.value.excelFilename == excelFilename
      && r.value.excelSheetname == excelSheetname && r.value.generateExcel == generateExcel
  {
    var check := CheckExcelFilename(excelFilename);
    if check.Fail? {
      return Failure(check.error);
    }
    var script := new Script(namesInReport, excelFilename, excelSheetname, generateExcel, sharedRowData);
    return Success(script);
  }

  class Script {
    const namesInReport: seq<string>
    const excelFilename: string
    const excelSheetname: string
    const generateExcel: bool
    /** The one list Python creates for the default `new_row_data` of
        `get_all_row_data`, shared by every script; every call that omits
        the argument, on any script, extends it. */
    const defaultRowData: RowBuffer

    constructor (namesInReport: seq<string>, excelFilename: string, excelSheetname: string, generateExcel: bool,
                 sharedRowData: RowBuffer)
      requires CheckExcelFilename(excelFilename).Pass?
      ensures this.namesInReport == namesInReport && this.excelFilename == excelFilename
      ensures this.excelSheetname == excelSheetname && this.generateExcel == generateExcel
      ensures defaultRowData == sharedRowData
    {
      this.namesInReport := namesInReport;
      this.excelFilename := excelFilename;
      this.excelSheetname := excelSheetname;
      this.generateExcel := generateExcel;
      this.defaultRowData := sharedRowData;
    }

    /** `get_all_row_data`: extends the given list in place, one entry per
        report name, and returns that same list. */
    method GetAllRowData(names: map<string, int>, newRowData: RowBuffer) returns (r: RowBuffer)
      modifies newRowData
      ensures r == newRowData
      ensures newRowData.items == old(newRowData.items) + RowEntries(names, namesInReport)
    {
      for i := 0 to |namesInReport|
        invariant newRowData.items == old(newRowData.items) + RowEntries(names, namesInReport[..i])
      {
        var name := namesInReport[i];
        var rank := if name in names then Rank(names[name]) else NotAvailable;
        assert namesInReport[..i + 1][..i] == namesInReport[..i];
        newRowData.items := newRowData.items + [rank];
      }
      assert namesInReport[..|namesInReport|] == namesInReport;
      r := newRowData;
    }

    /** `get_all_row_data(names)` without a list: the entries go to the
        default list, which keeps those of every earlier such call. */
    method GetAllRowDataDefault(names: map<string, int>) returns (r: RowBuffer)
      modifies defaultRowData
      ensures r == defaultRowData
      ensures defaultRowData.items == old(defaultRowData.items) + RowEntries(names, namesInReport)
    {
      r := GetAllRowData(names, defaultRowData);
    }

    /** `get_empty_dataframes`: the two tables with their headers and no rows. */
    function GetEmptyDataframes(): (r: (Table, Table))
      ensures r.0.rows == [] && r.1.rows == []
      ensures |r.0.columns| == |r.1.columns| == |namesInReport| + 1
      ensures r.0.columns[0] == (MaleTitle, "Year") && r.1.columns[0] == (FemaleTitle, "Year")
      ensures forall i :: 0 <= i < |namesInReport| ==>
        r.0.columns[i + 1] == r.1.columns[i + 1] == ("", namesInReport[i])
    {
      HeadersSpec(MaleTitle, namesInReport);
      HeadersSpec(FemaleTitle, namesInReport);
      (Table(Columns(MaleTitle, namesInReport), []), Table(Columns(FemaleTitle, namesInReport), []))
    }

    /** One page of `dfs_from_html`: the year check, the table check and the
        loop over the ranking rows after the header row. */
    method ReadPage(year: string, filename: string, page: Page) returns (r: Result<Scrape, Error>)
      ensures r == ScrapePage(year, filename, page)
    {
      var yearCheck := ValidatePageYear(year, page.titles);
      if yearCheck.Fail? {
        return Failure(yearCheck.error);
      }
      var columnCheck := ValidateTableColumns(page.headerCells, filename);
      if columnCheck.Fail? {
        return Failure(columnCheck.error);
      }
      var rows := Slice(page.rows, 1, |page.rows|);
      var maleNames: map<string, int> := map[];
      var femaleNames: map<string, int> := map[];
      var records: seq<Record> := [];
      for i := 0 to |rows|
        invariant ScrapeRows(year, rows[..i]) == Success(Scrape(maleNames, femaleNames, records))
      {
        var row := rows[i];
        assert rows[..i + 1][..i] == rows[..i];
        var rankNum := ParseInt(row.rankText);
        if rankNum.None? {
          ScrapeRowsFailureSticks(year, rows, i + 1);
          return Failure(InvalidRank(row.rankText));
        }
        var maleName := Strip(row.maleText);
        maleNames := maleNames[maleName := rankNum.value];
        var femaleName := Strip(row.femaleText);
        femaleNames := femaleNames[femaleName := rankNum.value];
        records := records + [Record(Male, year, maleName, rankNum.value), Record(Female, year, femaleName, rankNum.value)];
      }
      assert rows[..|rows|] == rows;
      return Success(Scrape(maleNames, femaleNames, records));
    }

    /** `dfs_from_html`: a row per selected file in each table, and the
        records that are stored for later runs (returned here). */
    method DfsFromHtml(listing: seq<string>, pages: string -> Page) returns (r: Result<(Table, Table, seq<Record>), Error>)
      ensures r == HtmlTables(namesInReport, listing, pages)
    {
      var (maleDf, femaleDf) := GetEmptyDataframes();
      var pandasData: seq<Record> := [];
      var info := GetFilenameInfo(listing);
      if info.Failure? {
        return Failure(info.error);
      }
      var (filenames, availableYears) := info.value;
      ghost var results := PageResults(filenames, availableYears, pages);
      for index := 0 to |filenames|
        invariant CollectRows(namesInReport, availableYears[..index], results[..index]) ==
          Success(Scraped(maleDf.rows, femaleDf.rows, pandasData))
        invariant maleDf.columns == Columns(MaleTitle, namesInReport)
        invariant femaleDf.columns == Columns(FemaleTitle, namesInReport)
      {
        var filename := filenames[index];
        var year := availableYears[index];
        var scrape := ReadPage(year, filename, pages(filename));
        assert results[index] == scrape;
        assert availableYears[..index + 1][..index] == availableYears[..index];
        assert results[..index + 1][..index] == results[..index];
        if scrape.Failure? {
          CollectRowsFailureSticks(namesInReport, availableYears, results, index + 1);
          assert availableYears[..|filenames|] == availableYears && results[..|filenames|] == results;
          return Failure(scrape.error);
        }
        var maleRow := new RowBuffer([Text(year)]);
        maleRow := GetAllRowData(scrape.value.male, maleRow);
        maleDf := maleDf.(rows := maleDf.rows + [maleRow.items]);
        var femaleRow := new RowBuffer([Text(year)]);
        femaleRow := GetAllRowData(scrape.value.female, femaleRow);
        femaleDf := femaleDf.(rows := femaleDf.rows + [femaleRow.items]);
        pandasData := pandasData + scrape.value.records;
      }
      assert availableYears[..|filenames|] == availableYears && results[..|filenames|] == results;
      return Success((maleDf, femaleDf, pandasData));
    }

    /** The rows `dfs_from_pkl` appends for one gender's years. */
    method GroupTableRows(groups: YearGroups) returns (rows: seq<seq<Cell>>)
      ensures rows == GroupRows(groups, namesInReport)
    {
      rows := [];
      for i := 0 to |groups.years|
        invariant rows == GroupRows(YearGroups(groups.years[..i], groups.ranks), namesInReport)
      {
        var year := groups.years[i];
        var valueDict := if year in groups.ranks then groups.ranks[year] else map[];
        var row := new RowBuffer([Text(year)]);
        row := GetAllRowData(valueDict, row);
        assert groups.years[..i + 1][..i] == groups.years[..i];
        rows := rows + [row.items];
      }
      assert groups.years[..|groups.years|] == groups.years;
    }

    /** `dfs_from_pkl`: the stored records of the report names grouped by
        gender and year, then a row per year in each table. */
    method DfsFromPkl(records: seq<Record>) returns (male: Table, female: Table)
      ensures (male, female) == PklTables(namesInReport, records)
    {
      var (maleDf, femaleDf) := GetEmptyDataframes();
      var df := Query(records, namesInReport);
      var maleData := YearGroups([], map[]);
      var femaleData := YearGroups([], map[]);
      for i := 0 to |df|
        invariant maleData == Group(df[..i], Male) && femaleData == Group(df[..i], Female)
      {
        var rec := df[i];
        assert df[..i + 1][..i] == df[..i];
        var data := if rec.gender == Male then maleData else femaleData;
        if rec.year in data.ranks {
          data := YearGroups(data.years, data.ranks[rec.year := data.ranks[rec.year][rec.name := rec.rank]]);
        } else {
          data := YearGroups(data.years + [rec.year], data.ranks[rec.year := map[rec.name := rec.rank]]);
        }
        if rec.gender == Male {
          maleData := data;
        } else {
          femaleData := data;
        }
      }
      assert df[..|df|] == df;
      var maleRows := GroupTableRows(maleData);
      var femaleRows := GroupTableRows(femaleData);
      male := maleDf.(rows := maleRows);
      female := femaleDf.(rows := femaleRows);
    }

    /** `save_to_excel`: the tables one under the other, each starting two
        rows after the end of the one before. */
    method SaveToExcel(dataframes: seq<Table>, directory: string, basename: string) returns (w: Workbook)
      ensures w.path == OutputPath(excelFilename, directory, basename)
      ensures w.sheetname == excelSheetname
      ensures |w.placed| == |dataframes|
      ensures forall i :: 0 <= i < |dataframes| ==> w.placed[i] == (StartRow(dataframes, i), dataframes[i])
    {
      var outputPath := OutputPath(excelFilename, directory, basename);
      var placed: seq<(nat, Table)> := [];
      var row: nat := 0;
      for i := 0 to |dataframes|
        invariant row == StartRow(dataframes, i)
        invariant |placed| == i
        invariant forall j :: 0 <= j < i ==> placed[j] == (StartRow(dataframes, j), dataframes[j])
      {
        placed := placed + [(row, dataframes[i])];
        StartRowSteps(dataframes, i);
        row := row + |dataframes[i].rows| + 2;
      }
      w := Workbook(outputPath, excelSheetname, placed);
    }

    /** `execute_report`: the stored records are used when the listing holds
        their file, otherwise the pages are scraped; then the workbook is
        generated when asked for. `stored` stands for the stored records,
        `directory` and `basename` for the script's location. */
    method ExecuteReport(listing: seq<string>, pages: string -> Page, stored: seq<Record>, directory: string, basename: string)
      returns (r: Result<Run, Error>)
      ensures PklFilename(basename) in listing ==>
        r.Success? && (r.value.male, r.value.female) == PklTables(namesInReport, stored) && r.value.stored == None
      ensures PklFilename(basename) !in listing ==>
        var html := HtmlTables(namesInReport, listing, pages);
        && (html.Failure? ==> r == Failure(html.error))
        && (html.Success? ==> r.Success? && r.value.male == html.value.0 && r.value.female == html.value.1 &&
                              r.value.stored == Some(html.value.2))
      ensures r.Success? ==>
        && (r.value.workbook.Some? <==> generateExcel)
        && (generateExcel ==>
              var w := r.value.workbook.value;
              && w.path == OutputPath(excelFilename, directory, basename)
              && w.sheetname == excelSheetname
              && w.placed == [(0, r.value.male), (|r.value.male.rows| + 2, r.value.female)])
    {
      var pklFilename := PklFilename(basename);
      var alreadyScraped := pklFilename in listing;
      var maleDf, femaleDf, saved;
      if !alreadyScraped {
        var html := DfsFromHtml(listing, pages);
        if html.Failure? {
          return Failure(html.error);
        }
        maleDf, femaleDf, saved := html.value.0, html.value.1, Some(html.value.2);
      } else {
        maleDf, femaleDf := DfsFromPkl(stored);
        saved := None;
      }
      var workbook := None;
      if generateExcel {
        var w := SaveToExcel([maleDf, femaleDf], directory, basename);
        TwoTablesPlaced([maleDf, femaleDf], w.placed);
        workbook := Some(w);
      }
      return Success(Run(maleDf, femaleDf, saved, workbook));
    }
  }
}
