/**
 * Settings of the baby-names report and `BabyNamesMixin`: picking the
 * `baby<year>.html` files out of a directory listing, the checks applied to
 * each page (the year in its title, the order of its table's columns) and
 * the path of the report file.
 */
module BabySettings {
  const FilenamePrefix: string := "baby"
  const FileType: string := ".html"

  /** The lower-cased column names every table must have, in this order. */
  const ExpectedColumnOrder: seq<string> := ["rank", "male name", "female name"]

  /** The header tags searched for the page title, in this order. */
  const HeaderTags: seq<string> := ["h3", "h2", "h1"]
}

module BabyMixins {
  import opened Wrappers
  import opened PyStr
  import opened Seqs
  import opened BabySettings

  /** The exceptions that end a run. */
  datatype Error =
    | InvalidFileFormat(filename: string)        // the year in a file name is not all digits
    | YearNotFourDigits(filename: string)        // ... or not four characters long
    | MissingTitle                               // no header tag found: `title_text` is unbound
    | InvalidTitleYear(yearInTitle: string)      // the title does not end in four digits
    | YearMismatch(yearInTitle: string, year: string)
    | UnexpectedColumnOrder(filename: string)
    | InvalidRank(text: string)                  // `int(str(rank_el))` fails
    | InvalidExcelFilename(excelFilename: string)

  // -----------------------------------------------------------------------
  // get_filename_info
  // -----------------------------------------------------------------------

  /** The test `get_filename_info` applies to each directory entry. */
  predicate IsBabyFileName(filename: string)
  {
    Slice(filename, 0, |FilenamePrefix|) == FilenamePrefix &&
    Slice(filename, -|FileType|, |filename|) == FileType
  }

  /** `filename[len(prefix):-len(file_type)]`, the year part of a name. */
  function FileYear(filename: string): string
  {
    Slice(filename, |FilenamePrefix|, -|FileType|)
  }

  /** What the two assertions demand of a year: `isdigit()` and length 4. */
  predicate IsYear(year: string)
  {
    IsDigits(year) && |year| == 4
  }

  /** The two lists `get_filename_info` returns, or the assertion that
      stops it at the first selected name without a valid year. */
  function FilenameInfo(listing: seq<string>): (r: Result<(seq<string>, seq<string>), Error>)
    ensures r.Success? ==> |r.value.0| == |r.value.1|
    decreases |listing|
  {
    if |listing| == 0 then Success(([], []))
    else match FilenameInfo(listing[..|listing| - 1])
      case Failure(e) => Failure(e)
      case Success(info) =>
        var filename := listing[|listing| - 1];
        if !IsBabyFileName(filename) then Success(info)
        else
          var year := FileYear(filename);
          if !IsDigits(year) then Failure(InvalidFileFormat(filename))
          else if |year| != 4 then Failure(YearNotFourDigits(filename))
          else Success((info.0 + [filename], info.1 + [year]))
  }

  /** `BabyNamesMixin.get_filename_info`, with `os.listdir` passed in. */
  method GetFilenameInfo(listing: seq<string>) returns (r: Result<(seq<string>, seq<string>), Error>)
    ensures r == FilenameInfo(listing)
  {
    var availableYears: seq<string> := [];
    var filenames: seq<string> := [];
    var prefixLen := |FilenamePrefix|;
    var fileTypeLen := |FileType|;
    for i := 0 to |listing|
      invariant FilenameInfo(listing[..i]) == Success((filenames, availableYears))
    {
      var filename := listing[i];
      var prefix2 := Slice(filename, 0, prefixLen);
      var fileType2 := Slice(filename, -fileTypeLen, |filename|);
      assert listing[..i + 1][..i] == listing[..i];
      if FilenamePrefix == prefix2 && FileType == fileType2 {
        var year := Slice(filename, prefixLen, -fileTypeLen);
        if !IsDigits(year) {
          FilenameInfoFailureSticks(listing, i + 1);
          return Failure(InvalidFileFormat(filename));
        }
        if |year| != 4 {
          FilenameInfoFailureSticks(listing, i + 1);
          return Failure(YearNotFourDigits(filename));
        }
        availableYears := availableYears + [year];
        filenames := filenames + [filename];
      }
    }
    assert listing[..|listing|] == listing;
    return Success((filenames, availableYears));
  }

  /** Once a name has failed, later entries do not change the failure. */
  lemma {:induction false} FilenameInfoFailureSticks(listing: seq<string>, k: nat)
    requires k <= |listing|
    requires FilenameInfo(listing[..k]).Failure?
    ensures FilenameInfo(listing) == FilenameInfo(listing[..k])
    decreases |listing|
  {
    if k < |listing| {
      var ls := listing[..|listing| - 1];
      assert ls[..k] == listing[..k];
      FilenameInfoFailureSticks(ls, k);
    } else {
      assert listing[..k] == listing;
    }
  }

  /** The slice test is the prefix-and-suffix test; a name that passes is at
      least nine characters long and is the prefix, its year part and
      ".html". */
  lemma BabyFileNameTest(filename: string)
    ensures IsBabyFileName(filename) <==>
      StartsWith(filename, FilenamePrefix) && EndsWith(filename, FileType)
    ensures IsBabyFileName(filename) ==>
      |filename| >= |FilenamePrefix| + |FileType| &&
      FileYear(filename) == filename[|FilenamePrefix|..|filename| - |FileType|] &&
      filename == FilenamePrefix + FileYear(filename) + FileType
  {
    PrefixSliceTest(filename, FilenamePrefix);
    SuffixSliceTest(filename, FileType);
    if IsBabyFileName(filename) {
      var n := |filename|;
      assert filename[..4] == FilenamePrefix;
      assert filename[n - 5] == '.';
      assert n >= 9;
      var mid := filename[4..n - 5];
      assert filename == filename[..4] + mid + filename[n - 5..];
    }
  }

  /** `get_filename_info` succeeds exactly when every selected name has a
      four-digit year. It then returns the selected names in listing order
      and, at the same index, the year of each; every name is
      `"baby" + year + ".html"`. */
  lemma {:induction false} FilenameInfoSpec(listing: seq<string>)
    ensures FilenameInfo(listing).Success? <==>
      forall i :: 0 <= i < |listing| && IsBabyFileName(listing[i]) ==> IsYear(FileYear(listing[i]))
    ensures FilenameInfo(listing).Success? ==>
      var (filenames, years) := FilenameInfo(listing).value;
      && filenames == Filter(listing, IsBabyFileName)
      && |years| == |filenames|
      && forall i :: 0 <= i < |years| ==>
           years[i] == FileYear(filenames[i]) && IsYear(years[i]) &&
           filenames[i] == FilenamePrefix + years[i] + FileType
    decreases |listing|
  {
    if |listing| > 0 {
      var ls := listing[..|listing| - 1];
      var f := listing[|listing| - 1];
      FilenameInfoSpec(ls);
      BabyFileNameTest(f);
      assert forall i :: 0 <= i < |ls| ==> ls[i] == listing[i];
    }
  }

  /** When `get_filename_info` fails, it names the first selected entry of
      the listing whose year is not four digits. */
  lemma {:induction false} FilenameInfoFirstFailure(listing: seq<string>) returns (i: nat)
    requires FilenameInfo(listing).Failure?
    ensures i < |listing| && IsBabyFileName(listing[i]) && !IsYear(FileYear(listing[i]))
    ensures forall j :: 0 <= j < i && IsBabyFileName(listing[j]) ==> IsYear(FileYear(listing[j]))
    ensures FilenameInfo(listing).error ==
      if IsDigits(FileYear(listing[i])) then YearNotFourDigits(listing[i]) else InvalidFileFormat(listing[i])
    decreases |listing|
  {
    var ls := listing[..|listing| - 1];
    if FilenameInfo(ls).Failure? {
      i := FilenameInfoFirstFailure(ls);
    } else {
      i := |listing| - 1;
      FilenameInfoSpec(ls);
      assert forall j :: 0 <= j < |ls| ==> ls[j] == listing[j];
    }
  }

  // -----------------------------------------------------------------------
  // validate_year
  // -----------------------------------------------------------------------

  /** The text of the first header tag found; `titles[i]` is the text of
      the element `select_one(HeaderTags[i])` found, if any. */
  function FirstTitle(titles: seq<Option<string>>): (r: Option<string>)
    ensures r.Some? ==> r in titles
    decreases |titles|
  {
    if |titles| == 0 then None
    else if titles[0].Some? then titles[0]
    else FirstTitle(titles[1..])
  }

  /** `validate_year`: the last four characters of the title must be four
      digits and equal the year from the file name. */
  function ValidateYear(year: string, titles: seq<Option<string>>): (r: Outcome<Error>)
    ensures r.Pass? ==> IsYear(year)
    ensures r == Fail(MissingTitle) <==> FirstTitle(titles).None?
  {
    match FirstTitle(titles)
    case None => Fail(MissingTitle)
    case Some(titleText) =>
      var yearInTitle := Slice(titleText, -4, |titleText|);
      if !(IsDigits(yearInTitle) && |yearInTitle| == 4) then Fail(InvalidTitleYear(yearInTitle))
      else if yearInTitle != year then Fail(YearMismatch(yearInTitle, year))
      else Pass
  }

  /** `BabyNamesMixin.validate_year`: the loop over the header tags stops at
      the first one found; `titles[i]` stands for `select_one(HeaderTags[i])`. */
  method ValidatePageYear(year: string, titles: seq<Option<string>>) returns (r: Outcome<Error>)
    ensures r == ValidateYear(year, titles)
  {
    var titleText: Option<string> := None;
    var i := 0;
    while i < |titles|
      invariant 0 <= i <= |titles|
      invariant titleText.None? && FirstTitle(titles) == FirstTitle(titles[i..])
    {
      if titles[i].Some? {
        titleText := titles[i];
        assert FirstTitle(titles[i..]) == titles[i];
        break;
      }
      assert titles[i..][1..] == titles[i + 1..];
      i := i + 1;
    }
    if titleText.None? {
      return Fail(MissingTitle);
    }
    var text := titleText.value;
    var yearInTitle := Slice(text, -4, |text|);
    if !(IsDigits(yearInTitle) && |yearInTitle| == 4) {
      return Fail(InvalidTitleYear(yearInTitle));
    }
    if yearInTitle != year {
      return Fail(YearMismatch(yearInTitle, year));
    }
    return Pass;
  }

  /** The title is the text of the first header tag present, in the order
      of `titles`; there is none only when no tag is present. */
  lemma {:induction false} FirstTitleSpec(titles: seq<Option<string>>) returns (i: nat)
    ensures FirstTitle(titles).None? <==> forall j :: 0 <= j < |titles| ==> titles[j].None?
    ensures FirstTitle(titles).Some? ==>
      i < |titles| && titles[i] == FirstTitle(titles) && forall j :: 0 <= j < i ==> titles[j].None?
    decreases |titles|
  {
    if |titles| > 0 && titles[0].None? {
      var k := FirstTitleSpec(titles[1..]);
      i := k + 1;
      assert forall j :: 1 <= j < |titles| ==> titles[j] == titles[1..][j - 1];
    } else {
      i := 0;
    }
  }

  /** The year check passes exactly when a title is found, it is at least
      four characters long and its last four characters are the year, and
      the year is four digits. */
  lemma ValidateYearSpec(year: string, titles: seq<Option<string>>)
    ensures ValidateYear(year, titles).Pass? <==>
      FirstTitle(titles).Some? &&
      var t := FirstTitle(titles).value;
      |t| >= 4 && t[|t| - 4..] == year && IsYear(year)
    ensures FirstTitle(titles).None? ==> ValidateYear(year, titles) == Fail(MissingTitle)
  {
    if FirstTitle(titles).Some? {
      var t := FirstTitle(titles).value;
      if |t| >= 4 {
        assert Slice(t, -4, |t|) == t[|t| - 4..];
      } else {
        assert |Slice(t, -4, |t|)| <= |t|;
      }
    }
  }

  // -----------------------------------------------------------------------
  // validate_table_columns
  // -----------------------------------------------------------------------

  /** The texts of the header row's children that are tags; `cells[i]` is
      `None` for a child that is not a tag (text between the cells). */
  function TagTexts(cells: seq<Option<string>>): seq<string>
    decreases |cells|
  {
    if |cells| == 0 then []
    else TagTexts(cells[..|cells| - 1]) + (match cells[|cells| - 1] case None => [] case Some(t) => [t])
  }

  /** `actual_column_order`: the lower-cased texts of the tag children. */
  function ColumnOrder(cells: seq<Option<string>>): seq<string>
    decreases |cells|
  {
    if |cells| == 0 then []
    else ColumnOrder(cells[..|cells| - 1]) + (match cells[|cells| - 1] case None => [] case Some(t) => [Lower(t)])
  }

  /** `validate_table_columns`, given the header row's children. */
  method ValidateTableColumns(cells: seq<Option<string>>, filename: string) returns (r: Outcome<Error>)
    ensures r.Pass? <==> ColumnOrder(cells) == ExpectedColumnOrder
    ensures r.Fail? ==> r.error == UnexpectedColumnOrder(filename)
  {
    var actualColumnOrder: seq<string> := [];
    for i := 0 to |cells|
      invariant actualColumnOrder == ColumnOrder(cells[..i])
    {
      assert cells[..i + 1][..i] == cells[..i];
      if cells[i].Some? {
        actualColumnOrder := actualColumnOrder + [Lower(cells[i].value)];
      }
    }
    assert cells[..|cells|] == cells;
    if ExpectedColumnOrder == actualColumnOrder {
      r := Pass;
    } else {
      r := Fail(UnexpectedColumnOrder(filename));
    }
  }

  /** The column order is the tag texts, each lower-cased: so the check
      passes exactly when there are three tag cells whose texts lower-case
      to "rank", "male name" and "female name", in that order. */
  lemma {:induction false} ColumnOrderSpec(cells: seq<Option<string>>)
    ensures |ColumnOrder(cells)| == |TagTexts(cells)|
    ensures forall i :: 0 <= i < |TagTexts(cells)| ==> ColumnOrder(cells)[i] == Lower(TagTexts(cells)[i])
    ensures ColumnOrder(cells) == ExpectedColumnOrder <==>
      |TagTexts(cells)| == 3 && forall i :: 0 <= i < 3 ==> Lower(TagTexts(cells)[i]) == ExpectedColumnOrder[i]
    decreases |cells|
  {
    if |cells| > 0 {
      ColumnOrderSpec(cells[..|cells| - 1]);
    }
    var c, t := ColumnOrder(cells), TagTexts(cells);
    if |t| == 3 && forall i :: 0 <= i < 3 ==> Lower(t[i]) == ExpectedColumnOrder[i] {
      assert c == [c[0], c[1], c[2]];
    }
  }

  // -----------------------------------------------------------------------
  // get_output_path
  // -----------------------------------------------------------------------

  /** `get_output_path`: the directory of the script, a backslash and the
      report file name; `directory` and `basename` stand for
      `os.path.dirname(os.path.abspath(__file__))` and
      `os.path.basename(__file__)`. */
  function OutputPath(excelFilename: string, directory: string, basename: string): (r: string)
    ensures StartsWith(r, directory + "\\")
    ensures excelFilename != "" ==> EndsWith(r, excelFilename)
  {
    var name := if excelFilename != "" then excelFilename else ReplaceAll(basename, ".py", "_report.xlsx");
    directory + "\\" + name
  }

  /** A configured file name is used as is; otherwise a script `<stem>.py`
      writes `<stem>_report.xlsx` beside itself. */
  lemma OutputPathSpec(excelFilename: string, directory: string, stem: string)
    requires !IsInfix(".py", stem)
    ensures excelFilename != "" ==>
      OutputPath(excelFilename, directory, stem + ".py") == directory + "\\" + excelFilename
    ensures OutputPath("", directory, stem + ".py") == directory + "\\" + stem + "_report.xlsx"
  {
    ReplaceExtension(stem, "_report.xlsx");
  }
}
