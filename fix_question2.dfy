/**
 * `ExecutionReportAnalyzer`: for the Execution Reports of one symbol
 * (`55=ES`), the largest cumulative quantity (CumQty, tag 14) reported for
 * each order (ClOrdID, tag 11), sorted by order id.
 */
module FixQuestion2 {
  import opened Wrappers
  import opened PyStr
  import opened FixSettings
  import opened FixMessage
  import FixMixins

  /** Symbol (tag 55) = ES. */
  const SymbolTag: string := "55=ES"

  /** The exceptions that end a run. */
  datatype Error =
    | MissingOrderId              // the assertion that tag 11 was in the message
    | InvalidQuantity(text: string)  // `int()` of a tag 14 value that is not an integer
    | UnorderableQuantities       // `max()` comparing a missing quantity (`None`)
    | EmptyQuantities             // `max()` of an empty list

  /** What the forward scan over a message's fields has kept: the text after
      the latest "11=" and the integer after the latest "14=". */
  datatype Scan = Scan(orderId: Option<string>, cumulativeQty: Option<int>)

  /** One step of the `for tag in tag_list` loop. */
  function ScanField(st: Scan, tag: string): Result<Scan, Error>
  {
    if StartsWith(tag, "11=") then Success(st.(orderId := Some(tag[3..])))
    else if StartsWith(tag, "14=") then
      match ParseInt(tag[3..])
      case None => Failure(InvalidQuantity(tag[3..]))
      case Some(q) => Success(st.(cumulativeQty := Some(q)))
    else Success(st)
  }

  /** The whole forward scan; the first unparsable quantity ends it. */
  function ScanFields(fields: seq<string>): Result<Scan, Error>
    decreases |fields|
  {
    if |fields| == 0 then Success(Scan(None, None))
    else match ScanFields(fields[..|fields| - 1])
      case Failure(e) => Failure(e)
      case Success(st) => ScanField(st, fields[|fields| - 1])
  }

  /** The order id and cumulative quantity a contributing message reports. */
  datatype Fill = Fill(orderId: string, cumulativeQty: Option<int>)

  /** The scan followed by the assertion that an order id was found. */
  function FillOf(fields: seq<string>): Result<Fill, Error>
  {
    match ScanFields(fields)
    case Failure(e) => Failure(e)
    case Success(st) =>
      if st.orderId.None? then Failure(MissingOrderId)
      else Success(Fill(st.orderId.value, st.cumulativeQty))
  }

  /** What one log line adds to the report: nothing unless it is an
      Execution Report with a field equal to `symbolTag`. */
  function Contribution(symbolTag: string, message: string): Result<Option<Fill>, Error>
  {
    if !IsExecutionReport(message) then Success(None)
    else
      var fields := Fields(message);
      if symbolTag !in fields then Success(None)
      else match FillOf(fields)
        case Failure(e) => Failure(e)
        case Success(f) => Success(Some(f))
  }

  /** Order id to the cumulative quantities reported for it, in message order. */
  type Report = map<string, seq<Option<int>>>

  /** `report[order_id].append(cumulative_qty)`, or a new one-entry list. */
  function Append(report: Report, fill: Fill): Report
  {
    var id := fill.orderId;
    report[id := (if id in report then report[id] else []) + [fill.cumulativeQty]]
  }

  /** The report after the lines of one file. */
  function AccumulateLines(symbolTag: string, report: Report, lines: seq<string>): Result<Report, Error>
    decreases |lines|
  {
    if |lines| == 0 then Success(report)
    else match AccumulateLines(symbolTag, report, lines[..|lines| - 1])
      case Failure(e) => Failure(e)
      case Success(r) =>
        match Contribution(symbolTag, lines[|lines| - 1])
        case Failure(e) => Failure(e)
        case Success(None) => Success(r)
        case Success(Some(f)) => Success(Append(r, f))
  }

  /** The report after every line of every file; `read` gives a file's lines. */
  function AccumulateFiles(symbolTag: string, report: Report, files: seq<string>, read: string -> seq<string>): Result<Report, Error>
    decreases |files|
  {
    if |files| == 0 then Success(report)
    else match AccumulateFiles(symbolTag, report, files[..|files| - 1], read)
      case Failure(e) => Failure(e)
      case Success(r) => AccumulateLines(symbolTag, r, read(files[|files| - 1]))
  }

  /** Python's `max(qs)`: each later entry is compared with the largest so
      far, and comparing with a missing quantity (`None`) raises. The result
      is one of the entries and, when present, at least every entry. */
  function MaxOf(qs: seq<Option<int>>): (r: Result<Option<int>, Error>)
    ensures r.Success? ==> r.value in qs
    ensures r.Success? && r.value.Some? ==>
      forall i :: 0 <= i < |qs| ==> qs[i].Some? && qs[i].value <= r.value.value
    decreases |qs|
  {
    if |qs| == 0 then Failure(EmptyQuantities)
    else if |qs| == 1 then Success(qs[0])
    else
      var init := qs[..|qs| - 1];
      assert forall i :: 0 <= i < |init| ==> init[i] == qs[i];
      match MaxOf(init)
      case Failure(e) => Failure(e)
      case Success(m) =>
        var item := qs[|qs| - 1];
        if item.None? || m.None? then Failure(UnorderableQuantities)
        else Success(if item.value > m.value then item else m)
  }

  /** Order ids strictly increasing, as the commented-out check in the
      script asserts. */
  predicate Ascending(items: seq<(string, Option<int>)>)
  {
    forall i, j :: 0 <= i < j < |items| ==> LexLess(items[i].0, items[j].0)
  }

  function Ids(items: seq<(string, Option<int>)>): set<string>
  {
    set i | 0 <= i < |items| :: items[i].0
  }

  /** `items` is what `finish_report` returns for `report`: one pair per
      order, sorted by order id, with the maximum of the order's list. */
  ghost predicate IsFinishedReport(report: Report, items: seq<(string, Option<int>)>)
  {
    && Ascending(items)
    && Ids(items) == report.Keys
    && forall i :: 0 <= i < |items| ==>
         items[i].0 in report && MaxOf(report[items[i].0]) == Success(items[i].1)
  }

  /** The `for tag in tag_list` loop and the assertion after it. */
  method ReadFill(tagList: seq<string>) returns (r: Result<Fill, Error>)
    ensures r == FillOf(tagList)
  {
    var orderId: Option<string> := None;
    var cumulativeQty: Option<int> := None;
    for i := 0 to |tagList|
      invariant ScanFields(tagList[..i]) == Success(Scan(orderId, cumulativeQty))
    {
      var tag := tagList[i];
      PrefixSliceTest(tag, "11=");
      PrefixSliceTest(tag, "14=");
      assert tagList[..i + 1][..i] == tagList[..i];
      if Slice(tag, 0, 3) == "11=" {
        orderId := Some(tag[3..]);
      } else if Slice(tag, 0, 3) == "14=" {
        var q := ParseInt(tag[3..]);
        if q.None? {
          ScanFailureSticks(tagList, i + 1);
          return Failure(InvalidQuantity(tag[3..]));
        }
        cumulativeQty := q;
      }
    }
    assert tagList[..|tagList|] == tagList;
    if orderId.None? {
      return Failure(MissingOrderId);
    }
    return Success(Fill(orderId.value, cumulativeQty));
  }

  /** Once the scan has failed, later fields do not change the failure. */
  lemma {:induction false} ScanFailureSticks(fields: seq<string>, k: nat)
    requires k <= |fields|
    requires ScanFields(fields[..k]).Failure?
    ensures ScanFields(fields) == ScanFields(fields[..k])
    decreases |fields|
  {
    if k < |fields| {
      var fs := fields[..|fields| - 1];
      assert fs[..k] == fields[..k];
      ScanFailureSticks(fs, k);
    } else {
      assert fields[..k] == fields;
    }
  }

  /** Once accumulation has failed, later lines do not change the failure. */
  lemma {:induction false} AccumulateLinesFailureSticks(symbolTag: string, report: Report, lines: seq<string>, k: nat)
    requires k <= |lines|
    requires AccumulateLines(symbolTag, report, lines[..k]).Failure?
    ensures AccumulateLines(symbolTag, report, lines) == AccumulateLines(symbolTag, report, lines[..k])
    decreases |lines|
  {
    if k < |lines| {
      var ls := lines[..|lines| - 1];
      assert ls[..k] == lines[..k];
      AccumulateLinesFailureSticks(symbolTag, report, ls, k);
    } else {
      assert lines[..k] == lines;
    }
  }

  /** Once accumulation has failed, later files do not change the failure. */
  lemma {:induction false} AccumulateFilesFailureSticks(symbolTag: string, report: Report, files: seq<string>, read: string -> seq<string>, k: nat)
    requires k <= |files|
    requires AccumulateFiles(symbolTag, report, files[..k], read).Failure?
    ensures AccumulateFiles(symbolTag, report, files, read) == AccumulateFiles(symbolTag, report, files[..k], read)
    decreases |files|
  {
    if k < |files| {
      var fs := files[..|files| - 1];
      assert fs[..k] == files[..k];
      AccumulateFilesFailureSticks(symbolTag, report, fs, read, k);
    } else {
      assert files[..k] == files;
    }
  }

  /** `finish_report`: each list replaced by its maximum, then the pairs
      sorted by order id. A failure of `max` on any list ends it. */
  method FinishReport(report: Report) returns (r: Result<seq<(string, Option<int>)>, Error>)
    ensures r.Success? <==> forall k :: k in report ==> MaxOf(report[k]).Success?
    ensures r.Success? ==> IsFinishedReport(report, r.value)
    ensures r.Failure? ==> exists k :: k in report && MaxOf(report[k]) == Failure(r.error)
  {
    var maxima: map<string, Option<int>> := map[];
    var rest := report.Keys;
    while rest != {}
      invariant rest <= report.Keys
      invariant maxima.Keys == report.Keys - rest
      invariant forall k :: k in maxima ==> MaxOf(report[k]) == Success(maxima[k])
      decreases |rest|
    {
      var orderId :| orderId in rest;
      var m := MaxOf(report[orderId]);
      if m.Failure? {
        return Failure(m.error);
      }
      maxima := maxima[orderId := m.value];
      rest := rest - {orderId};
    }
    var items := SortedItems(maxima);
    return Success(items);
  }

  /** `sorted(report.items())`: the order ids are distinct, so the pairs
      are ordered by id alone. */
  method SortedItems(m: map<string, Option<int>>) returns (items: seq<(string, Option<int>)>)
    ensures Ascending(items)
    ensures Ids(items) == m.Keys
    ensures forall i :: 0 <= i < |items| ==> items[i].0 in m && items[i].1 == m[items[i].0]
  {
    items := [];
    var rest := m.Keys;
    while rest != {}
      invariant SortState(m, items, rest)
      decreases |rest|
    {
      LeastStringExists(rest);
      var k :| k in rest && forall j :: j in rest && j != k ==> LexLess(k, j);
      SortStep(m, items, rest, k);
      items := items + [(k, m[k])];
      rest := rest - {k};
    }
  }

  /** The loop state of `SortedItems`: `items` holds the pairs of `m` for
      the ids not in `rest`, ascending and all below the ids in `rest`. */
  predicate SortState(m: map<string, Option<int>>, items: seq<(string, Option<int>)>, rest: set<string>)
  {
    && rest <= m.Keys
    && Ascending(items)
    && Ids(items) == m.Keys - rest
    && (forall i :: 0 <= i < |items| ==> items[i].0 in m && items[i].1 == m[items[i].0])
    && (forall i, k :: 0 <= i < |items| && k in rest ==> LexLess(items[i].0, k))
  }

  /** One step of the selection: appending the least remaining id. */
  lemma SortStep(m: map<string, Option<int>>, items: seq<(string, Option<int>)>, rest: set<string>, k: string)
    requires SortState(m, items, rest)
    requires k in rest && forall j :: j in rest && j != k ==> LexLess(k, j)
    ensures k in m && SortState(m, items + [(k, m[k])], rest - {k})
  {
    var next := items + [(k, m[k])];
    AscendingSnoc(items, (k, m[k]));
    assert forall i :: 0 <= i < |items| ==> next[i] == items[i];
  }

  /** Appending a pair keeps its id and the ids before it. */
  lemma IdsSnoc(items: seq<(string, Option<int>)>, p: (string, Option<int>))
    ensures Ids(items + [p]) == Ids(items) + {p.0}
  {
    var next := items + [p];
    assert forall i :: 0 <= i < |items| ==> next[i] == items[i];
    assert next[|items|] == p;
  }

  /** Appending an id above every id so far keeps the list ascending. */
  lemma AscendingSnoc(items: seq<(string, Option<int>)>, p: (string, Option<int>))
    requires Ascending(items)
    requires forall i :: 0 <= i < |items| ==> LexLess(items[i].0, p.0)
    ensures Ascending(items + [p])
    ensures Ids(items + [p]) == Ids(items) + {p.0}
  {
    IdsSnoc(items, p);
  }

  class ExecutionReportAnalyzer {
    const symbolTag: string
    const executionReportTag: string := ExecutionReportTag

    constructor (symbolTag: string)
      ensures this.symbolTag == symbolTag
    {
      this.symbolTag := symbolTag;
    }

    /** The body of `execute_report`'s loop for one message: the window
        test, the split on SOH, the backward scan for `symbol_tag` and the
        order id and quantity of a matching message. */
    method MessageContribution(message: string) returns (r: Result<Option<Fill>, Error>)
      ensures r == Contribution(symbolTag, message)
    {
      var endIndex := Min(StartIndex * 2, |message| - 1);
      var messageBeginning := Slice(message, StartIndex, endIndex);
      r := Success(None);
      if IsInfix(executionReportTag, messageBeginning) {
        var tagList := Split(message, Delimiter);
        var index := |tagList| - 1;
        ghost var done := false;
        while index > -1
          invariant -1 <= index < |tagList|
          invariant !done ==>
            r == Success(None) && forall j :: index < j < |tagList| ==> tagList[j] != symbolTag
          invariant done ==> index == -1 && r == Contribution(symbolTag, message)
          decreases index + 1
        {
          if tagList[index] != symbolTag {
            index := index - 1;
          } else {
            index := -1;
            done := true;
            var fill := ReadFill(tagList);
            r := match fill case Failure(e) => Failure(e) case Success(f) => Success(Some(f));
          }
        }
      }
    }

    /** `execute_report`: accumulate every selected log file's lines, then
        `finish_report`. The listing and `read` stand for the directory and
        the files. */
    method ExecuteReport(listing: seq<string>, read: string -> seq<string>)
      returns (r: Result<seq<(string, Option<int>)>, Error>)
      ensures var acc := AccumulateFiles(symbolTag, map[], FixMixins.SelectLogFiles(listing), read);
        && (acc.Failure? ==> r == Failure(acc.error))
        && (acc.Success? ==> (r.Success? <==> forall k :: k in acc.value ==> MaxOf(acc.value[k]).Success?))
        && (acc.Success? && r.Success? ==> IsFinishedReport(acc.value, r.value))
        && (acc.Success? && r.Failure? ==> exists k :: k in acc.value && MaxOf(acc.value[k]) == Failure(r.error))
    {
      var filenames := FixMixins.GetFilenames(listing);
      var report: Report := map[];
      for i := 0 to |filenames|
        invariant AccumulateFiles(symbolTag, map[], filenames[..i], read) == Success(report)
      {
        var lines := read(filenames[i]);
        ghost var before := report;
        assert filenames[..i + 1][..i] == filenames[..i];
        for j := 0 to |lines|
          invariant AccumulateLines(symbolTag, before, lines[..j]) == Success(report)
        {
          var c := MessageContribution(lines[j]);
          assert lines[..j + 1][..j] == lines[..j];
          if c.Failure? {
            AccumulateLinesFailureSticks(symbolTag, before, lines, j + 1);
            AccumulateFilesFailureSticks(symbolTag, map[], filenames, read, i + 1);
            return Failure(c.error);
          }
          if c.value.Some? {
            report := Append(report, c.value.value);
          }
        }
        assert lines[..|lines|] == lines;
      }
      assert filenames[..|filenames|] == filenames;
      r := FinishReport(report);
    }
  }

  // -----------------------------------------------------------------------
  // Properties
  // -----------------------------------------------------------------------

  /** The text after the last "11=" field, if any. */
  function LastOrderId(fields: seq<string>): Option<string>
  {
    match LastWithPrefix(fields, "11=")
    case None => None
    case Some(i) => Some(fields[i][3..])
  }

  /** The integer after the last "14=" field, if any. */
  function LastCumulativeQty(fields: seq<string>): Option<int>
  {
    match LastWithPrefix(fields, "14=")
    case None => None
    case Some(i) => ParseInt(fields[i][3..])
  }

  /** The forward scan fails exactly when some "14=" field is not an integer;
      otherwise it keeps the last "11=" and the last "14=" field. */
  lemma {:induction false} ScanFieldsSpec(fields: seq<string>)
    ensures ScanFields(fields).Success? <==>
      forall k :: 0 <= k < |fields| && StartsWith(fields[k], "14=") ==> ParseInt(fields[k][3..]).Some?
    ensures ScanFields(fields).Success? ==>
      ScanFields(fields).value == Scan(LastOrderId(fields), LastCumulativeQty(fields))
    decreases |fields|
  {
    if |fields| > 0 {
      var n := |fields| - 1;
      var fs := fields[..n];
      var t := fields[n];
      ScanFieldsSpec(fs);
      assert forall k :: 0 <= k < n ==> fields[k] == fs[k];
      assert StartsWith(t, "11=") ==> !StartsWith(t, "14=");
      if !StartsWith(t, "11=") {
        assert LastWithPrefix(fields, "11=") == LastWithPrefix(fs, "11=");
      }
      if !StartsWith(t, "14=") {
        assert LastWithPrefix(fields, "14=") == LastWithPrefix(fs, "14=");
      }
    }
  }

  /** A line contributes exactly when it passes the window test and one of its
      fields equals the symbol tag; the fill is then the last order id and the
      last quantity of the message, and a message without "11=" is an error. */
  lemma ContributionSpec(symbolTag: string, message: string)
    ensures Contribution(symbolTag, message) == Success(None) <==>
      !IsExecutionReport(message) || symbolTag !in Fields(message)
    ensures var fields := Fields(message);
      IsExecutionReport(message) && symbolTag in fields && ScanFields(fields).Success? ==>
        Contribution(symbolTag, message) ==
          (if LastOrderId(fields).None? then Failure(MissingOrderId)
           else Success(Some(Fill(LastOrderId(fields).value, LastCumulativeQty(fields)))))
  {
    ScanFieldsSpec(Fields(message));
  }

  /** Appending touches only the fill's order: its list gains the quantity
      at the end, and every other list is unchanged. */
  lemma AppendOnlyTouchesItsOrder(report: Report, fill: Fill)
    ensures Append(report, fill).Keys == report.Keys + {fill.orderId}
    ensures Append(report, fill)[fill.orderId] ==
      (if fill.orderId in report then report[fill.orderId] else []) + [fill.cumulativeQty]
    ensures forall k :: k in report && k != fill.orderId ==> Append(report, fill)[k] == report[k]
  {
  }

  /** Accumulation only adds orders, and every list it builds is non-empty,
      so `max` never meets an empty list. */
  lemma {:induction false} AccumulateLinesGrows(symbolTag: string, report: Report, lines: seq<string>)
    requires forall k :: k in report ==> |report[k]| > 0
    ensures var acc := AccumulateLines(symbolTag, report, lines);
      acc.Success? ==> report.Keys <= acc.value.Keys && forall k :: k in acc.value ==> |acc.value[k]| > 0
    decreases |lines|
  {
    if |lines| > 0 {
      AccumulateLinesGrows(symbolTag, report, lines[..|lines| - 1]);
    }
  }

  lemma {:induction false} AccumulateFilesGrows(symbolTag: string, report: Report, files: seq<string>, read: string -> seq<string>)
    requires forall k :: k in report ==> |report[k]| > 0
    ensures var acc := AccumulateFiles(symbolTag, report, files, read);
      acc.Success? ==> report.Keys <= acc.value.Keys && forall k :: k in acc.value ==> |acc.value[k]| > 0
    decreases |files|
  {
    if |files| > 0 {
      var before := AccumulateFiles(symbolTag, report, files[..|files| - 1], read);
      AccumulateFilesGrows(symbolTag, report, files[..|files| - 1], read);
      if before.Success? {
        AccumulateLinesGrows(symbolTag, before.value, read(files[|files| - 1]));
      }
    }
  }

  /** `max` succeeds exactly on a one-entry list or a list of at least two
      present quantities; an empty list and a missing quantity raise
      different errors. */
  lemma {:induction false} MaxOfSpec(qs: seq<Option<int>>)
    ensures MaxOf(qs).Success? <==> |qs| == 1 || (|qs| >= 2 && forall i :: 0 <= i < |qs| ==> qs[i].Some?)
    ensures MaxOf(qs).Failure? ==>
      MaxOf(qs).error == (if |qs| == 0 then EmptyQuantities else UnorderableQuantities)
    decreases |qs|
  {
    if |qs| >= 2 {
      var qs' := qs[..|qs| - 1];
      MaxOfSpec(qs');
      assert forall i :: 0 <= i < |qs'| ==> qs'[i] == qs[i];
    }
  }

  /** Every list of a report that accumulation builds has a maximum unless it
      mixes in a missing quantity. */
  lemma ExecutedReportMaxima(symbolTag: string, files: seq<string>, read: string -> seq<string>, k: string)
    requires AccumulateFiles(symbolTag, map[], files, read).Success?
    requires k in AccumulateFiles(symbolTag, map[], files, read).value
    ensures var qs := AccumulateFiles(symbolTag, map[], files, read).value[k];
      MaxOf(qs).Success? <==> |qs| == 1 || forall i :: 0 <= i < |qs| ==> qs[i].Some?
  {
    AccumulateFilesGrows(symbolTag, map[], files, read);
    MaxOfSpec(AccumulateFiles(symbolTag, map[], files, read).value[k]);
  }

  /** The first pair of an ascending list has the least id. */
  lemma FirstIsLeast(items: seq<(string, Option<int>)>, x: string)
    requires Ascending(items) && x in Ids(items)
    ensures items[0].0 == x || LexLess(items[0].0, x)
  {
    var i :| 0 <= i < |items| && items[i].0 == x;
  }

  /** Dropping the first pair of an ascending list drops exactly its id. */
  lemma IdsOfTail(items: seq<(string, Option<int>)>)
    requires Ascending(items) && |items| > 0
    ensures Ascending(items[1..])
    ensures Ids(items[1..]) == Ids(items) - {items[0].0}
  {
    LexLessIrreflexive(items[0].0);
    assert forall i :: 1 <= i < |items| ==> items[i].0 != items[0].0;
    assert forall i :: 0 <= i < |items| - 1 ==> items[1..][i] == items[i + 1];
  }

  /** Two ascending lists with the same ids, agreeing on each id's value, are equal. */
  lemma {:induction false} AscendingUnique(a: seq<(string, Option<int>)>, b: seq<(string, Option<int>)>)
    requires Ascending(a) && Ascending(b) && Ids(a) == Ids(b)
    requires forall i, j :: 0 <= i < |a| && 0 <= j < |b| && a[i].0 == b[j].0 ==> a[i].1 == b[j].1
    ensures a == b
    decreases |a|
  {
    assert |a| > 0 ==> a[0].0 in Ids(b);
    assert |b| > 0 ==> b[0].0 in Ids(a);
    if |a| > 0 && |b| > 0 {
      FirstIsLeast(a, b[0].0);
      FirstIsLeast(b, a[0].0);
      LexLessAsymmetric(a[0].0, b[0].0);
      IdsOfTail(a);
      IdsOfTail(b);
      AscendingUnique(a[1..], b[1..]);
      assert a == [a[0]] + a[1..] && b == [b[0]] + b[1..];
    }
  }

  /** `finish_report` has exactly one possible result: the sorted pairs do
      not depend on the order in which the dictionary is visited. */
  lemma FinishedReportUnique(report: Report, a: seq<(string, Option<int>)>, b: seq<(string, Option<int>)>)
    requires IsFinishedReport(report, a) && IsFinishedReport(report, b)
    ensures a == b
  {
    AscendingUnique(a, b);
  }
}
