/**
 * `OrderStatusAnalyzer`: counts the Execution Reports in the FIX logs by
 * order status (OrdStatus, tag 39), for the statuses it is constructed with.
 */
module FixQuestion1 {
  import opened Wrappers
  import opened PyStr
  import opened FixSettings
  import opened FixMessage
  import FixMixins

  /** The values of OrdStatus (tag 39) in FIX 4.2. */
  datatype OrdStatus =
    | New | PartiallyFilled | Filled | DoneForDay | Cancelled | Replaced
    | PendingCancel | Stopped | Rejected | Suspended | PendingNew
    | Calculated | Expired | AcceptedForBidding | PendingReplace
  {
    /** The enum member's `value`: one character, '0'..'9' or 'A'..'E'. */
    function Value(): (v: string)
      ensures |v| == 1 && (IsDigitChar(v[0]) || 'A' <= v[0] <= 'E')
    {
      match this
      case New => "0"
      case PartiallyFilled => "1"
      case Filled => "2"
      case DoneForDay => "3"
      case Cancelled => "4"
      case Replaced => "5"
      case PendingCancel => "6"
      case Stopped => "7"
      case Rejected => "8"
      case Suspended => "9"
      case PendingNew => "A"
      case Calculated => "B"
      case Expired => "C"
      case AcceptedForBidding => "D"
      case PendingReplace => "E"
    }
  }

  /** The lookup `OrdStatus(v)`: the member whose value is `v`, if any. */
  function OrdStatusOf(v: string): Option<OrdStatus>
  {
    if v == "0" then Some(New)
    else if v == "1" then Some(PartiallyFilled)
    else if v == "2" then Some(Filled)
    else if v == "3" then Some(DoneForDay)
    else if v == "4" then Some(Cancelled)
    else if v == "5" then Some(Replaced)
    else if v == "6" then Some(PendingCancel)
    else if v == "7" then Some(Stopped)
    else if v == "8" then Some(Rejected)
    else if v == "9" then Some(Suspended)
    else if v == "A" then Some(PendingNew)
    else if v == "B" then Some(Calculated)
    else if v == "C" then Some(Expired)
    else if v == "D" then Some(AcceptedForBidding)
    else if v == "E" then Some(PendingReplace)
    else None
  }

  /** Values and members are in one-to-one correspondence: the values are
      pairwise distinct, and looking a value up gives its member back. */
  lemma OrdStatusValues(s: OrdStatus, v: string)
    ensures OrdStatusOf(s.Value()) == Some(s)
    ensures OrdStatusOf(v).Some? ==> OrdStatusOf(v).value.Value() == v
    ensures forall t: OrdStatus :: t.Value() == s.Value() ==> t == s
  {
  }

  /** An entry of `categories_needed`: an `OrdStatus` member or a plain value. */
  datatype Category = Member(status: OrdStatus) | Plain(value: string)

  /** Tag 39 is OrdStatus. */
  const OrderStatusTag: string := "39"

  /** `f'{order_status_tag}={value}'`, with an enum member replaced by its value. */
  function ReportKey(c: Category): string
  {
    OrderStatusTag + "=" + (match c case Member(s) => s.Value() case Plain(v) => v)
  }

  /** The counts after one log line: the last field that starts with "39=",
      if the line is an Execution Report and that field is a report key,
      has its count raised by one. */
  function Step(report: map<string, nat>, message: string): map<string, nat>
  {
    if !IsExecutionReport(message) then report
    else
      var fields := Fields(message);
      match LastWithPrefix(fields, OrderStatusTag + "=")
      case None => report
      case Some(i) =>
        if fields[i] in report then report[fields[i] := report[fields[i]] + 1] else report
  }

  /** The counts after the lines of one file, in order. */
  function ProcessLines(report: map<string, nat>, lines: seq<string>): map<string, nat>
    decreases |lines|
  {
    if |lines| == 0 then report
    else Step(ProcessLines(report, lines[..|lines| - 1]), lines[|lines| - 1])
  }

  /** The counts after every line of every file, files in the given order;
      `read` gives the lines of a file (`readlines()`). */
  function ProcessFiles(report: map<string, nat>, files: seq<string>, read: string -> seq<string>): map<string, nat>
    decreases |files|
  {
    if |files| == 0 then report
    else ProcessLines(ProcessFiles(report, files[..|files| - 1], read), read(files[|files| - 1]))
  }

  class OrderStatusAnalyzer {
    const executionReportTag: string := ExecutionReportTag
    const orderStatusTag: string := OrderStatusTag
    /** Report key ("39=<value>") to number of messages counted. */
    var report: map<string, nat>

    /** `__init__`: one key per requested category, every count zero. */
    constructor (categoriesNeeded: seq<Category>)
      ensures report.Keys == set c | c in categoriesNeeded :: ReportKey(c)
      ensures forall k :: k in report ==> report[k] == 0
    {
      var r: map<string, nat> := map[];
      for i := 0 to |categoriesNeeded|
        invariant r.Keys == set c | c in categoriesNeeded[..i] :: ReportKey(c)
        invariant forall k :: k in r ==> r[k] == 0
      {
        var value := match categoriesNeeded[i] case Member(s) => s.Value() case Plain(v) => v;
        r := r[orderStatusTag + "=" + value := 0];
        assert ReportKey(categoriesNeeded[i]) == orderStatusTag + "=" + value;
        assert categoriesNeeded[..i + 1] == categoriesNeeded[..i] + [categoriesNeeded[i]];
        assert (set c | c in categoriesNeeded[..i + 1] :: ReportKey(c)) ==
          (set c | c in categoriesNeeded[..i] :: ReportKey(c)) + {ReportKey(categoriesNeeded[i])};
      }
      assert categoriesNeeded[..|categoriesNeeded|] == categoriesNeeded;
      report := r;
    }

    /** The body of `execute_report`'s loop for one message: the window
        test, the split on SOH and the backward scan for "39=". */
    method ProcessMessage(message: string)
      modifies this
      ensures report == Step(old(report), message)
    {
      var endIndex := Min(StartIndex * 2, |message| - 1);
      var messageBeginning := Slice(message, StartIndex, endIndex);
      if IsInfix(executionReportTag, messageBeginning) {
        var tagList := Split(message, Delimiter);
        var prefix := orderStatusTag + "=";
        var index := |tagList| - 1;
        ghost var done := false;
        while index > -1
          invariant -1 <= index < |tagList|
          invariant !done ==>
            report == old(report) && LastWithPrefix(tagList[..index + 1], prefix) == LastWithPrefix(tagList, prefix)
          invariant done ==> index == -1 && report == Step(old(report), message)
          decreases index + 1
        {
          var tag := tagList[index];
          PrefixSliceTest(tag, prefix);
          if Slice(tag, 0, 3) != prefix {
            assert tagList[..index + 1][..index] == tagList[..index];
            index := index - 1;
          } else {
            index := -1;
            done := true;
            if tag in report {
              report := report[tag := report[tag] + 1];
            }
          }
        }
      }
    }

    /** `execute_report`: every line of every selected log file, in order;
        `read` stands for opening a file and reading its lines. */
    method ExecuteReport(listing: seq<string>, read: string -> seq<string>) returns (r: map<string, nat>)
      modifies this
      ensures report == ProcessFiles(old(report), FixMixins.SelectLogFiles(listing), read)
      ensures r == report
    {
      var filenames := FixMixins.GetFilenames(listing);
      for i := 0 to |filenames|
        invariant report == ProcessFiles(old(report), filenames[..i], read)
      {
        var lines := read(filenames[i]);
        ghost var before := report;
        for j := 0 to |lines|
          invariant report == ProcessLines(before, lines[..j])
        {
          ProcessMessage(lines[j]);
          assert lines[..j + 1][..j] == lines[..j];
        }
        assert lines[..|lines|] == lines;
        assert filenames[..i + 1][..i] == filenames[..i];
      }
      assert filenames[..|filenames|] == filenames;
      r := report;
    }
  }

  /** One message never changes the set of report keys. */
  lemma StepKeepsKeys(report: map<string, nat>, message: string)
    ensures Step(report, message).Keys == report.Keys
  {
  }

  /** An Execution Report whose last "39=" field is `Fields(message)[i]` adds
      one to that field's count when it is a report key, and nothing else;
      earlier "39=" fields of the message play no part. */
  lemma StepCountsLastStatus(report: map<string, nat>, message: string, i: nat)
    requires IsExecutionReport(message)
    requires IsLastWithPrefix(Fields(message), "39=", i)
    ensures var tag := Fields(message)[i];
      Step(report, message) == if tag in report then report[tag := report[tag] + 1] else report
  {
    assert LastWithPrefix(Fields(message), OrderStatusTag + "=") == Some(i);
  }

  /** A line that fails the window test, or has no "39=" field, changes nothing. */
  lemma StepIgnoresOtherMessages(report: map<string, nat>, message: string)
    requires !IsExecutionReport(message) ||
      forall j :: 0 <= j < |Fields(message)| ==> !StartsWith(Fields(message)[j], "39=")
    ensures Step(report, message) == report
  {
    if IsExecutionReport(message) {
      var fields := Fields(message);
      var found := LastWithPrefix(fields, OrderStatusTag + "=");
      if found.Some? {
        assert StartsWith(fields[found.value], "39=");
      }
    }
  }

  /** One message raises at most one count, by exactly one. */
  lemma StepRaisesAtMostOne(report: map<string, nat>, message: string)
    ensures Step(report, message) == report ||
      exists k :: k in report && Step(report, message) == report[k := report[k] + 1]
  {
  }

  /** Over any lines, the keys stay the same and no count ever decreases;
      each count grows by at most the number of lines. */
  lemma {:induction false} ProcessLinesMonotone(report: map<string, nat>, lines: seq<string>)
    ensures ProcessLines(report, lines).Keys == report.Keys
    ensures forall k :: k in report ==>
      report[k] <= ProcessLines(report, lines)[k] <= report[k] + |lines|
    decreases |lines|
  {
    if |lines| > 0 {
      var before := ProcessLines(report, lines[..|lines| - 1]);
      ProcessLinesMonotone(report, lines[..|lines| - 1]);
      StepRaisesAtMostOne(before, lines[|lines| - 1]);
    }
  }

  /** Over any files, the keys stay the same and no count ever decreases. */
  lemma {:induction false} ProcessFilesMonotone(report: map<string, nat>, files: seq<string>, read: string -> seq<string>)
    ensures ProcessFiles(report, files, read).Keys == report.Keys
    ensures forall k :: k in report ==> report[k] <= ProcessFiles(report, files, read)[k]
    decreases |files|
  {
    if |files| > 0 {
      var before := ProcessFiles(report, files[..|files| - 1], read);
      ProcessFilesMonotone(report, files[..|files| - 1], read);
      ProcessLinesMonotone(before, read(files[|files| - 1]));
    }
  }
}
