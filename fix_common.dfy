/**
 * Settings of the FIX 4.2 log reports and the message tests that both FIX
 * scripts repeat: the fixed character window in which the MsgType tag of an
 * Execution Report (`35=8`) is looked for, the split of a log line into
 * `tag=value` fields on SOH, and the backward search for the last field with
 * a given tag prefix.
 */
module FixSettings {
  /** What the log file names start with. */
  const FilenamePrefix: string := "FIX.4.2-CME-"
  const FileType: string := ".log"

  /** The useful fields of a message start at this character index. */
  const StartIndex: nat := 34

  /** SOH, the FIX field separator. */
  const Delimiter: char := '\U{1}'

  /** MsgType (tag 35) = 8, Execution Report. */
  const ExecutionReportTag: string := "35=8"
}

module FixMessage {
  import opened Wrappers
  import opened PyStr
  import opened FixSettings

  /** `message[START_INDEX: min([START_INDEX * 2, len(message) - 1])]`. */
  function Window(message: string): string
  {
    Slice(message, StartIndex, Min(StartIndex * 2, |message| - 1))
  }

  /** The test `'35=8' in message_beginning` both scripts apply first. */
  predicate IsExecutionReport(message: string)
  {
    IsInfix(ExecutionReportTag, Window(message))
  }

  /** `35=8` starts at index `i`, inside the window: at or after index 34, ending
      by index 68, and not reaching the message's last character. */
  predicate ReportTagAt(message: string, i: int)
  {
    StartIndex <= i && i + |ExecutionReportTag| <= StartIndex * 2 &&
    i + |ExecutionReportTag| < |message| && OccursAt(ExecutionReportTag, message, i)
  }

  /** The window is `message[34..e]` for `e = min(68, len(message) - 1)`,
      or empty when that range is. */
  lemma WindowRange(message: string) returns (e: int)
    ensures e == Min(StartIndex * 2, |message| - 1)
    ensures StartIndex < e ==> e < |message| && Window(message) == message[StartIndex..e]
    ensures e <= StartIndex ==> Window(message) == []
  {
    e := Min(StartIndex * 2, |message| - 1);
  }

  /** The window test holds exactly when `35=8` occurs inside the window;
      in particular a message of 38 characters or fewer never passes. */
  lemma ExecutionReportWindow(message: string)
    ensures IsExecutionReport(message) <==> exists i :: ReportTagAt(message, i)
    ensures |message| <= StartIndex + |ExecutionReportTag| ==> !IsExecutionReport(message)
  {
    var tag := ExecutionReportTag;
    var w := Window(message);
    var e := WindowRange(message);
    InfixOccurs(tag, w);
    assert |tag| == 4;
    if StartIndex < e {
      assert w == message[StartIndex..e];
      if IsExecutionReport(message) {
        var j :| OccursAt(tag, w, j);
        assert w[j..j + |tag|] == message[StartIndex + j..StartIndex + j + |tag|];
        assert ReportTagAt(message, StartIndex + j);
      }
      if exists i :: ReportTagAt(message, i) {
        var i :| ReportTagAt(message, i);
        var j := i - StartIndex;
        assert w[j..j + |tag|] == message[i..i + |tag|];
        assert OccursAt(tag, w, j);
      }
    } else {
      assert forall j :: !OccursAt(tag, w, j);
    }
  }

  /** The fields of a log line: `re.split(DELIMITER, message)`. */
  function Fields(message: string): seq<string>
  {
    Split(message, Delimiter)
  }

  /** Field `i` is the last one that starts with `p`. */
  predicate IsLastWithPrefix(fields: seq<string>, p: string, i: int)
  {
    0 <= i < |fields| && StartsWith(fields[i], p) &&
    forall j :: i < j < |fields| ==> !StartsWith(fields[j], p)
  }

  /** The backward scan: the highest index whose field starts with `p`. */
  function LastWithPrefix(fields: seq<string>, p: string): (r: Option<nat>)
    ensures r.Some? ==> IsLastWithPrefix(fields, p, r.value)
    ensures r.None? ==> forall j :: 0 <= j < |fields| ==> !StartsWith(fields[j], p)
    decreases |fields|
  {
    if |fields| == 0 then None
    else if StartsWith(fields[|fields| - 1], p) then Some(|fields| - 1)
    else LastWithPrefix(fields[..|fields| - 1], p)
  }
}
