/** Reports and their counters (kodi_addon_checker/report.py). */
module Reports {

  import opened Records
  import opened Reporters

  /** The counter of a report that a record with this level increments:
      anything that is neither `PROBLEM` nor `WARNING` counts as information. */
  datatype Counter = Problems | Warnings | Informations

  function CounterOf(logLevel: string): (c: Counter)
    ensures c == Problems <==> logLevel == PROBLEM
    ensures c == Warnings <==> logLevel == WARNING
    ensures c == Informations <==> logLevel != PROBLEM && logLevel != WARNING
  {
    LevelsDistinct();
    if logLevel == PROBLEM then Problems
    else if logLevel == WARNING then Warnings
    else Informations
  }

  class Report {
    const artifactName: string
    var problemCount: nat
    var warningCount: nat
    var informationCount: nat

    /** `Report(artifact_name)`: a named report with all counts at zero. */
    constructor (artifactName: string)
      ensures this.artifactName == artifactName
      ensures problemCount == 0 && warningCount == 0 && informationCount == 0
    {
      this.artifactName := artifactName;
      problemCount := 0;
      warningCount := 0;
      informationCount := 0;
    }

    function Total(): nat
      reads this
    {
      problemCount + warningCount + informationCount
    }

    /** `report.add(record)`: the record is handed to every enabled
        reporter (the returned list, in registration order), and exactly the
        counter its level selects goes up by one. */
    method AddRecord(record: Record, manager: ReportManager) returns (forwarded: seq<Reporter>)
      requires manager.Valid()
      modifies this
      ensures forwarded == manager.EnabledReporters()
      ensures problemCount == old(problemCount) + (if CounterOf(record.logLevel) == Problems then 1 else 0)
      ensures warningCount == old(warningCount) + (if CounterOf(record.logLevel) == Warnings then 1 else 0)
      ensures informationCount == old(informationCount) + (if CounterOf(record.logLevel) == Informations then 1 else 0)
      ensures Total() == old(Total()) + 1
    {
      forwarded := [];
      var enabled := manager.EnabledReporters();
      var i := 0;
      while i < |enabled|
        invariant 0 <= i <= |enabled|
        invariant forwarded == enabled[..i]
      {
        forwarded := forwarded + [enabled[i]];
        i := i + 1;
      }
      if PROBLEM == record.logLevel {
        problemCount := problemCount + 1;
      } else if WARNING == record.logLevel {
        warningCount := warningCount + 1;
      } else {
        informationCount := informationCount + 1;
      }
    }

    /** `report.add(sub_report)`: the sub-report's three counts are added to
        this report's counts and nothing is forwarded. A report added to
        itself doubles its counts. */
    method AddReport(sub: Report)
      modifies this
      ensures problemCount == old(problemCount) + old(sub.problemCount)
      ensures warningCount == old(warningCount) + old(sub.warningCount)
      ensures informationCount == old(informationCount) + old(sub.informationCount)
      ensures Total() == old(Total()) + old(sub.Total())
    {
      var p, w, n := sub.problemCount, sub.warningCount, sub.informationCount;
      problemCount := problemCount + p;
      warningCount := warningCount + w;
      informationCount := informationCount + n;
    }
  }

  /** What `report.add` receives: a record or another report. */
  datatype Item = RecordItem(record: Record) | ReportItem(report: Report)

  /** How much a counter of a report grows when `item` is added: one for
      the counter a record's level selects, the sub-report's own count for
      a report (taken before the call, so a report added to itself doubles). */
  function Increment(item: Item, c: Counter): nat
    reads if item.ReportItem? then {item.report} else {}
  {
    match item
    case RecordItem(record) => if CounterOf(record.logLevel) == c then 1 else 0
    case ReportItem(sub) =>
      match c
      case Problems => sub.problemCount
      case Warnings => sub.warningCount
      case Informations => sub.informationCount
  }

  /** `Report.add(item)`: the `isinstance(report, Record)` dispatch. Each
      counter grows by what the item brings to it, and only a record is
      handed to the enabled reporters. */
  method Add(report: Report, item: Item, manager: ReportManager) returns (forwarded: seq<Reporter>)
    requires manager.Valid()
    modifies report
    ensures report.problemCount == old(report.problemCount) + old(Increment(item, Problems))
    ensures report.warningCount == old(report.warningCount) + old(Increment(item, Warnings))
    ensures report.informationCount == old(report.informationCount) + old(Increment(item, Informations))
    ensures item.RecordItem? ==> forwarded == manager.EnabledReporters() && report.Total() == old(report.Total()) + 1
    ensures item.ReportItem? ==> forwarded == [] && report.Total() == old(report.Total()) + old(item.report.Total())
  {
    match item
    case RecordItem(record) =>
      forwarded := report.AddRecord(record, manager);
    case ReportItem(sub) =>
      report.AddReport(sub);
      forwarded := [];
  }

  /** The counts of a report after a sequence of records: how many records
      have each level. */
  function CountOf(records: seq<Record>, c: Counter): (n: nat)
    ensures n <= |records|
  {
    if records == [] then 0
    else (if CounterOf(records[0].logLevel) == c then 1 else 0) + CountOf(records[1..], c)
  }

  /** Every record lands in exactly one counter. */
  lemma {:induction false} CountsPartition(records: seq<Record>)
    ensures CountOf(records, Problems) + CountOf(records, Warnings) + CountOf(records, Informations) == |records|
  {
    if records != [] {
      CountsPartition(records[1..]);
    }
  }

  lemma {:induction false} CountOfAppend(records: seq<Record>, r: Record, c: Counter)
    ensures CountOf(records + [r], c) == CountOf(records, c) + (if CounterOf(r.logLevel) == c then 1 else 0)
  {
    if records == [] {
      assert records + [r] == [r];
    } else {
      assert (records + [r])[1..] == records[1..] + [r];
      CountOfAppend(records[1..], r, c);
    }
  }

  /** Adding records one at a time to a fresh report leaves in each counter
      the number of records with that level. */
  method AddAll(report: Report, records: seq<Record>, manager: ReportManager)
    requires manager.Valid()
    requires report.problemCount == 0 && report.warningCount == 0 && report.informationCount == 0
    modifies report
    ensures report.problemCount == CountOf(records, Problems)
    ensures report.warningCount == CountOf(records, Warnings)
    ensures report.informationCount == CountOf(records, Informations)
  {
    var i := 0;
    while i < |records|
      invariant 0 <= i <= |records|
      invariant report.problemCount == CountOf(records[..i], Problems)
      invariant report.warningCount == CountOf(records[..i], Warnings)
      invariant report.informationCount == CountOf(records[..i], Informations)
    {
      var _ := report.AddRecord(records[i], manager);
      assert records[..i + 1] == records[..i] + [records[i]];
      CountOfAppend(records[..i], records[i], Problems);
      CountOfAppend(records[..i], records[i], Warnings);
      CountOfAppend(records[..i], records[i], Informations);
      i := i + 1;
    }
    assert records[..|records|] == records;
  }
}
