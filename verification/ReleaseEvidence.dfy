/** Three-valued release evidence and its counts. */
module ReleaseEvidence {

  datatype Status = Passed | Failed | Unavailable

  datatype Counts = Counts(passed: nat, failed: nat, unavailable: nat, total: nat)

  function CountOf(statuses: seq<Status>, s: Status): nat {
    if statuses == [] then 0 else (if statuses[0] == s then 1 else 0) + CountOf(statuses[1..], s)
  }

  /** `evidence_counts` */
  function CountsOf(statuses: seq<Status>): Counts {
    Counts(CountOf(statuses, Passed), CountOf(statuses, Failed), CountOf(statuses, Unavailable), |statuses|)
  }

  /** `evidence_status` */
  function StatusOf(counts: Counts): Status {
    if counts.failed != 0 then Failed else if counts.unavailable != 0 then Unavailable else Passed
  }

  /** The precedence most roll-ups spell out over sets: any failure, then anything missing. */
  function Worst(failed: bool, unavailable: bool): Status {
    if failed then Failed else if unavailable then Unavailable else Passed
  }

  lemma {:induction false} CountOfPositive(statuses: seq<Status>, s: Status)
    ensures CountOf(statuses, s) > 0 <==> s in statuses
  {
    if statuses != [] {
      CountOfPositive(statuses[1..], s);
      assert statuses == [statuses[0]] + statuses[1..];
    }
  }

  /** Counts partition their total, and the derived status is the worst one present. */
  lemma {:induction false} CountsSummarize(statuses: seq<Status>)
    ensures var c := CountsOf(statuses); c.total == c.passed + c.failed + c.unavailable
    ensures StatusOf(CountsOf(statuses)) == Worst(Failed in statuses, Unavailable in statuses)
  {
    CountOfPositive(statuses, Failed);
    CountOfPositive(statuses, Unavailable);
    if statuses != [] {
      CountsSummarize(statuses[1..]);
    }
  }
}
