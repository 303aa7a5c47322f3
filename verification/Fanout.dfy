/** The fan-out decision of packages/domain/src/automatic-enrichment-policy.ts. */
module Fanout {
  import opened Collections

  datatype Decision = QueueColumns(columnIds: seq<nat>) | Blocked(candidateCount: nat, limit: nat)

  /** [...new Set(candidates)]: first occurrences, in order. */
  function Deduplicate(s: seq<nat>): (r: seq<nat>)
    ensures Elements(r) == Elements(s) && Distinct(r)
  {
    if s == [] then []
    else
      var rest := Deduplicate(s[..|s| - 1]);
      assert Elements(s) == Elements(s[..|s| - 1]) + {s[|s| - 1]};
      if s[|s| - 1] in rest then rest else rest + [s[|s| - 1]]
  }

  /** The whole fan-out is queued in ascending order, or none of it: whatever
      order or repetition the query produced, the limit is compared with the
      number of different columns. */
  function DecideAutomaticFanout(candidates: seq<nat>, maximumRuns: nat): (decision: Decision)
    ensures decision.Blocked? <==> |Elements(candidates)| > maximumRuns
    ensures decision.Blocked? ==> decision.candidateCount == |Elements(candidates)| && decision.limit == maximumRuns
    ensures decision.QueueColumns? ==>
      Ascending(decision.columnIds) && Elements(decision.columnIds) == Elements(candidates)
  {
    var columnIds := Sort(Deduplicate(candidates));
    SortElements(Deduplicate(candidates));
    SortAscends(Deduplicate(candidates));
    DistinctCount(columnIds);
    if |columnIds| > maximumRuns then Blocked(|columnIds|, maximumRuns) else QueueColumns(columnIds)
  }
}
