/** What the printed report is computed from, and when each part of it is
    shown.

  The totals come straight from the tally. The success rate and the overall
  latency statistics are shown only when some response was counted; the
  success-only statistics only when, in addition, some response was a
  success. The averages and percentiles themselves are floating-point
  arithmetic and are not modelled: what is modelled is which sample they are
  taken over and that it is never empty.
 */
module Report {
  import opened Outcomes
  import opened Options
  import opened Selection
  import opened Tally

  datatype Summary = Summary(total: nat, counters: Counters)

  /** The numbers the report prints first: the list's length, and the tally. */
  function Summarize(responses: seq<Outcome>): (r: Summary)
    ensures r.total == |responses|
    ensures r.counters == Expected(responses)
    ensures r.total == r.counters.errorCount + r.counters.responseCount + UnknownCount(responses)
    ensures r.counters.errorCount == r.total - |Select(responses, AnyStatus)|
  {
    FoldMatchesSelection(responses);
    FiveWayPartition(responses);
    ErrorsAreNonResponses(responses);
    Summary(|responses|, Fold(responses))
  }

  /** The fraction of counted responses that were successes, shown only
      when some response was counted. */
  function SuccessRate(responses: seq<Outcome>): (rate: Option<real>)
    ensures rate.Some? <==> Fold(responses).responseCount > 0
    ensures rate.Some? ==>
      rate.value == Fold(responses).successCount as real / Fold(responses).responseCount as real
    ensures rate.Some? ==> 0.0 <= rate.value <= 1.0
    ensures rate.Some? ==>
      (rate.value == 1.0 <==> Fold(responses).clientErrorCount + Fold(responses).serverErrorCount == 0)
    ensures rate.Some? ==> (rate.value == 0.0 <==> Fold(responses).successCount == 0)
  {
    var c := Fold(responses);
    FoldConsistent(responses);
    if c.responseCount > 0 then
      RatioBounds(c.successCount, c.responseCount);
      Some(c.successCount as real / c.responseCount as real)
    else
      None
  }

  /** When every request got a success status, the success rate is one
      and the success-only sample is the whole sample. */
  lemma {:induction false} AllSucceeded(responses: seq<Outcome>)
    requires |responses| > 0
    requires forall i :: 0 <= i < |responses| ==>
      responses[i].Response? && 200 <= responses[i].status < 400
    ensures SuccessRate(responses) == Some(1.0)
    ensures SuccessSample(responses) == OverallSample(responses)
  {
    FoldMatchesSelection(responses);
    AllSuccessesSelected(responses);
  }

  lemma {:induction false} AllSuccessesSelected(responses: seq<Outcome>)
    requires forall i :: 0 <= i < |responses| ==>
      responses[i].Response? && 200 <= responses[i].status < 400
    ensures Select(responses, SuccessLatency) == Select(responses, CountedLatency)
    ensures |Select(responses, SuccessStatus)| == |Select(responses, CountedStatus)| == |responses|
    ensures |Select(responses, ClientErrorStatus)| == |Select(responses, ServerErrorStatus)| == 0
    decreases |responses|
  {
    if responses != [] {
      AllSuccessesSelected(responses[1..]);
    }
  }

  /** A part over a non-zero whole is a fraction in [0,1], at the ends
      exactly when the part is empty or whole. */
  lemma RatioBounds(part: nat, whole: nat)
    requires part <= whole
    requires 0 < whole
    ensures 0.0 <= part as real / whole as real <= 1.0
    ensures part as real / whole as real == 1.0 <==> part == whole
    ensures part as real / whole as real == 0.0 <==> part == 0
  {
  }

  /** The latencies the overall average and percentiles are taken over,
      when the report shows them. */
  function OverallSample(responses: seq<Outcome>): (sample: Option<seq<Latency>>)
    ensures sample.Some? <==> Fold(responses).responseCount > 0
    ensures sample.Some? ==> sample.value == Select(responses, CountedLatency)
    ensures sample.Some? ==> |sample.value| == Fold(responses).responseCount > 0
    ensures sample.Some? ==> forall latency :: latency in sample.value ==>
      exists i :: 0 <= i < |responses| && CountedLatency(responses[i]) == Some(latency)
  {
    var c := Fold(responses);
    FoldConsistent(responses);
    if c.responseCount > 0 then
      FoldMatchesSelection(responses);
      SelectMemberAll(responses, CountedLatency);
      Some(c.latencies)
    else
      None
  }

  /** The latencies the success-only average and percentiles are taken
      over. The source tests for a success inside the test for any counted
      response; a success alone decides it. */
  function SuccessSample(responses: seq<Outcome>): (sample: Option<seq<Latency>>)
    ensures sample.Some? <==> Fold(responses).successCount > 0
    ensures sample.Some? ==> OverallSample(responses).Some?
    ensures sample.Some? ==> sample.value == Select(responses, SuccessLatency)
    ensures sample.Some? ==> |sample.value| == Fold(responses).successCount > 0
    ensures sample.Some? ==> multiset(sample.value) <= multiset(OverallSample(responses).value)
    ensures sample.Some? ==> forall latency :: latency in sample.value ==>
      exists i :: 0 <= i < |responses| && SuccessLatency(responses[i]) == Some(latency)
  {
    var c := Fold(responses);
    FoldConsistent(responses);
    if c.responseCount > 0 && c.successCount > 0 then
      FoldMatchesSelection(responses);
      SelectMemberAll(responses, SuccessLatency);
      Some(c.successLatencies)
    else
      None
  }
}
