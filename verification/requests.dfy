/** One request's contribution to the shared response list, and the list
    the run ends with.

  The transport is not modelled: what it did with one request is an input.
  A received response (after its body was read) is recorded with the time
  elapsed since the request started; an `aiohttp.ClientError` or any other
  `Exception` is recorded as the exception itself. An exception that does
  not derive from `Exception` (task cancellation, a keyboard interrupt) is
  not caught: it appends nothing and ends the run before any report.
 */
module Requests {
  import opened Outcomes
  import opened Options
  import opened Selection
  import opened Tally

  datatype Transport =
    | Answered(status: int, finishedAt: real)
    | ClientFailure(kind: string)
    | OtherFailure(kind: string)
    | Interrupted(kind: string)

  /** One request task: the clock reading taken when it started, and what
      the transport did. */
  datatype Call = Call(startedAt: real, transport: Transport)

  /** The response list after some tasks have completed, or the uncaught
      exception that ended the run. */
  datatype Completion = Recorded(log: seq<Outcome>) | Propagated(kind: string)

  /** The entry a call leaves in the list, if it leaves one. */
  function Entry(c: Call): Option<Outcome>
  {
    match c.transport
    case Answered(status, finishedAt) => Some(Response(status, finishedAt - c.startedAt))
    case ClientFailure(kind) => Some(Error(kind))
    case OtherFailure(kind) => Some(Error(kind))
    case Interrupted(_) => None
  }

  /** One request task appending to the shared response list. */
  function MakeRequest(log: seq<Outcome>, c: Call): (r: Completion)
    ensures r.Recorded? <==> !c.transport.Interrupted?
    ensures r.Recorded? ==> |r.log| == |log| + 1 && r.log[..|log|] == log
    ensures r.Recorded? ==> (r.log[|log|].Response? <==> c.transport.Answered?)
    ensures r.Recorded? && c.transport.Answered? ==>
      r.log[|log|] == Response(c.transport.status, c.transport.finishedAt - c.startedAt)
    ensures r.Recorded? && !c.transport.Answered? ==> r.log[|log|] == Error(c.transport.kind)
    ensures r.Propagated? ==> r.kind == c.transport.kind
  {
    match c.transport
    case Answered(status, finishedAt) =>
      Recorded(log + [Response(status, finishedAt - c.startedAt)])
    case ClientFailure(kind) =>
      Recorded(log + [Error(kind)])
    case OtherFailure(kind) =>
      Recorded(log + [Error(kind)])
    case Interrupted(kind) =>
      Propagated(kind)
  }

  /** The tasks completing in the order of `calls`, each appending to the
      list; the first uncaught exception ends the run. */
  function Gather(log: seq<Outcome>, calls: seq<Call>): (r: Completion)
    ensures r.Recorded? <==> forall i :: 0 <= i < |calls| ==> !calls[i].transport.Interrupted?
    ensures r.Recorded? ==> r.log == log + Select(calls, Entry)
    ensures r.Recorded? ==> |r.log| == |log| + |calls|
    decreases |calls|
  {
    if calls == [] then Recorded(log)
    else
      match MakeRequest(log, calls[0])
      case Propagated(kind) => Propagated(kind)
      case Recorded(next) =>
        var rest := calls[1..];
        assert next == log + Emit(Entry(calls[0]));
        assert Select(calls, Entry) == Emit(Entry(calls[0])) + Select(rest, Entry);
        var r := Gather(next, rest);
        assert (forall i :: 0 <= i < |calls| ==> !calls[i].transport.Interrupted?) <==>
          !calls[0].transport.Interrupted? &&
          forall j :: 0 <= j < |rest| ==> !rest[j].transport.Interrupted?
        by {
          assert forall j :: 0 <= j < |rest| ==> rest[j] == calls[j + 1];
        }
        r
  }

  /** The status a call was answered with, if any. */
  function Answer(c: Call): Option<int>
  {
    if c.transport.Answered? then Some(c.transport.status) else None
  }

  /** Every task of a run leaves exactly one entry, so the report's total
      is the number of requests, and its errors are the failed requests. */
  lemma {:induction false} OneEntryPerCall(calls: seq<Call>)
    requires Gather([], calls).Recorded?
    ensures |Gather([], calls).log| == |calls|
    ensures Fold(Gather([], calls).log).errorCount == |calls| - |Select(calls, Answer)|
  {
    var log := Gather([], calls).log;
    ErrorsAreNonResponses(log);
    AnswersAreResponses(calls);
  }

  /** The responses in the list are the answered calls, in order. */
  lemma {:induction false} AnswersAreResponses(calls: seq<Call>)
    requires forall i :: 0 <= i < |calls| ==> !calls[i].transport.Interrupted?
    ensures Select(Select(calls, Entry), AnyStatus) == Select(calls, Answer)
    decreases |calls|
  {
    if calls != [] {
      var c := calls[0];
      assert forall i :: 0 <= i < |calls[1..]| ==> calls[1..][i] == calls[i + 1];
      AnswersAreResponses(calls[1..]);
      SelectAppend(Emit(Entry(c)), Select(calls[1..], Entry), AnyStatus);
      assert [Entry(c).value][1..] == [];
    }
  }

  /** The tasks may complete in any order: every completion order of the
      same requests yields the same tally. */
  lemma {:induction false} CompletionOrderIrrelevant(calls: seq<Call>, order: seq<Call>)
    requires multiset(calls) == multiset(order)
    requires Gather([], calls).Recorded?
    ensures Gather([], order).Recorded?
    ensures SameTally(Fold(Gather([], calls).log), Fold(Gather([], order).log))
  {
    forall i | 0 <= i < |order|
      ensures !order[i].transport.Interrupted?
    {
      assert order[i] in multiset(calls);
    }
    SelectPermutation(calls, order, Entry);
    assert Gather([], calls).log == Select(calls, Entry);
    assert Gather([], order).log == Select(order, Entry);
    OrderIndependent(Select(calls, Entry), Select(order, Entry));
  }
}
