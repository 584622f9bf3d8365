/** The one-pass tally of the response list that the report is printed from.

  `Fold` is the loop itself, visiting the entries front to back. `Expected`
  describes each counter independently, as a selection over the whole list;
  `FoldMatchesSelection` connects the two, and the remaining lemmas derive
  the report's counting properties from it.

  Each `Counter` of the source is a multiset here: a Python `Counter` counts
  occurrences of keys, and the sum of its values is the multiset's size.
 */
module Tally {
  import opened Outcomes
  import opened Options
  import opened Selection

  datatype Counters = Counters(
    errorCount: nat,
    errorCountByType: multiset<string>,
    responseCount: nat,
    successCount: nat,
    clientErrorCount: nat,
    serverErrorCount: nat,
    countByStatus: multiset<int>,
    latencies: seq<Latency>,
    successLatencies: seq<Latency>)

  const Initial := Counters(0, multiset{}, 0, 0, 0, 0, multiset{}, [], [])

  /** The bookkeeping every classified response shares. */
  function Record(c: Counters, status: int, latency: Latency): Counters
  {
    c.(responseCount := c.responseCount + 1,
       countByStatus := c.countByStatus + multiset{status},
       latencies := c.latencies + [latency])
  }

  /** One iteration of the loop over the response list. A response whose
      status is unknown leaves every counter untouched. */
  function Step(c: Counters, o: Outcome): Counters
  {
    match o
    case Error(kind) =>
      c.(errorCount := c.errorCount + 1,
         errorCountByType := c.errorCountByType + multiset{kind})
    case Response(status, latency) =>
      match Classify(status)
      case Success =>
        Record(c.(successCount := c.successCount + 1,
                  successLatencies := c.successLatencies + [latency]), status, latency)
      case ClientError =>
        Record(c.(clientErrorCount := c.clientErrorCount + 1), status, latency)
      case ServerError =>
        Record(c.(serverErrorCount := c.serverErrorCount + 1), status, latency)
      case Unknown => c
  }

  /** The relations between the counters that every pass of the loop keeps. */
  predicate Consistent(c: Counters)
  {
    && c.responseCount == c.successCount + c.clientErrorCount + c.serverErrorCount
    && |c.errorCountByType| == c.errorCount
    && |c.countByStatus| == c.responseCount
    && |c.latencies| == c.responseCount
    && |c.successLatencies| == c.successCount
    && (forall status :: status in c.countByStatus ==> 200 <= status < 600)
    && multiset(c.successLatencies) <= multiset(c.latencies)
  }

  /** One pass keeps the counters consistent and counts at most one entry. */
  lemma StepKeepsConsistent(c: Counters, o: Outcome)
    requires Consistent(c)
    ensures Consistent(Step(c, o))
    ensures Step(c, o).errorCount + Step(c, o).responseCount <= c.errorCount + c.responseCount + 1
  {
    match o
    case Error(_) =>
    case Response(status, _) =>
      match Classify(status)
      case Success =>
      case ClientError =>
      case ServerError =>
      case Unknown =>
  }

  /** The counters after the loop has visited every entry of `s`. */
  function Fold(s: seq<Outcome>): Counters
    decreases |s|
  {
    if s == [] then Initial else Step(Fold(s[..|s| - 1]), s[|s| - 1])
  }

  /** After any number of passes the counters are consistent, and at most
      one entry has been counted per pass. */
  lemma {:induction false} FoldConsistent(s: seq<Outcome>)
    ensures Consistent(Fold(s))
    ensures Fold(s).errorCount + Fold(s).responseCount <= |s|
    decreases |s|
  {
    if s != [] {
      FoldConsistent(s[..|s| - 1]);
      StepKeepsConsistent(Fold(s[..|s| - 1]), s[|s| - 1]);
    }
  }

  /** Visiting one more entry is one more `Step`. */
  lemma {:induction false} FoldNext(s: seq<Outcome>, i: nat)
    requires i < |s|
    ensures Fold(s[..i + 1]) == Step(Fold(s[..i]), s[i])
  {
    assert s[..i + 1][..i] == s[..i];
  }

  /** The loop as the report runs it: separate mutable counters, one pass,
      and `continue` past a response whose status is unknown. */
  method CountResponses(responses: seq<Outcome>) returns (c: Counters)
    ensures c == Fold(responses)
  {
    var errorCount: nat, errorCountByType := 0, multiset{};
    var responseCount: nat, successCount: nat, clientErrorCount: nat, serverErrorCount: nat := 0, 0, 0, 0;
    var countByStatus, latencies, successLatencies := multiset{}, [], [];
    var i := 0;
    while i < |responses|
      invariant i <= |responses|
      invariant Counters(errorCount, errorCountByType, responseCount, successCount, clientErrorCount,
                         serverErrorCount, countByStatus, latencies, successLatencies)
             == Fold(responses[..i])
    {
      var o := responses[i];
      FoldNext(responses, i);
      ghost var before := Fold(responses[..i]);
      if o.Response? {
        if 200 <= o.status < 400 {
          successCount := successCount + 1;
          successLatencies := successLatencies + [o.latency];
        } else if 400 <= o.status < 500 {
          clientErrorCount := clientErrorCount + 1;
        } else if 500 <= o.status < 600 {
          serverErrorCount := serverErrorCount + 1;
        } else {
          assert Step(before, o) == before;
          i := i + 1;
          continue;
        }
        responseCount := responseCount + 1;
        countByStatus := countByStatus + multiset{o.status};
        latencies := latencies + [o.latency];
      } else {
        errorCount := errorCount + 1;
        errorCountByType := errorCountByType + multiset{o.kind};
      }
      assert Counters(errorCount, errorCountByType, responseCount, successCount, clientErrorCount,
                      serverErrorCount, countByStatus, latencies, successLatencies)
          == Step(before, o);
      i := i + 1;
    }
    assert responses[..i] == responses;
    c := Counters(errorCount, errorCountByType, responseCount, successCount, clientErrorCount,
                  serverErrorCount, countByStatus, latencies, successLatencies);
  }

  // Selectors: what each counter picks out of a single entry.

  function ErrorKind(o: Outcome): Option<string>
  {
    if o.Error? then Some(o.kind) else None
  }

  function AnyStatus(o: Outcome): Option<int>
  {
    if o.Response? then Some(o.status) else None
  }

  function StatusIn(o: Outcome, wanted: StatusClass): Option<int>
  {
    if o.Response? && Classify(o.status) == wanted then Some(o.status) else None
  }

  function SuccessStatus(o: Outcome): Option<int> { StatusIn(o, Success) }
  function ClientErrorStatus(o: Outcome): Option<int> { StatusIn(o, ClientError) }
  function ServerErrorStatus(o: Outcome): Option<int> { StatusIn(o, ServerError) }
  function UnknownStatus(o: Outcome): Option<int> { StatusIn(o, Unknown) }

  function CountedStatus(o: Outcome): Option<int>
  {
    if o.Response? && Classify(o.status) != Unknown then Some(o.status) else None
  }

  function CountedLatency(o: Outcome): Option<Latency>
  {
    if o.Response? && Classify(o.status) != Unknown then Some(o.latency) else None
  }

  function SuccessLatency(o: Outcome): Option<Latency>
  {
    if o.Response? && Classify(o.status) == Success then Some(o.latency) else None
  }

  /** Each counter described on its own, over the whole list. */
  function Expected(s: seq<Outcome>): Counters
  {
    Counters(
      |Select(s, ErrorKind)|,
      multiset(Select(s, ErrorKind)),
      |Select(s, CountedStatus)|,
      |Select(s, SuccessStatus)|,
      |Select(s, ClientErrorStatus)|,
      |Select(s, ServerErrorStatus)|,
      multiset(Select(s, CountedStatus)),
      Select(s, CountedLatency),
      Select(s, SuccessLatency))
  }

  /** Responses with an unknown status: received, but in no counter. */
  function UnknownCount(s: seq<Outcome>): nat
  {
    |Select(s, UnknownStatus)|
  }

  /** How each described counter grows by one more entry; each counter is
      handled on its own to keep the proof small. */
  lemma {:induction false} ExpectedSnocFields(front: seq<Outcome>, x: Outcome)
    ensures var e, e' := Expected(front), Expected(front + [x]);
      && e'.errorCount == e.errorCount + |Emit(ErrorKind(x))|
      && e'.errorCountByType == e.errorCountByType + multiset(Emit(ErrorKind(x)))
      && e'.responseCount == e.responseCount + |Emit(CountedStatus(x))|
      && e'.countByStatus == e.countByStatus + multiset(Emit(CountedStatus(x)))
      && e'.successCount == e.successCount + |Emit(SuccessStatus(x))|
      && e'.clientErrorCount == e.clientErrorCount + |Emit(ClientErrorStatus(x))|
      && e'.serverErrorCount == e.serverErrorCount + |Emit(ServerErrorStatus(x))|
      && e'.latencies == e.latencies + Emit(CountedLatency(x))
      && e'.successLatencies == e.successLatencies + Emit(SuccessLatency(x))
  {
    var e, e' := Expected(front), Expected(front + [x]);
    assert e'.errorCount == e.errorCount + |Emit(ErrorKind(x))|
        && e'.errorCountByType == e.errorCountByType + multiset(Emit(ErrorKind(x))) by {
      SelectSnoc(front, x, ErrorKind);
    }
    assert e'.responseCount == e.responseCount + |Emit(CountedStatus(x))|
        && e'.countByStatus == e.countByStatus + multiset(Emit(CountedStatus(x))) by {
      SelectSnoc(front, x, CountedStatus);
    }
    assert e'.successCount == e.successCount + |Emit(SuccessStatus(x))| by {
      SelectSnoc(front, x, SuccessStatus);
    }
    assert e'.clientErrorCount == e.clientErrorCount + |Emit(ClientErrorStatus(x))| by {
      SelectSnoc(front, x, ClientErrorStatus);
    }
    assert e'.serverErrorCount == e.serverErrorCount + |Emit(ServerErrorStatus(x))| by {
      SelectSnoc(front, x, ServerErrorStatus);
    }
    assert e'.latencies == e.latencies + Emit(CountedLatency(x)) by {
      SelectSnoc(front, x, CountedLatency);
    }
    assert e'.successLatencies == e.successLatencies + Emit(SuccessLatency(x)) by {
      SelectSnoc(front, x, SuccessLatency);
    }
  }

  /** What one pass adds to each counter, in the selectors' terms. */
  lemma StepFields(c: Counters, x: Outcome)
    ensures var c' := Step(c, x);
      && c'.errorCount == c.errorCount + |Emit(ErrorKind(x))|
      && c'.errorCountByType == c.errorCountByType + multiset(Emit(ErrorKind(x)))
      && c'.responseCount == c.responseCount + |Emit(CountedStatus(x))|
      && c'.countByStatus == c.countByStatus + multiset(Emit(CountedStatus(x)))
      && c'.successCount == c.successCount + |Emit(SuccessStatus(x))|
      && c'.clientErrorCount == c.clientErrorCount + |Emit(ClientErrorStatus(x))|
      && c'.serverErrorCount == c.serverErrorCount + |Emit(ServerErrorStatus(x))|
      && c'.latencies == c.latencies + Emit(CountedLatency(x))
      && c'.successLatencies == c.successLatencies + Emit(SuccessLatency(x))
  {
    match x
    case Error(kind) =>
      assert Emit(ErrorKind(x)) == [kind];
    case Response(status, latency) =>
      assert Emit(ErrorKind(x)) == [];
      match Classify(status)
      case Success =>
        assert Emit(CountedStatus(x)) == Emit(SuccessStatus(x)) == [status];
        assert Emit(CountedLatency(x)) == Emit(SuccessLatency(x)) == [latency];
      case ClientError =>
        assert Emit(CountedStatus(x)) == Emit(ClientErrorStatus(x)) == [status];
        assert Emit(CountedLatency(x)) == [latency];
      case ServerError =>
        assert Emit(CountedStatus(x)) == Emit(ServerErrorStatus(x)) == [status];
        assert Emit(CountedLatency(x)) == [latency];
      case Unknown =>
        assert Emit(CountedStatus(x)) == [] && Emit(CountedLatency(x)) == [];
  }

  /** Describing one more entry is one more pass of the loop. */
  lemma {:induction false} ExpectedSnoc(front: seq<Outcome>, x: Outcome)
    ensures Expected(front + [x]) == Step(Expected(front), x)
  {
    var e, e' := Expected(front), Expected(front + [x]);
    ExpectedSnocFields(front, x);
    StepFields(e, x);
    var c' := Step(e, x);
    assert e' == Counters(c'.errorCount, c'.errorCountByType, c'.responseCount, c'.successCount,
                          c'.clientErrorCount, c'.serverErrorCount, c'.countByStatus,
                          c'.latencies, c'.successLatencies);
  }

  /** The loop computes every counter as its independent description says. */
  lemma {:induction false} FoldMatchesSelection(s: seq<Outcome>)
    ensures Fold(s) == Expected(s)
    decreases |s|
  {
    if s != [] {
      var front, x := s[..|s| - 1], s[|s| - 1];
      assert s == front + [x];
      FoldMatchesSelection(front);
      ExpectedSnoc(front, x);
    }
  }

  /** Every entry is exactly one of: an error, a counted response, a
      response with an unknown status. */
  lemma {:induction false} ClassesCover(s: seq<Outcome>)
    ensures |Select(s, ErrorKind)| + |Select(s, AnyStatus)| == |s|
    ensures |Select(s, AnyStatus)| == |Select(s, CountedStatus)| + |Select(s, UnknownStatus)|
    decreases |s|
  {
    if s != [] {
      ClassesCover(s[1..]);
    }
  }

  /** error_count + response_count + unknown responses == total_requests. */
  lemma {:induction false} FiveWayPartition(s: seq<Outcome>)
    ensures Fold(s).errorCount + Fold(s).responseCount + UnknownCount(s) == |s|
  {
    FoldMatchesSelection(s);
    ClassesCover(s);
  }

  /** error_count is the number of entries that are not responses. */
  lemma {:induction false} ErrorsAreNonResponses(s: seq<Outcome>)
    ensures Fold(s).errorCount == |s| - |Select(s, AnyStatus)|
  {
    FoldMatchesSelection(s);
    ClassesCover(s);
  }

  /** An error kind has a count exactly when some entry raised it. */
  lemma {:induction false} ErrorKindPresent(s: seq<Outcome>, kind: string)
    ensures kind in Fold(s).errorCountByType <==> exists i :: 0 <= i < |s| && s[i] == Error(kind)
  {
    FoldMatchesSelection(s);
    SelectMember(s, ErrorKind, kind);
    assert forall i :: 0 <= i < |s| ==> (ErrorKind(s[i]) == Some(kind) <==> s[i] == Error(kind));
  }

  /** Counted statuses are the response statuses that lie in [200,600). */
  lemma {:induction false} CountedStatusMultiplicity(s: seq<Outcome>, status: int)
    ensures multiset(Select(s, CountedStatus))[status]
         == if 200 <= status < 600 then multiset(Select(s, AnyStatus))[status] else 0
    decreases |s|
  {
    if s != [] {
      CountedStatusMultiplicity(s[1..], status);
    }
  }

  /** The status counter agrees with a count of every response's status,
      restricted to [200,600). */
  lemma {:induction false} StatusMultiplicity(s: seq<Outcome>, status: int)
    ensures Fold(s).countByStatus[status]
         == if 200 <= status < 600 then multiset(Select(s, AnyStatus))[status] else 0
  {
    FoldMatchesSelection(s);
    CountedStatusMultiplicity(s, status);
  }

  /** A status has a count exactly when it lies in [200,600) and some
      response carried it. */
  lemma {:induction false} StatusPresent(s: seq<Outcome>, status: int)
    ensures status in Fold(s).countByStatus
        <==> 200 <= status < 600 && exists i :: 0 <= i < |s| && s[i].Response? && s[i].status == status
  {
    StatusMultiplicity(s, status);
    SelectMember(s, AnyStatus, status);
    assert forall i :: 0 <= i < |s| ==>
      (AnyStatus(s[i]) == Some(status) <==> s[i].Response? && s[i].status == status);
  }

  /** The independent description ignores an entry no selector picks;
      each counter is handled on its own to keep the proof small. */
  lemma {:induction false} ExpectedIgnores(front: seq<Outcome>, back: seq<Outcome>, x: Outcome)
    requires x.Response? && Classify(x.status) == Unknown
    ensures Expected(front + [x] + back) == Expected(front + back)
  {
    var e, e' := Expected(front + back), Expected(front + [x] + back);
    assert e'.errorCount == e.errorCount && e'.errorCountByType == e.errorCountByType by {
      SelectIgnores(front, back, x, ErrorKind);
    }
    assert e'.responseCount == e.responseCount && e'.countByStatus == e.countByStatus by {
      SelectIgnores(front, back, x, CountedStatus);
    }
    assert e'.successCount == e.successCount by {
      SelectIgnores(front, back, x, SuccessStatus);
    }
    assert e'.clientErrorCount == e.clientErrorCount by {
      SelectIgnores(front, back, x, ClientErrorStatus);
    }
    assert e'.serverErrorCount == e.serverErrorCount by {
      SelectIgnores(front, back, x, ServerErrorStatus);
    }
    assert e'.latencies == e.latencies by {
      SelectIgnores(front, back, x, CountedLatency);
    }
    assert e'.successLatencies == e.successLatencies by {
      SelectIgnores(front, back, x, SuccessLatency);
    }
  }

  /** A response with an unknown status, wherever it sits in the list,
      leaves the whole tally as it would be without it. */
  lemma {:induction false} UnknownStatusSkipped(front: seq<Outcome>, back: seq<Outcome>, status: int, latency: Latency)
    requires Classify(status) == Unknown
    ensures Fold(front + [Response(status, latency)] + back) == Fold(front + back)
  {
    ExpectedIgnores(front, back, Response(status, latency));
    FoldMatchesSelection(front + [Response(status, latency)] + back);
    FoldMatchesSelection(front + back);
  }

  /** When every request failed the same way, every entry is an error and
      the breakdown by type has that one kind, counted once per request. */
  lemma {:induction false} AllFailedAlike(s: seq<Outcome>, kind: string)
    requires forall i :: 0 <= i < |s| ==> s[i] == Error(kind)
    ensures Fold(s).errorCount == |s|
    ensures Fold(s).responseCount == 0
    ensures Fold(s).errorCountByType == multiset{}[kind := |s|]
    decreases |s|
  {
    if s != [] {
      AllFailedAlike(s[..|s| - 1], kind);
    }
  }

  /** Two tallies agree on every counter, and on the latencies as multisets. */
  predicate SameTally(a: Counters, b: Counters)
  {
    && a.errorCount == b.errorCount
    && a.errorCountByType == b.errorCountByType
    && a.responseCount == b.responseCount
    && a.successCount == b.successCount
    && a.clientErrorCount == b.clientErrorCount
    && a.serverErrorCount == b.serverErrorCount
    && a.countByStatus == b.countByStatus
    && multiset(a.latencies) == multiset(b.latencies)
    && multiset(a.successLatencies) == multiset(b.successLatencies)
  }

  /** The tally does not depend on the order the entries were appended in. */
  lemma {:induction false} OrderIndependent(s: seq<Outcome>, t: seq<Outcome>)
    requires multiset(s) == multiset(t)
    ensures SameTally(Fold(s), Fold(t))
  {
    FoldMatchesSelection(s);
    FoldMatchesSelection(t);
    var a, b := Expected(s), Expected(t);
    assert a.errorCount == b.errorCount && a.errorCountByType == b.errorCountByType by {
      SelectPermutation(s, t, ErrorKind);
      assert |Select(s, ErrorKind)| == |multiset(Select(s, ErrorKind))|;
      assert |Select(t, ErrorKind)| == |multiset(Select(t, ErrorKind))|;
    }
    assert a.responseCount == b.responseCount && a.countByStatus == b.countByStatus by {
      SelectPermutation(s, t, CountedStatus);
      assert |Select(s, CountedStatus)| == |multiset(Select(s, CountedStatus))|;
      assert |Select(t, CountedStatus)| == |multiset(Select(t, CountedStatus))|;
    }
    assert a.successCount == b.successCount by {
      SelectPermutation(s, t, SuccessStatus);
      assert |Select(s, SuccessStatus)| == |multiset(Select(s, SuccessStatus))|;
      assert |Select(t, SuccessStatus)| == |multiset(Select(t, SuccessStatus))|;
    }
    assert a.clientErrorCount == b.clientErrorCount by {
      SelectPermutation(s, t, ClientErrorStatus);
      assert |Select(s, ClientErrorStatus)| == |multiset(Select(s, ClientErrorStatus))|;
      assert |Select(t, ClientErrorStatus)| == |multiset(Select(t, ClientErrorStatus))|;
    }
    assert a.serverErrorCount == b.serverErrorCount by {
      SelectPermutation(s, t, ServerErrorStatus);
      assert |Select(s, ServerErrorStatus)| == |multiset(Select(s, ServerErrorStatus))|;
      assert |Select(t, ServerErrorStatus)| == |multiset(Select(t, ServerErrorStatus))|;
    }
    assert multiset(a.latencies) == multiset(b.latencies) by {
      SelectPermutation(s, t, CountedLatency);
    }
    assert multiset(a.successLatencies) == multiset(b.successLatencies) by {
      SelectPermutation(s, t, SuccessLatency);
    }
  }
}
