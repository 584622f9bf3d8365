# HTTP load tester: outcome tally

A Dafny model of the bookkeeping core of `http_load_tester.py`, an open-loop
HTTP load generator. Each request task appends one entry to a shared response
list: an `HTTPReponse(status_code, latency)` when a response was received, or
the exception the request raised. After the run, `_print_report` reduces the
list in one pass to error counts (in total and by exception type), response
counts (in total, per status class and per status code) and two latency lists
(all counted responses, and successes only). It then prints a success rate and
latency statistics when those lists are non-empty.

Modules:

- `Outcomes` (`outcomes.dfy`): the list entry `Outcome = Response(status, latency) | Error(kind)` and
  the status classification: [200,400) success, [400,500) client error,
  [500,600) server error, anything else unknown.
- `Tally` (`tally.dfy`): the report loop. `Fold` is the loop as a left fold of `Step` and
  `CountResponses` is the loop with mutable counters and `continue`. `Expected`
  describes every counter on its own, as a selection over the whole list. The
  lemmas connect the three and derive the counting properties from them.
  Each `Counter` of the source is a `multiset`. The sum of a Counter's values
  is the multiset's size.
- `Report` (`report.dfy`): the totals that are printed, the success rate, and
  which latency sample the overall and success-only statistics are taken over.
  It states when each of them is shown.
- `Requests` (`requests.dfy`): `_make_request` with the transport as an input,
  and the response list that the gathered tasks leave behind.
- `Options` (`options.dfy`): the optional-value datatype.
- `Selection` (`selection.dfy`): order-preserving selection over sequences. It
  has lemmas for concatenation, membership and permutation.

A response with a status outside [200,600) is reported with an "unknown HTTP
status code" line. Because of the `continue` at line 107, it is not counted as
a response: it skips `response_count`, `response_count_by_status` and
`response_latencies`. It is still part of the total, which is the list's
length. So the printed error and response counts need not add up to the total.
`Tally.FiveWayPartition` states the exact relation.

## Model

| member | source | states |
|---|---|---|
| Outcomes.Classify | http_load_tester.py:98-107 | A status is unknown exactly when it lies outside [200,600). |
| Tally.StepKeepsConsistent | http_load_tester.py:96-113 | One pass of the loop keeps every counter relation and counts at most one entry as an error or a response. |
| Tally.FoldConsistent | http_load_tester.py:82-113 | After the loop, `response_count` is the sum of the success, client-error and server-error counts. The values of `error_count_by_type` sum to `error_count`. The values of `response_count_by_status` sum to `response_count`, and every key lies in [200,600). There are `response_count` latencies and `response_count_success` success latencies. The success latencies are a sub-multiset of all latencies. Errors plus responses are at most the total. |
| Tally.CountResponses | http_load_tester.py:84-113 | The loop with separate mutable counters and `continue` ends with exactly the counters of the fold. |
| Tally.FoldMatchesSelection | http_load_tester.py:96-113 | Each counter equals its independent description over the whole list. For example, `response_latencies` holds the latencies of responses with a known status, in list order. |
| Tally.ClassesCover | http_load_tester.py:97-111 | Every entry is either an error or a response, and every response is either counted or has an unknown status. |
| Tally.FiveWayPartition | http_load_tester.py:82-113 | `error_count + response_count + (responses with an unknown status) == total_requests`. |
| Tally.ErrorsAreNonResponses | http_load_tester.py:111-113 | `error_count` is the number of entries that are not responses. |
| Tally.ErrorKindPresent | http_load_tester.py:111-113 | An exception type has an entry in `error_count_by_type` exactly when some entry is an error of that type. |
| Tally.StatusMultiplicity | http_load_tester.py:98-109 | The count of a status in `response_count_by_status` is the number of responses with that status when the status lies in [200,600), and zero otherwise. |
| Tally.StatusPresent | http_load_tester.py:98-109 | A status is a key of `response_count_by_status` exactly when it lies in [200,600) and some response carried it. |
| Tally.UnknownStatusSkipped | http_load_tester.py:105-107 | Inserting a response with an unknown status anywhere in the list leaves every counter and latency list unchanged. |
| Tally.OrderIndependent | http_load_tester.py:96-113 | Two lists that are permutations of each other give the same counters and Counters, and the same latency lists as multisets. |
| Tally.AllFailedAlike | http_load_tester.py:111-113 | If every request raised the same exception type, then `error_count` is the total, `response_count` is zero, and the breakdown has that one type, with a count equal to the total. |
| Report.Summarize | http_load_tester.py:82-117 | The printed total is the length of the response list. The printed counters are the tally of that list, each equal to its independent description over the list. The total equals errors plus responses plus unknown-status responses. The printed error count equals the total minus the number of responses. |
| Report.SuccessRate | http_load_tester.py:119-120 | A rate exists exactly when `response_count > 0`. It is then `response_count_success / response_count`, and it lies in [0,1]. It is 1 exactly when there are no client or server errors, and 0 exactly when there are no successes. |
| Report.OverallSample | http_load_tester.py:119-122 | The overall statistics are taken only when `response_count > 0`. Their sample is exactly the latencies of the responses with a known status, in list order. It is non-empty and holds `response_count` latencies. |
| Report.SuccessSample | http_load_tester.py:130-132 | The success-only statistics are taken exactly when some response was a success. This implies that the enclosing guard at line 119 holds. The sample is exactly the latencies of the success responses, in list order. It is non-empty, holds `response_count_success` latencies, and is a sub-multiset of the overall sample. |
| Report.AllSucceeded | http_load_tester.py:119-132 | If every request got a status in [200,400), the success rate is exactly one and the success-only sample is the overall sample. |
| Requests.MakeRequest | http_load_tester.py:60-76 | A call appends exactly one entry when the transport answered or raised an `Exception`, and leaves the earlier entries as they were. The entry is a response exactly when the transport answered. Its latency is the time elapsed since the call started. An exception outside `Exception` appends nothing and propagates. |
| Requests.Gather | http_load_tester.py:52-76 | The gathered tasks leave a list exactly when no task raised an exception outside `Exception`. The list then has one entry per task, namely the entry of each task in completion order. |
| Requests.OneEntryPerCall | http_load_tester.py:62-82 | After a run, the total is the number of requests, and `error_count` is the number of requests that were not answered. |
| Requests.CompletionOrderIrrelevant | http_load_tester.py:67-113 | Tasks that complete in any other order give the same tally. |

## Left out

- The pacing loop of `run` (lines 39-54): it depends on wall-clock time, sleeping and task creation. The model starts from the sequence of request tasks, in the order they complete.
- The aiohttp session and the request itself (lines 43, 63-66): the transport's behaviour is an input (`Requests.Transport`). It is one of: answered with a status at a clock reading, raised an `aiohttp.ClientError`, raised another `Exception`, or raised an exception outside `Exception`.
- Average latency and `numpy.percentile` (lines 121-122, 131-132): these are floating-point arithmetic and a library the model does not include. The model states which sample each statistic is taken over, and that the sample is never empty.
- Report.SuccessRate: computed as an exact ratio of integers. The float division and the rounding in the printed percentage are not modelled.
- Requests.MakeRequest: the latency is the exact difference of two clock readings. The clock is `time.time()`, which can go backwards, so no sign is claimed for the latency.
- Requests.MakeRequest: the entry for a response is appended inside the `async with` block (lines 63-71), so leaving the response context still runs inside the `try`. The model assumes that leaving the context never raises once the entry is appended. If it raised an `Exception`, lines 72-76 would append a second entry for the same call. If a cancellation arrived there, the entry would stay appended and the exception would propagate. The transport input has no case for either path, so the one-entry-per-call contracts rest on this assumption.
- Requests.Gather: when a task raises an exception outside `Exception`, asyncio lets the other tasks keep running. The model stops at the first such task. No report is printed in either case.
- Printing, `logging.basicConfig`, the debug log line, `main` and `asyncio.run` (lines 8, 61, 115-152): these are output and process start-up.
- `type(response).__name__` (line 113): an error entry carries its exception type's name as a plain string.
