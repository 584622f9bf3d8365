/** The entries of the load tester's response list and how a status code
    is classified.

  Every request leaves one entry in the list: a received response, which
  carries its status code and latency (`HTTPReponse`), or the exception the
  request raised, which the report only knows by its type name.
 */
module Outcomes {

  /** Latency in seconds; the tally only carries it around. */
  type Latency = real

  datatype Outcome =
    | Response(status: int, latency: Latency)
    | Error(kind: string)

  /** The buckets of the report: [200,400) success, [400,500) client error,
      [500,600) server error; any other status is unknown. */
  datatype StatusClass = Success | ClientError | ServerError | Unknown

  function Classify(status: int): (c: StatusClass)
    ensures c == Unknown <==> status < 200 || 600 <= status
  {
    if 200 <= status < 400 then Success
    else if 400 <= status < 500 then ClientError
    else if 500 <= status < 600 then ServerError
    else Unknown
  }
}
