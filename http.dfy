/**
 * The HTTP exchange between the front end and the server, reduced to values:
 * the JSON reply bodies the server sends and what a client `fetch` ends with.
 */
module Http {
  import opened Types

  /**
   * The reply bodies of the login, content and user routes: every field the
   * server ever sets and the client ever reads, each possibly absent.
   */
  datatype Reply = Reply(
    success: Option<bool>,
    message: Option<string>,
    user: Option<string>,
    role: Option<string>,
    error: Option<string>)

  /** A reply body with none of its fields set. */
  const EmptyReply: Reply := Reply(None, None, None, None, None)

  datatype Response = Response(status: int, body: Reply)

  /** `response.ok`: a status in the 200-299 range. */
  predicate IsOk(status: int) {
    200 <= status <= 299
  }

  /**
   * What a client call obtains from `fetch` and `response.json()`: either
   * something was thrown before the status could be looked at (a network
   * failure, or a body that is not JSON), or a response arrived with a
   * status, a status text and a parsed body.
   */
  datatype Fetched<T> = Thrown(reason: string) | Received(status: int, statusText: string, body: T)

  /** `data.success` is truthy. */
  predicate Succeeded(r: Reply) {
    r.success == Some(true)
  }

  /** The server's response as the client sees it arrive. */
  function Deliver(r: Response, statusText: string): Fetched<Reply> {
    Received(r.status, statusText, r.body)
  }
}
