/** A `fetch` reply as the replay code reads it: the status and the parsed
    body. Transport, credentials and streaming are not modelled. */
module Http {
  datatype HttpReply<T> = HttpReply(status: int, body: T)

  /** `response.ok`: a status in the 2xx range. */
  predicate Ok2xx(status: int) {
    200 <= status < 300
  }
}
