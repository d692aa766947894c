/** The slice of `net/http` the client observes. */
module Http {

  import opened Results

  /** A response: its status code and the outcome of reading its body
      (`io.ReadAll(resp.Body)`). */
  datatype Response = Response(status: int, body: Result<string>)

  /** What `http.Client.Do` and the client's retry loop hand back: a
      response that may be nil and an error that may be nil. */
  datatype CallOutcome = CallOutcome(resp: Option<Response>, err: Option<string>)
}
