/** What an `httpx` request made by the SEO and link checkers comes back
    with. The network is not modelled: each probe's answer is an input. */
module Net {

  /** The exception classes the checkers tell apart. */
  datatype FailureKind = TimeoutFailure | ConnectFailure | OtherFailure

  /** A response with its status code and `response.text`, or the exception
      the request raised together with its `str(e)`. */
  datatype Reply = Answered(status: int, text: string) | Failed(kind: FailureKind, message: string)
}
