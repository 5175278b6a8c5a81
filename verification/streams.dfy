/** The shapes shared by the wire parsers, the backend client and the stream session. */
module Streams {
  import opened Wrappers

  /** A thrown error: the cancellation signal (`AbortError`) or any other error with its message. */
  datatype Failure = Aborted | Fault(message: string)

  /** A response body as the transport delivers it: the text of each successful
      `read()` in order, then either end of stream (`fault == None`) or a read that throws. */
  datatype Body = Body(chunks: seq<string>, fault: Option<Failure>)

  /** What an asynchronous generator produced: its yields in order, then possibly the
      error it ended with. */
  datatype Emission = Emission(deltas: seq<string>, failure: Option<Failure>)

  /** A parser run: its output and how many times it released the body reader. */
  datatype ParserRun = ParserRun(out: Emission, releases: nat)

  const NoBody: Emission := Emission([], Some(Fault("No response body")))
}
