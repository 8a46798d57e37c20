/** The exceptions raised while a tap's output is processed, and the single
    `InvalidTap` that the session driver turns each of them into. */
module Errors {
  import opened Json

  /** Why one line could not be processed; each constructor is one exception
      that `parse_line` or `process_line` can raise. */
  datatype Cause =
    /** `KeyError`: the message has no entry under `key`. */
    | KeyMissing(key: string)
    /** The JSON library could not decode the line. */
    | Undecodable(line: string)
    /** `InvalidTapJSON`: the line decoded to something other than an object. */
    | NotAnObject(line: string)
    /** `MissingSchema`: a RECORD names a stream that has no schema yet. */
    | MissingSchema(stream: Json)
    /** `TypeError`: a RECORD names its stream by a list or an object, which
        cannot be looked up in the registry. */
    | UnhashableStream(stream: Json)
    /** `TypeError`: a SCHEMA names its stream by something other than a
        string, so no file name can be built from it. */
    | StreamNotText(stream: Json)
    /** `ValidationError`: the record does not satisfy its stream's schema. */
    | InvalidRecord(streamName: string, record: Json)
    /** `InvalidTap`: the message type is none of SCHEMA, RECORD and STATE. */
    | UnknownType(messageType: Json, message: map<string, Json>)
    /** `ValueError`: a record was written to a stream whose file is closed. */
    | ClosedFile(streamName: string)

  /** The `InvalidTap` with which the session stops. */
  datatype InvalidTap =
    /** "Exiting after invalid tap output, missing key ...": from a `KeyError`. */
    | MissingKeyTap(key: string, line: string)
    /** "Exiting after unknown error ...": wraps any other exception. */
    | UnknownErrorTap(cause: Cause)

  /** The two `except` clauses of the session loop: a `KeyError` becomes a
      missing-key report naming the line, every other exception is wrapped. */
  function Classify(c: Cause, line: string): (e: InvalidTap)
    ensures e.MissingKeyTap? <==> c.KeyMissing?
    ensures c.KeyMissing? ==> e == MissingKeyTap(c.key, line)
    ensures !c.KeyMissing? ==> e == UnknownErrorTap(c)
  {
    match c
    case KeyMissing(key) => MissingKeyTap(key, line)
    case _ => UnknownErrorTap(c)
  }
}
