# target-ndjson, modelled in Dafny

target-ndjson is a Singer target. It reads a tap's output, one JSON message per
line, and writes the records of each stream to that stream's own
newline-delimited JSON file. There are three kinds of message:

- SCHEMA declares or re-declares a stream's schema and key properties.
- RECORD carries one record of a stream. It is validated against the stream's
  current schema, then written to the stream's file.
- STATE carries a checkpoint value. When every line of the session succeeded
  and the last value is truthy, that value is echoed to standard output.

This project models the core of the target (`target_ndjson/target.py`) and
proves what it does with each message and with a whole session.

- `wrappers.dfy` (module `Wrappers`): `Option`, `Result`, `Outcome` and map lookup.
- `json.dfy` (module `Json`): decoded JSON values, Python truthiness, and
  hashability (lists and objects cannot be dict keys).
- `errors.dfy` (module `Errors`): one `Cause` constructor per exception the
  decoder or the dispatcher can raise (`KeyError`, `InvalidTapJSON`,
  `MissingSchema`, `TypeError`, `ValidationError`, the unknown-type
  `InvalidTap`, writing to a closed file). Also the `InvalidTap` that the session
  loop re-raises, and `Classify`, its two `except` clauses.
- `protocol.dfy` (module `Protocol`): the state machine as functions over values.
  The registry operations `AddStream`, `Get`, `Write` and `CloseAll`; the decoder
  `ParseLine`; the dispatcher `Process`; one loop iteration `Step`; the loop
  `RunLines`; the session `Persist`; and `Emitted`, which models `emit_state`. Each
  contract says what the operation means for every stream and for the checkpoint.
  The per-stream reference functions `EntryAfter`, `FileAfter`, `ClosedAfter` and
  `StateAfter` describe one message's effect on one stream in isolation.
- `properties.dfy` (module `Properties`): whole-session properties. They are
  proved against reference folds that follow one stream, or the checkpoint, on
  its own (`LatestEntry`, `ExpectedFile`, `LastState`).
- `target.dfy` (module `Target`): the two objects that the source updates in
  place. `StreamCollection` is `TargetStreamCollection`; its entries, files and
  closed files are fields. `TargetNDJSON` holds the registry, the checkpoint
  `state` and standard output. Every method is proved to change its object
  exactly as the matching `Protocol` function says. `PersistLines` does this with
  a loop invariant tying the object to `RunLines` of the lines processed so far.

The foreign code the target calls is passed in as an `Env`. It has three
functions: `parse` (ujson `loads`; `None` when it raises), `valid`
(`Draft4Validator(schema).validate(record)` returns without raising) and `dumps`
(ujson `dumps`). Nothing is assumed about them.

Behaviour of the code that the model follows, although a reader might expect otherwise:

- A stream's output file is opened on SCHEMA, not on its first RECORD
  (`target_ndjson/target.py:46`). So a stream with a schema and no records still
  has an (empty) file.
- The file is opened with mode `'w'`, so re-declaring a schema truncates the file.
  In the model the file is then empty (`FileAfter` gives `Some([])` for a SCHEMA).
  This simplifies CPython, where the orphaned handle may later flush buffered
  lines into it (see "## Left out").
- A RECORD does not reset the checkpoint. Only STATE changes it (`StateAfter`,
  `RunKeepsLastState`).
- Files are closed only when every line succeeded. A failing line closes no
  file (`Persist`, `PersistLines`, `FailedSessionClosesNothing`).
- Every failure leaves the session as `InvalidTap`. A `KeyError` becomes the
  missing-key report. Every other exception is wrapped, `MissingSchema` and
  `InvalidTapJSON` included (`Classify`).
- A RECORD whose `stream` is a list or an object raises `TypeError` (unhashable),
  not `MissingSchema`. A SCHEMA whose `stream` is not a string raises `TypeError`
  when the file name is built, and the registry is left unchanged.
- For a RECORD, the stream is looked up before the `record` key. So a RECORD for
  an unknown stream that also lacks `record` is a `MissingSchema`, not a missing key.
- A target used for a second session still holds its closed files. A RECORD then
  fails with the closed-file error until its stream gets a new SCHEMA.

## Model

| member | source | states |
|---|---|---|
| Errors.Classify | target_ndjson/target.py:100-103 | a `KeyError` becomes the missing-key `InvalidTap` carrying the key and the line; every other exception is wrapped unchanged |
| Protocol.AddStream | target_ndjson/target.py:40-47 | succeeds iff the stream is named by a string; then that stream's entry becomes the new schema and key properties, its file becomes empty and open, and no other stream's entry or file changes; otherwise `TypeError` and nothing changes |
| Protocol.Get | target_ndjson/target.py:49-52 | returns the registered entry iff the stream is a registered string; an unhashable stream is a `TypeError`, any other unregistered one is `MissingSchema` |
| Protocol.Write | target_ndjson/target.py:78 | appends exactly the given line to that stream's file and changes nothing else; fails, changing nothing, iff the file is closed |
| Protocol.CloseAll | target_ndjson/target.py:104-105 | afterwards exactly the registered streams' files are closed; entries and file contents are unchanged |
| Protocol.ParseLine | target_ndjson/target.py:86-92 | succeeds iff the line decodes to an object, and then returns that object unchanged; an undecodable line and a non-object are the two failures |
| Protocol.Process | target_ndjson/target.py:65-83 | each error condition gives its exception: missing `type`; the missing SCHEMA keys, in order; a SCHEMA stream that is not a string; a RECORD without `stream`; an unhashable RECORD stream; a record before its schema; a missing `record`; an invalid record; a closed file; a STATE without `value`; an unknown type. A valid record for a registered stream succeeds exactly when its file is open. On success each stream's entry, file and closed flag and the checkpoint are what the per-stream references say, and a written record was valid against its stream's current schema |
| Protocol.Step | target_ndjson/target.py:98-99 | a line that does not decode fails with the decoder's error; a decoded one is processed as `Process` says |
| Protocol.RunLines | target_ndjson/target.py:97-103 | the loop over the lines, in order, stopping at the first failure, keeps the registry well formed |
| Protocol.Emitted | target_ndjson/target.py:108-113 | one line, the serialized checkpoint plus a newline, iff the checkpoint is truthy; otherwise nothing |
| Protocol.Persist | target_ndjson/target.py:94-106 | succeeds iff the loop got through every line; on failure nothing is closed or emitted; on success every registered file is closed, contents and checkpoint are as the loop left them, and output is emitted iff the checkpoint is truthy |
| Properties.AbortedIsFinal | target_ndjson/target.py:97-103 | after a failure, no further line changes the outcome or the state |
| Properties.AbortedPrefixIsFinal | target_ndjson/target.py:97-103 | a session whose prefix failed ends exactly as that prefix did |
| Properties.PrefixRunning | target_ndjson/target.py:97-103 | a session that got through all its lines got through every prefix of them |
| Properties.FirstFailure | target_ndjson/target.py:97-103 | an aborted session stopped at a line k: all lines before k succeeded, line k raised, and the session ends with that line's classified error and the state that line found |
| Properties.RunKeepsLatestEntry | target_ndjson/target.py:68-73 | after a running session each stream's entry is the one built by the last SCHEMA for it (re-declaring replaces the schema), independent of other streams |
| Properties.RunWritesExpectedFile | target_ndjson/target.py:65-83 | after a running session each stream's file is exactly the serialized records for it since its last SCHEMA, independent of other streams |
| Properties.RunKeepsLastState | target_ndjson/target.py:75-81 | after a running session the checkpoint is the value of the last STATE message, or the initial value if there was none; a RECORD does not reset it |
| Properties.RecordBeforeSchemaAborts | target_ndjson/target.py:49-52 | a RECORD for a stream with no earlier SCHEMA aborts the session, with `MissingSchema` wrapped in `InvalidTap` when the lines before it succeeded |
| Properties.RecordsMatchLatestSchema | target_ndjson/target.py:76-78 | in a running session every RECORD for a stream had a `record` valid against the schema of the last SCHEMA for that stream before it |
| Properties.NoFileWithoutSchema | target_ndjson/target.py:40-47 | a stream that never had a SCHEMA gets no output file, whether the session got through its lines or stopped at a failure |
| Properties.ValidRecordIsWritten | target_ndjson/target.py:76-78 | after a running session, a RECORD for a stream with an open file and a record valid against the schema of its last SCHEMA succeeds and appends exactly the serialized record plus a newline to that file |
| Properties.RunClosesNothing | target_ndjson/target.py:97-103 | the loop over the lines closes no file: every file closed after it was already closed before it |
| Properties.ClosedStaysClosed | target_ndjson/target.py:40-47 | a file closed before the loop is still closed after it, running or aborted, unless some line is a SCHEMA for its stream (which opens a fresh file) |
| Properties.FailedSessionClosesNothing | target_ndjson/target.py:97-106 | a failed session closes no file, since the close-all is reached only on success; a file closed before it is open at its end only if some line is a SCHEMA for its stream |
| Properties.SessionEmitsLastState | target_ndjson/target.py:104-113 | a successful session writes the last STATE value to standard output iff it is truthy; a failed one writes nothing |
| Properties.OrdersSession | test/test_target.py:41-64 | SCHEMA, STATE and a valid RECORD for "orders" succeed, leaving one file, for "orders", that holds the one serialized record; the checkpoint is still the STATE value |
| Target.StreamCollection.constructor | target_ndjson/target.py:34 | the registry starts with no streams, no files and nothing closed |
| Target.StreamCollection.AddStream | target_ndjson/target.py:40-47 | updates the object's fields exactly as `Protocol.AddStream`, keeping the registry well formed |
| Target.StreamCollection.Get | target_ndjson/target.py:49-52 | returns what `Protocol.Get` does, and on success the entry stored under that stream's name, without changing anything |
| Target.StreamCollection.Write | target_ndjson/target.py:78 | updates the files exactly as `Protocol.Write` |
| Target.StreamCollection.CloseAll | target_ndjson/target.py:104-105 | the loop over the registered streams closes exactly their files, as `Protocol.CloseAll` |
| Target.TargetNDJSON.constructor | target_ndjson/target.py:54-62 | a new target has an empty registry of its own, the empty string as its checkpoint, and has written nothing |
| Target.TargetNDJSON.ProcessLine | target_ndjson/target.py:65-83 | on success the target becomes what `Protocol.Process` gives; on failure it returns that exception and nothing changes; standard output is untouched |
| Target.TargetNDJSON.EmitState | target_ndjson/target.py:108-113 | appends to standard output exactly what `Protocol.Emitted` gives for the current checkpoint |
| Target.TargetNDJSON.PersistLines | target_ndjson/target.py:94-106 | the final registry and checkpoint, the result and what is appended to standard output are those of `Protocol.Persist` |

## Left out

- `target_ndjson/__init__.py` is not part of this model. It holds command-line and config-file loading, a usage-statistics HTTP request on a background thread, and stdin wrapping. It also calls module-level functions that `target.py` does not define.
- `setup.py` is packaging metadata only.
- The jsonschema library is foreign code. Validation is the given predicate `valid(schema, record)`. Building a `Draft4Validator` is taken never to fail. The validation error carries the stream and the record, not the library's message.
- ujson is foreign code. Decoding is the given `parse` and encoding the given `dumps`. Numbers are `real`, and objects are maps, so the key order and duplicate keys of the input are not modelled.
- `__fpath_for_stream` depends on the clock (`datetime.now()`). Files are keyed by stream name; for a fixed date distinct stream names give distinct file-name strings, and the model takes distinct strings to be distinct files (names such as `a` and `./a`, which the file system resolves to one file, are not modelled). Two SCHEMAs for one stream on different dates, which would open two different files, are not modelled.
- Real file and standard-output I/O are not modelled: files are in-memory line sequences and standard output is a sequence of lines. Operating-system failures of `open`, `write`, `close` and `flush` are left out, and so is the file handle orphaned by a re-declared schema. In the model that handle is simply dropped. In CPython its finalizer closes it and flushes its buffer, which can write earlier lines back into the file that the new `open(…, 'w')` truncated; the model does not capture this.
- Exception messages are constructors carrying their parts (key, line, stream, message), not the formatted text.
- The `destination` and `logger` fields are never used by the core, so they are left out.
- The shared default `TargetStreamCollection()` of the `streams` field is a Python instantiation quirk. Every model target starts with a registry of its own.
