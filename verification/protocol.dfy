/** The target's state machine as functions over values: the stream registry
    (`TargetStreamCollection`), the line decoder (`parse_line`), the message
    dispatcher (`process_line`) and the session driver (`persist_lines`).
    The classes of module Target are proved to behave as these functions say. */
module Protocol {
  import opened Wrappers
  import opened Json
  import opened Errors

  /** The foreign code the target calls, taken as given. */
  datatype Env = Env(
    /** `ujson.loads`: `None` when it raises. */
    parse: string -> Option<Json>,
    /** `Draft4Validator(schema).validate(record)` returns without raising. */
    valid: (Json, Json) -> bool,
    /** `ujson.dumps`. */
    dumps: Json -> string)

  /** `TargetStream`: what the registry keeps for one stream. The validator is
      the one built from `schema`, so validating a record means `env.valid(schema, record)`. */
  datatype Entry = Entry(name: string, schema: Json, keyProperties: Json)

  /** `TargetStreamCollection`, together with the files its entries write:
      the entry of every stream that has had a SCHEMA, the lines written so far
      to each stream's current file, and the streams whose current file is closed. */
  datatype Registry = Registry(
    streams: map<string, Entry>,
    files: map<string, seq<string>>,
    closed: set<string>)

  /** `TargetNDJSON`: the registry and the checkpoint slot `state`. */
  datatype TargetState = TargetState(registry: Registry, state: Json)

  /** A fresh target: no streams, and `state` the empty string. */
  const Initial: TargetState := TargetState(Registry(map[], map[], {}), JStr(""))

  /** Every registered stream has exactly one file, only registered streams'
      files are closed, and every entry is filed under its own name. */
  predicate WellFormed(reg: Registry) {
    && reg.files.Keys == reg.streams.Keys
    && reg.closed <= reg.streams.Keys
    && forall name :: name in reg.streams ==> reg.streams[name].name == name
  }

  /** `add_stream`: creates or replaces the entry of `stream` and opens its
      file with mode 'w', which starts it empty. A stream named by anything but
      a string cannot be turned into a file name, so nothing changes. */
  function AddStream(reg: Registry, stream: Json, schema: Json, keyProperties: Json): (r: Result<Registry, Cause>)
    requires WellFormed(reg)
    ensures r.Success? <==> stream.JStr?
    ensures !stream.JStr? ==> r == Failure(StreamNotText(stream))
    ensures r.Success? ==> WellFormed(r.value)
    ensures r.Success? ==>
      forall name :: Lookup(r.value.streams, name) ==
        (if name == stream.s then Some(Entry(name, schema, keyProperties)) else Lookup(reg.streams, name))
    ensures r.Success? ==>
      forall name :: Lookup(r.value.files, name) ==
        (if name == stream.s then Some([]) else Lookup(reg.files, name))
    ensures r.Success? ==> r.value.closed == reg.closed - {stream.s}
  {
    match stream
    case JStr(name) =>
      Success(Registry(
        reg.streams[name := Entry(name, schema, keyProperties)],
        reg.files[name := []],
        reg.closed - {name}))
    case _ => Failure(StreamNotText(stream))
  }

  /** `get`: the entry of a stream that has had a SCHEMA. */
  function Get(reg: Registry, stream: Json): (r: Result<Entry, Cause>)
    ensures r.Success? <==> stream.JStr? && stream.s in reg.streams
    ensures r.Success? ==> r.value == reg.streams[stream.s]
    ensures !Hashable(stream) ==> r == Failure(UnhashableStream(stream))
    ensures Hashable(stream) && r.Failure? ==> r == Failure(MissingSchema(stream))
  {
    if !Hashable(stream) then Failure(UnhashableStream(stream))
    else if stream.JStr? && stream.s in reg.streams then Success(reg.streams[stream.s])
    else Failure(MissingSchema(stream))
  }

  /** `ostream.write(line)` on the current file of stream `name`. */
  function Write(reg: Registry, name: string, line: string): (r: Result<Registry, Cause>)
    requires WellFormed(reg) && name in reg.streams
    ensures r.Success? <==> name !in reg.closed
    ensures r.Failure? ==> r.error == ClosedFile(name)
    ensures r.Success? ==> WellFormed(r.value)
    ensures r.Success? ==> r.value.streams == reg.streams && r.value.closed == reg.closed
    ensures r.Success? ==>
      forall n :: Lookup(r.value.files, n) ==
        (if n == name then Some(reg.files[name] + [line]) else Lookup(reg.files, n))
  {
    if name in reg.closed then Failure(ClosedFile(name))
    else Success(reg.(files := reg.files[name := reg.files[name] + [line]]))
  }

  /** The loop that closes the file of every registered stream. */
  function CloseAll(reg: Registry): (r: Registry)
    requires WellFormed(reg)
    ensures WellFormed(r)
    ensures r.closed == reg.streams.Keys
    ensures r.streams == reg.streams && r.files == reg.files
  {
    reg.(closed := reg.closed + reg.streams.Keys)
  }

  /** `parse_line`: the decoded line, when it is an object. */
  function ParseLine(parse: string -> Option<Json>, line: string): (r: Result<map<string, Json>, Cause>)
    ensures r.Success? <==> parse(line).Some? && parse(line).value.JObj?
    ensures r.Success? ==> parse(line) == Some(JObj(r.value))
    ensures parse(line).None? ==> r == Failure(Undecodable(line))
    ensures parse(line).Some? && !parse(line).value.JObj? ==> r == Failure(NotAnObject(line))
  {
    match parse(line)
    case None => Failure(Undecodable(line))
    case Some(JObj(fields)) => Success(fields)
    case Some(_) => Failure(NotAnObject(line))
  }

  /** The message's `type` is the string `t`. */
  predicate HasType(obj: map<string, Json>, t: string) {
    "type" in obj && obj["type"] == JStr(t)
  }

  /** A complete SCHEMA message for the stream called `name`. */
  predicate SchemaFor(obj: map<string, Json>, name: string) {
    HasType(obj, "SCHEMA") && "stream" in obj && obj["stream"] == JStr(name)
    && "schema" in obj && "key_properties" in obj
  }

  /** A RECORD message for the stream called `name`. */
  predicate RecordFor(obj: map<string, Json>, name: string) {
    HasType(obj, "RECORD") && "stream" in obj && obj["stream"] == JStr(name)
  }

  // What one message does to one stream, seen on its own. Each is the
  // per-stream reference that `Process` is proved to agree with.

  /** The entry of `name` after `obj`: replaced by a SCHEMA for it, else kept. */
  function EntryAfter(name: string, prev: Option<Entry>, obj: map<string, Json>): Option<Entry> {
    if SchemaFor(obj, name) then Some(Entry(name, obj["schema"], obj["key_properties"])) else prev
  }

  /** The file of `name` after `obj`: emptied by a SCHEMA for it, one line
      longer after a RECORD for it, else kept. */
  function FileAfter(env: Env, name: string, prev: Option<seq<string>>, obj: map<string, Json>): Option<seq<string>> {
    if SchemaFor(obj, name) then Some([])
    else if RecordFor(obj, name) && "record" in obj && prev.Some? then
      Some(prev.value + [env.dumps(obj["record"]) + "\n"])
    else prev
  }

  /** Whether the file of `name` is closed after `obj`: a SCHEMA reopens it. */
  function ClosedAfter(name: string, prev: bool, obj: map<string, Json>): bool {
    if SchemaFor(obj, name) then false else prev
  }

  /** The checkpoint after `obj`: only a STATE message replaces it. */
  function StateAfter(prev: Json, obj: map<string, Json>): Json {
    if HasType(obj, "STATE") && "value" in obj then obj["value"] else prev
  }

  /** `process_line`: dispatch on the message's type. Every exception it
      raises is raised before anything is changed, so a failure carries no state. */
  function Process(env: Env, s: TargetState, obj: map<string, Json>): (r: Result<TargetState, Cause>)
    requires WellFormed(s.registry)
    ensures r.Success? ==> WellFormed(r.value.registry)
    // error conditions
    ensures "type" !in obj ==> r == Failure(KeyMissing("type"))
    ensures ("type" in obj && obj["type"] != JStr("SCHEMA") && obj["type"] != JStr("RECORD")
             && obj["type"] != JStr("STATE")) ==> r == Failure(UnknownType(obj["type"], obj))
    ensures HasType(obj, "SCHEMA") ==>
      (r.Success? <==> "stream" in obj && "schema" in obj && "key_properties" in obj && obj["stream"].JStr?)
    ensures HasType(obj, "SCHEMA") && "stream" !in obj ==> r == Failure(KeyMissing("stream"))
    ensures HasType(obj, "SCHEMA") && "stream" in obj && "schema" !in obj ==> r == Failure(KeyMissing("schema"))
    ensures HasType(obj, "SCHEMA") && "stream" in obj && "schema" in obj && "key_properties" !in obj ==>
      r == Failure(KeyMissing("key_properties"))
    ensures HasType(obj, "RECORD") && "stream" !in obj ==> r == Failure(KeyMissing("stream"))
    ensures forall name :: RecordFor(obj, name) && name !in s.registry.streams ==>
      r == Failure(MissingSchema(JStr(name)))
    ensures forall name :: RecordFor(obj, name) && name in s.registry.streams && "record" !in obj ==>
      r == Failure(KeyMissing("record"))
    ensures forall name ::
        (RecordFor(obj, name) && name in s.registry.streams && "record" in obj
         && !env.valid(s.registry.streams[name].schema, obj["record"])) ==>
        r == Failure(InvalidRecord(name, obj["record"]))
    ensures (HasType(obj, "SCHEMA") && "stream" in obj && "schema" in obj && "key_properties" in obj
             && !obj["stream"].JStr?) ==> r == Failure(StreamNotText(obj["stream"]))
    ensures (HasType(obj, "RECORD") && "stream" in obj && !Hashable(obj["stream"])) ==>
      r == Failure(UnhashableStream(obj["stream"]))
    ensures (HasType(obj, "RECORD") && "stream" in obj && Hashable(obj["stream"]) && !obj["stream"].JStr?) ==>
      r == Failure(MissingSchema(obj["stream"]))
    ensures forall name ::
        (RecordFor(obj, name) && name in s.registry.streams && "record" in obj
         && env.valid(s.registry.streams[name].schema, obj["record"])) ==>
        (r.Success? <==> name !in s.registry.closed)
    ensures forall name ::
        (RecordFor(obj, name) && name in s.registry.streams && "record" in obj
         && env.valid(s.registry.streams[name].schema, obj["record"]) && name in s.registry.closed) ==>
        r == Failure(ClosedFile(name))
    ensures HasType(obj, "STATE") ==> (r.Success? <==> "value" in obj)
    ensures HasType(obj, "STATE") && "value" !in obj ==> r == Failure(KeyMissing("value"))
    // a successful message: what each stream and the checkpoint become
    ensures r.Success? ==> r.value.state == StateAfter(s.state, obj)
    ensures r.Success? ==>
      forall name :: Lookup(r.value.registry.streams, name) ==
        EntryAfter(name, Lookup(s.registry.streams, name), obj)
    ensures r.Success? ==>
      forall name :: Lookup(r.value.registry.files, name) ==
        FileAfter(env, name, Lookup(s.registry.files, name), obj)
    ensures r.Success? ==>
      forall name :: (name in r.value.registry.closed) ==
        ClosedAfter(name, name in s.registry.closed, obj)
    // a record that is written was valid against its stream's current schema
    ensures r.Success? ==> forall name :: RecordFor(obj, name) ==>
      name in s.registry.streams && name !in s.registry.closed && "record" in obj
      && env.valid(s.registry.streams[name].schema, obj["record"])
  {
    if "type" !in obj then Failure(KeyMissing("type"))
    else if obj["type"] == JStr("SCHEMA") then
      if "stream" !in obj then Failure(KeyMissing("stream"))
      else if "schema" !in obj then Failure(KeyMissing("schema"))
      else if "key_properties" !in obj then Failure(KeyMissing("key_properties"))
      else
        match AddStream(s.registry, obj["stream"], obj["schema"], obj["key_properties"])
        case Success(reg) => Success(s.(registry := reg))
        case Failure(c) => Failure(c)
    else if obj["type"] == JStr("RECORD") then
      if "stream" !in obj then Failure(KeyMissing("stream"))
      else
        match Get(s.registry, obj["stream"])
        case Failure(c) => Failure(c)
        case Success(entry) =>
          if "record" !in obj then Failure(KeyMissing("record"))
          else if !env.valid(entry.schema, obj["record"]) then Failure(InvalidRecord(entry.name, obj["record"]))
          else
            match Write(s.registry, entry.name, env.dumps(obj["record"]) + "\n")
            case Success(reg) => Success(s.(registry := reg))
            case Failure(c) => Failure(c)
    else if obj["type"] == JStr("STATE") then
      if "value" !in obj then Failure(KeyMissing("value"))
      else Success(s.(state := obj["value"]))
    else Failure(UnknownType(obj["type"], obj))
  }

  /** One iteration of the session loop: decode the line, then process it. */
  function Step(env: Env, s: TargetState, line: string): (r: Result<TargetState, Cause>)
    requires WellFormed(s.registry)
    ensures r.Success? ==> WellFormed(r.value.registry)
    ensures ParseLine(env.parse, line).Failure? ==> r == Failure(ParseLine(env.parse, line).error)
    ensures ParseLine(env.parse, line).Success? ==> r == Process(env, s, ParseLine(env.parse, line).value)
  {
    match ParseLine(env.parse, line)
    case Failure(c) => Failure(c)
    case Success(obj) => Process(env, s, obj)
  }

  /** Where the session loop stands: still running, or stopped by an `InvalidTap`. */
  datatype Run = Running(s: TargetState) | Aborted(s: TargetState, err: InvalidTap)

  /** The `for` loop of `persist_lines` over `lines`, in order: the first line
      that fails stops the loop, with the state as that line found it. */
  function RunLines(env: Env, s0: TargetState, lines: seq<string>): (r: Run)
    requires WellFormed(s0.registry)
    ensures WellFormed(r.s.registry)
    decreases |lines|
  {
    if |lines| == 0 then Running(s0)
    else
      var prev := RunLines(env, s0, lines[..|lines| - 1]);
      if prev.Aborted? then prev
      else
        match Step(env, prev.s, lines[|lines| - 1])
        case Success(next) => Running(next)
        case Failure(c) => Aborted(prev.s, Classify(c, lines[|lines| - 1]))
  }

  /** `emit_state`: the one line written to standard output, if the
      checkpoint is truthy. */
  function Emitted(env: Env, state: Json): (out: seq<string>)
    ensures out != [] <==> Truthy(state)
    ensures out != [] ==> out == [env.dumps(state) + "\n"]
  {
    if Truthy(state) then [env.dumps(state) + "\n"] else []
  }

  /** A whole session: the target's final state, how it ended and what it
      wrote to standard output. */
  datatype Session = Session(final: TargetState, outcome: Outcome<InvalidTap>, emitted: seq<string>)

  /** `persist_lines`: run the loop; only when every line succeeded close all
      files and emit the checkpoint. */
  function Persist(env: Env, s0: TargetState, lines: seq<string>): (ses: Session)
    requires WellFormed(s0.registry)
    ensures WellFormed(ses.final.registry)
    ensures ses.outcome.Pass? <==> RunLines(env, s0, lines).Running?
    ensures ses.outcome.Fail? ==>
      && ses.outcome.error == RunLines(env, s0, lines).err
      && ses.final == RunLines(env, s0, lines).s
      && ses.emitted == []
    ensures ses.outcome.Pass? ==>
      && ses.final.registry.closed == ses.final.registry.streams.Keys
      && ses.final.registry.streams == RunLines(env, s0, lines).s.registry.streams
      && ses.final.registry.files == RunLines(env, s0, lines).s.registry.files
      && ses.final.state == RunLines(env, s0, lines).s.state
    ensures ses.emitted != [] <==> ses.outcome.Pass? && Truthy(ses.final.state)
  {
    match RunLines(env, s0, lines)
    case Aborted(s, err) => Session(s, Fail(err), [])
    case Running(s) =>
      var closed := s.(registry := CloseAll(s.registry));
      Session(closed, Pass, Emitted(env, closed.state))
  }
}
