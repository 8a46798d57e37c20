/** The target's objects, which update their fields in place: the stream
    registry `TargetStreamCollection` and the target `TargetNDJSON`. Each
    method is proved to change the object's state exactly as the function of
    module Protocol that models it says. */
module Target {
  import opened Wrappers
  import opened Json
  import opened Errors
  import Protocol
  import Properties

  /** `TargetStreamCollection`: the entry of every stream that has had a
      SCHEMA, with the output file its entry holds open. */
  class StreamCollection {
    var streams: map<string, Protocol.Entry>
    /** The lines written so far to each stream's current output file. */
    var files: map<string, seq<string>>
    /** The streams whose current output file has been closed. */
    var closed: set<string>

    /** The registry as a value. */
    function AsRegistry(): Protocol.Registry
      reads this
    {
      Protocol.Registry(streams, files, closed)
    }

    ghost predicate Valid()
      reads this
    {
      Protocol.WellFormed(AsRegistry())
    }

    /** An empty registry. */
    constructor ()
      ensures Valid()
      ensures AsRegistry() == Protocol.Registry(map[], map[], {})
    {
      streams, files, closed := map[], map[], {};
    }

    /** `add_stream`: replace the entry of `stream` and open its file with
        mode 'w'. */
    method AddStream(stream: Json, schema: Json, keyProperties: Json) returns (r: Outcome<Cause>)
      requires Valid()
      modifies this
      ensures Valid()
      ensures match Protocol.AddStream(old(AsRegistry()), stream, schema, keyProperties)
        case Success(reg) => r == Pass && AsRegistry() == reg
        case Failure(c) => r == Fail(c) && AsRegistry() == old(AsRegistry())
    {
      if !stream.JStr? {
        // the file name cannot be built from anything but a string
        return Fail(StreamNotText(stream));
      }
      var name := stream.s;
      streams := streams[name := Protocol.Entry(name, schema, keyProperties)];
      files := files[name := []];
      closed := closed - {name};
      r := Pass;
    }

    /** `get`: the entry of a stream that has had a SCHEMA. */
    method Get(stream: Json) returns (r: Result<Protocol.Entry, Cause>)
      ensures r == Protocol.Get(AsRegistry(), stream)
      ensures r.Success? ==> stream.JStr? && stream.s in streams && r.value == streams[stream.s]
    {
      if !Hashable(stream) {
        return Failure(UnhashableStream(stream));
      }
      if !stream.JStr? || stream.s !in streams {
        return Failure(MissingSchema(stream));
      }
      r := Success(streams[stream.s]);
    }

    /** `ostream.write(line)` on the current file of stream `name`. */
    method Write(name: string, line: string) returns (r: Outcome<Cause>)
      requires Valid() && name in streams
      modifies this
      ensures Valid()
      ensures match Protocol.Write(old(AsRegistry()), name, line)
        case Success(reg) => r == Pass && AsRegistry() == reg
        case Failure(c) => r == Fail(c) && AsRegistry() == old(AsRegistry())
    {
      if name in closed {
        return Fail(ClosedFile(name));
      }
      files := files[name := files[name] + [line]];
      r := Pass;
    }

    /** Close the file of every registered stream, one after the other. */
    method CloseAll()
      requires Valid()
      modifies this
      ensures Valid()
      ensures AsRegistry() == Protocol.CloseAll(old(AsRegistry()))
    {
      var pending := streams.Keys;
      while pending != {}
        invariant pending <= streams.Keys
        invariant streams == old(streams) && files == old(files)
        invariant closed == old(closed) + (streams.Keys - pending)
        decreases pending
      {
        var name :| name in pending;
        closed := closed + {name};
        pending := pending - {name};
      }
    }
  }

  /** `TargetNDJSON`: a registry, the checkpoint slot `state`, and what has
      been written to standard output. */
  class TargetNDJSON {
    /** The JSON library and the schema validator the target calls. */
    const env: Protocol.Env
    const streams: StreamCollection
    var state: Json
    var stdout: seq<string>

    /** The target as a value. */
    function Snapshot(): Protocol.TargetState
      reads this, streams
    {
      Protocol.TargetState(streams.AsRegistry(), state)
    }

    ghost predicate Valid()
      reads this, streams
    {
      streams.Valid()
    }

    /** A target with no streams and the empty string as its checkpoint. */
    constructor (env: Protocol.Env)
      ensures Valid() && fresh(streams)
      ensures this.env == env && Snapshot() == Protocol.Initial && stdout == []
    {
      this.env := env;
      streams := new StreamCollection();
      state := JStr("");
      stdout := [];
    }

    /** `process_line`: dispatch one decoded message. */
    method ProcessLine(obj: map<string, Json>) returns (r: Outcome<Cause>)
      requires Valid()
      modifies this`state, streams
      ensures Valid()
      ensures match Protocol.Process(env, old(Snapshot()), obj)
        case Success(next) => r == Pass && Snapshot() == next
        case Failure(c) => r == Fail(c) && Snapshot() == old(Snapshot())
    {
      if "type" !in obj {
        return Fail(KeyMissing("type"));
      }
      if obj["type"] == JStr("SCHEMA") {
        if "stream" !in obj { return Fail(KeyMissing("stream")); }
        if "schema" !in obj { return Fail(KeyMissing("schema")); }
        if "key_properties" !in obj { return Fail(KeyMissing("key_properties")); }
        r := streams.AddStream(obj["stream"], obj["schema"], obj["key_properties"]);
      } else if obj["type"] == JStr("RECORD") {
        if "stream" !in obj { return Fail(KeyMissing("stream")); }
        var entry := streams.Get(obj["stream"]);
        if entry.Failure? { return Fail(entry.error); }
        if "record" !in obj { return Fail(KeyMissing("record")); }
        if !env.valid(entry.value.schema, obj["record"]) {
          return Fail(InvalidRecord(entry.value.name, obj["record"]));
        }
        // the stream is looked up a second time for the write
        var again := streams.Get(obj["stream"]);
        r := streams.Write(again.value.name, env.dumps(obj["record"]) + "\n");
      } else if obj["type"] == JStr("STATE") {
        if "value" !in obj { return Fail(KeyMissing("value")); }
        state := obj["value"];
        r := Pass;
      } else {
        r := Fail(UnknownType(obj["type"], obj));
      }
    }

    /** `emit_state`: write the checkpoint to standard output if it is truthy. */
    method EmitState()
      modifies this`stdout
      ensures stdout == old(stdout) + Protocol.Emitted(env, state)
    {
      if Truthy(state) {
        stdout := stdout + [env.dumps(state) + "\n"];
      }
    }

    /** `persist_lines`: process the lines in order, stopping at the first
        failure with an `InvalidTap`; only when all succeed close every file
        and emit the checkpoint. */
    method PersistLines(lines: seq<string>) returns (r: Outcome<InvalidTap>)
      requires Valid()
      modifies this, streams
      ensures Valid()
      ensures Snapshot() == Protocol.Persist(env, old(Snapshot()), lines).final
      ensures r == Protocol.Persist(env, old(Snapshot()), lines).outcome
      ensures stdout == old(stdout) + Protocol.Persist(env, old(Snapshot()), lines).emitted
    {
      ghost var s0 := Snapshot();
      for i := 0 to |lines|
        invariant Valid()
        invariant Protocol.RunLines(env, s0, lines[..i]) == Protocol.Running(Snapshot())
        invariant stdout == old(stdout)
      {
        var outcome: Outcome<Cause>;
        match Protocol.ParseLine(env.parse, lines[i]) {
          case Failure(c) => outcome := Fail(c);
          case Success(obj) => outcome := ProcessLine(obj);
        }
        assert lines[..i + 1][..i] == lines[..i];
        if outcome.Fail? {
          assert Protocol.RunLines(env, s0, lines[..i + 1]).Aborted?;
          Properties.AbortedPrefixIsFinal(env, s0, lines, i + 1);
          return Fail(Classify(outcome.error, lines[i]));
        }
      }
      assert lines[..|lines|] == lines;
      streams.CloseAll();
      EmitState();
      r := Pass;
    }
  }
}
