/** What a whole session does, stated per stream and per checkpoint and proved
    against the line-by-line state machine of module Protocol. */
module Properties {
  import opened Wrappers
  import opened Json
  import opened Errors
  import opened Protocol

  /** The message a line decodes to, when `parse_line` accepts it. */
  function Message(env: Env, line: string): Option<map<string, Json>> {
    match ParseLine(env.parse, line)
    case Success(obj) => Some(obj)
    case Failure(_) => None
  }

  /** The line is a complete SCHEMA message for stream `name`. */
  predicate LineSchemaFor(env: Env, line: string, name: string) {
    Message(env, line).Some? && SchemaFor(Message(env, line).value, name)
  }

  /** The line is a RECORD message for stream `name`. */
  predicate LineRecordFor(env: Env, line: string, name: string) {
    Message(env, line).Some? && RecordFor(Message(env, line).value, name)
  }

  // Reference definitions: each follows one stream, or the checkpoint, through
  // the lines on its own, ignoring every other stream.

  /** The entry of `name` after `lines`: the one built by the last SCHEMA for it. */
  function LatestEntry(env: Env, name: string, init: Option<Entry>, lines: seq<string>): Option<Entry>
    decreases |lines|
  {
    if |lines| == 0 then init
    else
      var prev := LatestEntry(env, name, init, lines[..|lines| - 1]);
      match Message(env, lines[|lines| - 1])
      case Some(obj) => EntryAfter(name, prev, obj)
      case None => prev
  }

  /** The file of `name` after `lines`: the records for it since its last SCHEMA. */
  function ExpectedFile(env: Env, name: string, init: Option<seq<string>>, lines: seq<string>): Option<seq<string>>
    decreases |lines|
  {
    if |lines| == 0 then init
    else
      var prev := ExpectedFile(env, name, init, lines[..|lines| - 1]);
      match Message(env, lines[|lines| - 1])
      case Some(obj) => FileAfter(env, name, prev, obj)
      case None => prev
  }

  /** The checkpoint after `lines`: the value of the last STATE message. */
  function LastState(env: Env, init: Json, lines: seq<string>): Json
    decreases |lines|
  {
    if |lines| == 0 then init
    else
      var prev := LastState(env, init, lines[..|lines| - 1]);
      match Message(env, lines[|lines| - 1])
      case Some(obj) => StateAfter(prev, obj)
      case None => prev
  }

  /** Once a line has failed, no later line is looked at. */
  lemma {:induction false} AbortedIsFinal(env: Env, s0: TargetState, lines: seq<string>, more: seq<string>)
    requires WellFormed(s0.registry)
    requires RunLines(env, s0, lines).Aborted?
    ensures RunLines(env, s0, lines + more) == RunLines(env, s0, lines)
    decreases |more|
  {
    if |more| == 0 {
      assert lines + more == lines;
    } else {
      var all := lines + more;
      assert all[..|all| - 1] == lines + more[..|more| - 1];
      AbortedIsFinal(env, s0, lines, more[..|more| - 1]);
    }
  }

  /** A session that failed on a prefix of its lines ends as that prefix did. */
  lemma {:induction false} AbortedPrefixIsFinal(env: Env, s0: TargetState, lines: seq<string>, k: nat)
    requires WellFormed(s0.registry)
    requires k <= |lines|
    requires RunLines(env, s0, lines[..k]).Aborted?
    ensures RunLines(env, s0, lines) == RunLines(env, s0, lines[..k])
  {
    AbortedIsFinal(env, s0, lines[..k], lines[k..]);
    assert lines[..k] + lines[k..] == lines;
  }

  /** A session that is still running got through every shorter prefix. */
  lemma {:induction false} PrefixRunning(env: Env, s0: TargetState, lines: seq<string>, k: nat)
    requires WellFormed(s0.registry)
    requires RunLines(env, s0, lines).Running?
    requires k <= |lines|
    ensures RunLines(env, s0, lines[..k]).Running?
  {
    if RunLines(env, s0, lines[..k]).Aborted? {
      AbortedPrefixIsFinal(env, s0, lines, k);
    }
  }

  /** An aborted session stopped at one line `k`: every line before it was
      processed, line `k` raised, and the session ends with that line's error
      and the state as line `k` found it. */
  lemma {:induction false} FirstFailure(env: Env, s0: TargetState, lines: seq<string>) returns (k: nat)
    requires WellFormed(s0.registry)
    requires RunLines(env, s0, lines).Aborted?
    ensures k < |lines|
    ensures RunLines(env, s0, lines[..k]).Running?
    ensures Step(env, RunLines(env, s0, lines[..k]).s, lines[k]).Failure?
    ensures RunLines(env, s0, lines) ==
      Aborted(RunLines(env, s0, lines[..k]).s,
              Classify(Step(env, RunLines(env, s0, lines[..k]).s, lines[k]).error, lines[k]))
    decreases |lines|
  {
    var n := |lines| - 1;
    if RunLines(env, s0, lines[..n]).Aborted? {
      k := FirstFailure(env, s0, lines[..n]);
      assert lines[..n][..k] == lines[..k];
      assert lines[..n][k] == lines[k];
    } else {
      k := n;
    }
  }

  /** After a running session each stream's entry is the one its last SCHEMA
      built: a re-declared schema replaces the earlier one. */
  lemma {:induction false} RunKeepsLatestEntry(env: Env, s0: TargetState, lines: seq<string>, name: string)
    requires WellFormed(s0.registry)
    requires RunLines(env, s0, lines).Running?
    ensures Lookup(RunLines(env, s0, lines).s.registry.streams, name) ==
      LatestEntry(env, name, Lookup(s0.registry.streams, name), lines)
    decreases |lines|
  {
    if |lines| > 0 {
      RunKeepsLatestEntry(env, s0, lines[..|lines| - 1], name);
    }
  }

  /** After a running session each stream's file holds exactly the records
      for it since its last SCHEMA, whatever was sent for other streams. */
  lemma {:induction false} RunWritesExpectedFile(env: Env, s0: TargetState, lines: seq<string>, name: string)
    requires WellFormed(s0.registry)
    requires RunLines(env, s0, lines).Running?
    ensures Lookup(RunLines(env, s0, lines).s.registry.files, name) ==
      ExpectedFile(env, name, Lookup(s0.registry.files, name), lines)
    decreases |lines|
  {
    if |lines| > 0 {
      RunWritesExpectedFile(env, s0, lines[..|lines| - 1], name);
    }
  }

  /** After a running session the checkpoint is the value of the last STATE
      message; a RECORD does not reset it. */
  lemma {:induction false} RunKeepsLastState(env: Env, s0: TargetState, lines: seq<string>)
    requires WellFormed(s0.registry)
    requires RunLines(env, s0, lines).Running?
    ensures RunLines(env, s0, lines).s.state == LastState(env, s0.state, lines)
    decreases |lines|
  {
    if |lines| > 0 {
      RunKeepsLastState(env, s0, lines[..|lines| - 1]);
    }
  }

  /** Without a SCHEMA for `name` its entry stays what it was. */
  lemma {:induction false} NoSchemaKeepsEntry(env: Env, name: string, init: Option<Entry>, lines: seq<string>)
    requires forall j :: 0 <= j < |lines| ==> !LineSchemaFor(env, lines[j], name)
    ensures LatestEntry(env, name, init, lines) == init
    decreases |lines|
  {
    if |lines| > 0 {
      var n := |lines| - 1;
      assert forall j :: 0 <= j < n ==> lines[..n][j] == lines[j];
      NoSchemaKeepsEntry(env, name, init, lines[..n]);
      assert !LineSchemaFor(env, lines[n], name);
    }
  }

  /** Without a SCHEMA for `name` no file is created for it. */
  lemma {:induction false} NoSchemaNoFile(env: Env, name: string, lines: seq<string>)
    requires forall j :: 0 <= j < |lines| ==> !LineSchemaFor(env, lines[j], name)
    ensures ExpectedFile(env, name, None, lines) == None
    decreases |lines|
  {
    if |lines| > 0 {
      var n := |lines| - 1;
      assert forall j :: 0 <= j < n ==> lines[..n][j] == lines[j];
      NoSchemaNoFile(env, name, lines[..n]);
      assert !LineSchemaFor(env, lines[n], name);
    }
  }

  /** A RECORD for a stream before any SCHEMA for it stops the session with
      `MissingSchema`, whatever was sent for other streams. */
  lemma {:induction false} RecordBeforeSchemaAborts(env: Env, s0: TargetState, lines: seq<string>, name: string, k: nat)
    requires WellFormed(s0.registry)
    requires name !in s0.registry.streams
    requires k < |lines| && LineRecordFor(env, lines[k], name)
    requires forall j :: 0 <= j < k ==> !LineSchemaFor(env, lines[j], name)
    ensures RunLines(env, s0, lines).Aborted?
    ensures RunLines(env, s0, lines[..k]).Running? ==>
      RunLines(env, s0, lines) ==
        Aborted(RunLines(env, s0, lines[..k]).s, UnknownErrorTap(MissingSchema(JStr(name))))
  {
    var pre := RunLines(env, s0, lines[..k]);
    if pre.Running? {
      RunKeepsLatestEntry(env, s0, lines[..k], name);
      assert forall j :: 0 <= j < k ==> lines[..k][j] == lines[j];
      NoSchemaKeepsEntry(env, name, None, lines[..k]);
      assert name !in pre.s.registry.streams;
      assert lines[..k + 1][..k] == lines[..k];
      assert RunLines(env, s0, lines[..k + 1]) ==
        Aborted(pre.s, UnknownErrorTap(MissingSchema(JStr(name))));
      AbortedPrefixIsFinal(env, s0, lines, k + 1);
    } else {
      AbortedPrefixIsFinal(env, s0, lines, k);
    }
  }

  /** In a running session every RECORD for `name` was valid against the
      schema of the last SCHEMA for `name` before it. */
  lemma {:induction false} RecordsMatchLatestSchema(env: Env, s0: TargetState, lines: seq<string>, name: string, k: nat)
    requires WellFormed(s0.registry)
    requires RunLines(env, s0, lines).Running?
    requires k < |lines| && LineRecordFor(env, lines[k], name)
    ensures LatestEntry(env, name, Lookup(s0.registry.streams, name), lines[..k]).Some?
    ensures "record" in Message(env, lines[k]).value
    ensures env.valid(LatestEntry(env, name, Lookup(s0.registry.streams, name), lines[..k]).value.schema,
                      Message(env, lines[k]).value["record"])
  {
    PrefixRunning(env, s0, lines, k + 1);
    assert lines[..k + 1][..k] == lines[..k];
    assert lines[..k + 1][k] == lines[k];
    RunKeepsLatestEntry(env, s0, lines[..k], name);
  }

  /** A stream that never had a SCHEMA gets no file, whether the session
      got through its lines or stopped at a failure. */
  lemma {:induction false} NoFileWithoutSchema(env: Env, s0: TargetState, lines: seq<string>, name: string)
    requires WellFormed(s0.registry)
    requires name !in s0.registry.streams
    requires forall j :: 0 <= j < |lines| ==> !LineSchemaFor(env, lines[j], name)
    ensures name !in RunLines(env, s0, lines).s.registry.files
  {
    var ran := lines;
    if RunLines(env, s0, lines).Aborted? {
      var k := FirstFailure(env, s0, lines);
      ran := lines[..k];
      assert forall j :: 0 <= j < k ==> ran[j] == lines[j];
    }
    RunWritesExpectedFile(env, s0, ran, name);
    NoSchemaNoFile(env, name, ran);
  }

  /** In a running session, a further RECORD for a stream whose file is open,
      carrying a record valid against the schema of the stream's last SCHEMA,
      is processed and appends exactly its serialized record to that file. */
  lemma {:induction false} ValidRecordIsWritten(env: Env, s0: TargetState, lines: seq<string>, line: string, name: string)
    requires WellFormed(s0.registry)
    requires RunLines(env, s0, lines).Running?
    requires LineRecordFor(env, line, name) && "record" in Message(env, line).value
    requires LatestEntry(env, name, Lookup(s0.registry.streams, name), lines).Some?
    requires env.valid(LatestEntry(env, name, Lookup(s0.registry.streams, name), lines).value.schema,
                       Message(env, line).value["record"])
    requires name !in RunLines(env, s0, lines).s.registry.closed
    ensures RunLines(env, s0, lines + [line]).Running?
    ensures name in RunLines(env, s0, lines).s.registry.files
    ensures RunLines(env, s0, lines + [line]).s.registry.files[name] ==
      RunLines(env, s0, lines).s.registry.files[name] + [env.dumps(Message(env, line).value["record"]) + "\n"]
  {
    RunKeepsLatestEntry(env, s0, lines, name);
    var all := lines + [line];
    assert all[..|all| - 1] == lines;
    assert all[|all| - 1] == line;
  }

  /** The loop itself closes no file: only the close-all at the end of a
      successful session does. */
  lemma {:induction false} RunClosesNothing(env: Env, s0: TargetState, lines: seq<string>)
    requires WellFormed(s0.registry)
    ensures RunLines(env, s0, lines).s.registry.closed <= s0.registry.closed
    decreases |lines|
  {
    if |lines| > 0 {
      RunClosesNothing(env, s0, lines[..|lines| - 1]);
    }
  }

  /** A file closed before the loop is open after it only if a SCHEMA for
      its stream reopened it: without one it stays closed, whether the loop
      got through its lines or stopped at a failure. */
  lemma {:induction false} ClosedStaysClosed(env: Env, s0: TargetState, lines: seq<string>, name: string)
    requires WellFormed(s0.registry)
    requires name in s0.registry.closed
    requires forall i :: 0 <= i < |lines| ==> !LineSchemaFor(env, lines[i], name)
    ensures name in RunLines(env, s0, lines).s.registry.closed
    decreases |lines|
  {
    if |lines| > 0 {
      var init := lines[..|lines| - 1];
      forall i | 0 <= i < |init|
        ensures !LineSchemaFor(env, init[i], name)
      {
        assert init[i] == lines[i];
      }
      ClosedStaysClosed(env, s0, init, name);
      assert !LineSchemaFor(env, lines[|lines| - 1], name);
    }
  }

  /** A failed session closes no file, and a file it finds closed is open
      at its end only if a SCHEMA for its stream reopened it. */
  lemma {:induction false} FailedSessionClosesNothing(env: Env, s0: TargetState, lines: seq<string>)
    requires WellFormed(s0.registry)
    requires Persist(env, s0, lines).outcome.Fail?
    ensures Persist(env, s0, lines).final.registry.closed <= s0.registry.closed
    ensures forall name :: name in s0.registry.closed && name !in Persist(env, s0, lines).final.registry.closed ==>
      exists i :: 0 <= i < |lines| && LineSchemaFor(env, lines[i], name)
  {
    RunClosesNothing(env, s0, lines);
    forall name | name in s0.registry.closed && name !in Persist(env, s0, lines).final.registry.closed
      ensures exists i :: 0 <= i < |lines| && LineSchemaFor(env, lines[i], name)
    {
      if forall i :: 0 <= i < |lines| ==> !LineSchemaFor(env, lines[i], name) {
        ClosedStaysClosed(env, s0, lines, name);
      }
    }
  }

  /** A session that succeeds closes every file and writes the last STATE
      value to standard output exactly when that value is truthy; one that
      fails writes nothing. */
  lemma {:induction false} SessionEmitsLastState(env: Env, s0: TargetState, lines: seq<string>)
    requires WellFormed(s0.registry)
    ensures var ses := Persist(env, s0, lines);
      ses.emitted == (if ses.outcome.Pass? then Emitted(env, LastState(env, s0.state, lines)) else [])
  {
    if RunLines(env, s0, lines).Running? {
      RunKeepsLastState(env, s0, lines);
    }
  }

  /** The state after the test's SCHEMA for "orders". */
  function OrdersDeclared(schema: Json, keys: Json): TargetState {
    TargetState(Registry(map["orders" := Entry("orders", schema, keys)], map["orders" := []], {}), JStr(""))
  }

  /** Each of the three lines of the repository's own test succeeds. */
  lemma OrdersSteps(env: Env, schemaLine: string, stateLine: string, recordLine: string,
                    schema: Json, keys: Json, value: Json, record: Json)
    requires env.parse(schemaLine) == Some(JObj(map["type" := JStr("SCHEMA"), "stream" := JStr("orders"),
                                                     "schema" := schema, "key_properties" := keys]))
    requires env.parse(stateLine) == Some(JObj(map["type" := JStr("STATE"), "value" := value]))
    requires env.parse(recordLine) == Some(JObj(map["type" := JStr("RECORD"), "stream" := JStr("orders"),
                                                     "record" := record]))
    requires env.valid(schema, record)
    ensures Step(env, Initial, schemaLine) == Success(OrdersDeclared(schema, keys))
    ensures Step(env, OrdersDeclared(schema, keys), stateLine) == Success(OrdersDeclared(schema, keys).(state := value))
    ensures Step(env, OrdersDeclared(schema, keys).(state := value), recordLine) ==
      Success(TargetState(Registry(map["orders" := Entry("orders", schema, keys)],
                                   map["orders" := [env.dumps(record) + "\n"]], {}), value))
  {
    var schemaMsg := map["type" := JStr("SCHEMA"), "stream" := JStr("orders"),
                         "schema" := schema, "key_properties" := keys];
    var recordMsg := map["type" := JStr("RECORD"), "stream" := JStr("orders"), "record" := record];
    var s1 := OrdersDeclared(schema, keys);
    var s2 := s1.(state := value);
    assert schemaMsg["type"] == JStr("SCHEMA") && schemaMsg["stream"] == JStr("orders");
    assert Initial.registry.streams["orders" := Entry("orders", schema, keys)] == s1.registry.streams;
    assert Initial.registry.files["orders" := []] == s1.registry.files;
    assert Initial.registry.closed - {"orders"} == {};
    assert recordMsg["type"] == JStr("RECORD") && recordMsg["stream"] == JStr("orders");
    var line := env.dumps(record) + "\n";
    assert s2.registry.files["orders"] + [line] == [line];
    assert s2.registry.files["orders" := [line]] == map["orders" := [line]];
    assert Get(s2.registry, JStr("orders")) == Success(Entry("orders", schema, keys));
    assert Write(s2.registry, "orders", line) ==
      Success(Registry(map["orders" := Entry("orders", schema, keys)], map["orders" := [line]], {}));
  }

  /** The session of the repository's own test: a SCHEMA for "orders", a
      STATE and a valid RECORD leave one "orders" file holding the one
      serialized record, and the checkpoint is the STATE value. */
  lemma OrdersSession(env: Env, schemaLine: string, stateLine: string, recordLine: string,
                      schema: Json, keys: Json, value: Json, record: Json)
    requires env.parse(schemaLine) == Some(JObj(map["type" := JStr("SCHEMA"), "stream" := JStr("orders"),
                                                     "schema" := schema, "key_properties" := keys]))
    requires env.parse(stateLine) == Some(JObj(map["type" := JStr("STATE"), "value" := value]))
    requires env.parse(recordLine) == Some(JObj(map["type" := JStr("RECORD"), "stream" := JStr("orders"),
                                                     "record" := record]))
    requires env.valid(schema, record)
    ensures var ses := Persist(env, Initial, [schemaLine, stateLine, recordLine]);
      && ses.outcome == Pass
      && ses.final.registry.files == map["orders" := [env.dumps(record) + "\n"]]
      && ses.final.state == value
      && ses.emitted == Emitted(env, value)
  {
    OrdersSteps(env, schemaLine, stateLine, recordLine, schema, keys, value, record);
    var lines := [schemaLine, stateLine, recordLine];
    assert [schemaLine][..0] == [];
    assert [schemaLine, stateLine][..1] == [schemaLine];
    var s1 := OrdersDeclared(schema, keys);
    assert RunLines(env, Initial, []) == Running(Initial);
    assert RunLines(env, Initial, [schemaLine]) == Running(s1);
    assert RunLines(env, Initial, [schemaLine, stateLine]) == Running(s1.(state := value));
    assert lines[..2] == [schemaLine, stateLine];
    assert RunLines(env, Initial, lines).Running?;
  }
}
