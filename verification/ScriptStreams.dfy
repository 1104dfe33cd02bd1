/** What a script puts out, from the templates that write it to the events of the host, along the two paths
of the system: `executor.js` writes for pooled workers, whose decoder is the derived one, and the script that
`runner.rs` generates writes for the runner, whose decoder is written by hand. */
module ScriptStreams {
  import opened Wrappers
  import opened Text
  import opened Utf8
  import opened LineBuffer
  import opened Events
  import opened ErrorEvents
  import opened DerivedDecoder
  import S = StackTrace

  /** One thing a script does: log, return, or throw. A function or a symbol has no JSON text, and returning
      it leaves out the value. An error without a stack has the empty one. */
  datatype Output =
    | Logged(level: LogLevel, args: seq<Json>, timestampMs: U64)
    | Result(value: Option<Json>)
    | Thrown(message: string, name: string, stack: string)

  // ---------------------------------------------------------------------------------------------
  // The two writers
  // ---------------------------------------------------------------------------------------------

  function ConsoleJson(level: string, args: seq<Json>, timestampMs: U64): Json {
    Obj(map[
      "type" := Str("console"), "level" := Str(level), "args" := Arr(args),
      "timestamp_ms" := Num(PosInt(timestampMs))])
  }

  function ResultJson(value: Option<Json>): Json {
    match value
    case Some(v) => Obj(map["type" := Str("returned"), "value" := v])
    case None => Obj(map["type" := Str("returned")])
  }

  /** The console of `executor.js` writes debug and trace messages as plain ones. */
  function ExecutorLevel(level: LogLevel): string {
    match level
    case Log => "log"
    case Info => "info"
    case Warn => "warn"
    case Error => "error"
    case Debug => "log"
    case Trace => "log"
  }

  function RunnerLevel(level: LogLevel): string {
    match level
    case Log => "log"
    case Info => "info"
    case Warn => "warn"
    case Error => "error"
    case Debug => "debug"
    case Trace => "trace"
  }

  predicate IsExactOutput(o: Output) {
    o.Thrown? ==> AllExact(S.FramesOf(o.stack))
  }

  function ExecutorJson(o: Output): Json
    requires IsExactOutput(o)
  {
    match o
    case Logged(level, args, time) => ConsoleJson(ExecutorLevel(level), args, time)
    case Result(value) => ResultJson(value)
    case Thrown(message, name, stack) => ScriptError(message, name, S.FramesOf(stack))
  }

  /** The generated script does not look at the stack. */
  function RunnerJson(o: Output): Json {
    match o
    case Logged(level, args, time) => ConsoleJson(RunnerLevel(level), args, time)
    case Result(value) => ResultJson(value)
    case Thrown(message, name, _) =>
      Obj(map["type" := Str("error"), "message" := Str(message), "name" := Str(name), "location" := Null,
              "stack" := Arr([])])
  }

  // ---------------------------------------------------------------------------------------------
  // What the host should get
  // ---------------------------------------------------------------------------------------------

  function PooledEvent(o: Output): seq<Event> {
    match o
    case Logged(level, args, time) => [Console(if level in {Debug, Trace} then Log else level, args, time)]
    case Result(value) => if value.Some? then [Returned(value.value)] else []
    case Thrown(message, name, stack) =>
      var frames := S.FramesOf(stack);
      if AllLocated(frames) then [Failed(message, name, FirstLocation(frames), Verbatim(frames))] else []
  }

  function PooledEvents(outputs: seq<Output>): seq<Event> {
    if outputs == [] then [] else PooledEvent(outputs[0]) + PooledEvents(outputs[1..])
  }

  function OneShotEvent(o: Output): seq<Event> {
    match o
    case Logged(level, args, time) => [Console(level, args, time)]
    case Result(value) => if value.Some? then [Returned(value.value)] else []
    case Thrown(message, name, _) => [Failed(message, name, None, [])]
  }

  function OneShotEvents(outputs: seq<Output>): seq<Event> {
    if outputs == [] then [] else OneShotEvent(outputs[0]) + OneShotEvents(outputs[1..])
  }

  // ---------------------------------------------------------------------------------------------
  // One output
  // ---------------------------------------------------------------------------------------------

  function AsList<T>(o: Option<T>): seq<T> {
    if o.Some? then [o.value] else []
  }

  lemma OutputIsDerived(o: Output, others: Json -> Option<Event>)
    requires IsExactOutput(o)
    ensures AsList(DeriveEvent(ExecutorJson(o), others)) == PooledEvent(o)
  {
    match o {
      case Logged(level, args, time) => DerivedRoundTrip(PooledEvent(o)[0], others);
      case Result(value) => assert GetStr(ResultJson(value), "type") == Some("returned");
      case Thrown(message, name, stack) => ErrorArrivesIffAllFramesLocated(message, name, S.FramesOf(stack), others);
    }
  }

  lemma OutputIsParsed(o: Output)
    ensures AsList(ParseEvent(RunnerJson(o))) == OneShotEvent(o)
  {
    match o {
      case Logged(level, args, time) => EventRoundTrip(Console(level, args, time));
      case Result(value) => assert GetStr(ResultJson(value), "type") == Some("returned");
      case Thrown(message, name, _) => RunnerErrorIsParsed(message, name, o.stack);
    }
  }

  /** How the six methods of a console arrive through a pooled worker. */
  lemma PooledLevels(args: seq<Json>, time: U64, others: Json -> Option<Event>)
    ensures var arrives := (from, to) => DeriveEvent(ExecutorJson(Logged(from, args, time)), others)
                                         == Some(Console(to, args, time));
            && arrives(Log, Log) && arrives(Info, Info) && arrives(Warn, Warn) && arrives(Error, Error)
            && arrives(Debug, Log) && arrives(Trace, Log)
  {
    forall level: LogLevel
      ensures DeriveEvent(ExecutorJson(Logged(level, args, time)), others)
              == Some(Console(if level == Debug || level == Trace then Log else level, args, time))
    {
      OutputIsDerived(Logged(level, args, time), others);
    }
  }

  /** Through the runner an error always arrives, with its message and name, and never with a location or a
      stack. */
  lemma RunnerErrorIsParsed(message: string, name: string, stack: string)
    ensures ParseEvent(RunnerJson(Thrown(message, name, stack))) == Some(Failed(message, name, None, []))
  {
    var json := RunnerJson(Thrown(message, name, stack));
    assert GetStr(json, "type") == Some("error") && GetStr(json, "message") == Some(message);
    assert json.Get("name") == Some(Str(name)) && json.Get("location") == Some(Null);
    assert json.Get("stack") == Some(Arr([]));
  }

  // ---------------------------------------------------------------------------------------------
  // Whole streams
  // ---------------------------------------------------------------------------------------------

  predicate AllExactOutputs(outputs: seq<Output>) {
    forall i | 0 <= i < |outputs| :: IsExactOutput(outputs[i])
  }

  function ExecutorValues(outputs: seq<Output>): seq<Json>
    requires AllExactOutputs(outputs)
  {
    if outputs == [] then [] else [ExecutorJson(outputs[0])] + ExecutorValues(outputs[1..])
  }

  function RunnerValues(outputs: seq<Output>): seq<Json> {
    if outputs == [] then [] else [RunnerJson(outputs[0])] + RunnerValues(outputs[1..])
  }

  lemma FirstValueEvent(codec: Codec, parse: Parser<Event>, value: Json, rest: seq<Json>)
    ensures ValueEvents(codec, parse, [value] + rest)
            == AsList(parse(codec.write(value))) + ValueEvents(codec, parse, rest)
  {
    assert ([value] + rest)[1..] == rest;
    assert [] + ValueEvents(codec, parse, rest) == ValueEvents(codec, parse, rest);
  }

  lemma {:induction false} OutputsAreDerived(codec: Codec, others: Json -> Option<Event>, outputs: seq<Output>)
    requires codec.Sound() && AllExactOutputs(outputs)
    ensures ValueEvents(codec, line => DeriveLine(codec, others, line), ExecutorValues(outputs))
            == PooledEvents(outputs)
  {
    if outputs != [] {
      OutputIsDerived(outputs[0], others);
      OutputsAreDerived(codec, others, outputs[1..]);
      FirstValueEvent(
        codec, line => DeriveLine(codec, others, line), ExecutorJson(outputs[0]), ExecutorValues(outputs[1..]));
    }
  }

  lemma {:induction false} OutputsAreParsed(codec: Codec, outputs: seq<Output>)
    requires codec.Sound()
    ensures ValueEvents(codec, line => codec.ParseLine(line), RunnerValues(outputs)) == OneShotEvents(outputs)
  {
    if outputs != [] {
      OutputIsParsed(outputs[0]);
      OutputsAreParsed(codec, outputs[1..]);
      FirstValueEvent(codec, line => codec.ParseLine(line), RunnerJson(outputs[0]), RunnerValues(outputs[1..]));
    }
  }

  /** End to end through a pooled worker. Whatever a script logs, returns and throws, written by
      `executor.js`, encoded and cut on character boundaries: the host gets it in order, debug and trace
      messages as plain ones. Missing are exactly the errors with a frame that has no location that
      fits, and results without a JSON text. */
  method PooledScript(
    codec: Codec, others: Json -> Option<Event>, onError: string -> Event, ghost outputs: seq<Output>,
    chunks: seq<seq<Byte>>)
    returns (got: seq<Event>)
    requires codec.Sound() && AllExactOutputs(outputs) && OnBoundaries(chunks)
    requires Joined(chunks) == EncodeText(JsonLines(codec, ExecutorValues(outputs)))
    ensures got == PooledEvents(outputs)
  {
    ghost var parse: Parser<Event> := line => DeriveLine(codec, others, line);
    AllIsReceived(chunks);
    got := WorkerEvents(line => DeriveLine(codec, others, line), onError, AsItems(chunks));
    CuttingOnBoundariesDoesNotMatter(parse, chunks, JsonLines(codec, ExecutorValues(outputs)));
    JsonLinesAreRead(codec, parse, ExecutorValues(outputs));
    OutputsAreDerived(codec, others, outputs);
  }

  /** End to end through the runner: the host gets all of it in order, but every error without its stack. */
  method OneShotScript(codec: Codec, ghost outputs: seq<Output>, chunks: seq<seq<Byte>>) returns (got: seq<Event>)
    requires codec.Sound() && OnBoundaries(chunks)
    requires Joined(chunks) == EncodeText(JsonLines(codec, RunnerValues(outputs)))
    ensures got == OneShotEvents(outputs)
  {
    ghost var parse: Parser<Event> := line => codec.ParseLine(line);
    got := RunnerEvents(line => codec.ParseLine(line), AsItems(chunks));
    CuttingOnBoundariesDoesNotMatter(parse, chunks, JsonLines(codec, RunnerValues(outputs)));
    JsonLinesAreRead(codec, parse, RunnerValues(outputs));
    OutputsAreParsed(codec, outputs);
  }

  /** An error thrown through a native frame is a failure for the runner, and nothing at all for a pooled
      worker. */
  lemma NativeFrameHidesFailure(message: string, name: string, stack: string)
    requires AllExact(S.FramesOf(stack)) && !AllLocated(S.FramesOf(stack))
    ensures PooledEvents([Thrown(message, name, stack)]) == []
    ensures OneShotEvents([Thrown(message, name, stack)]) == [Failed(message, name, None, [])]
  {
    var o := Thrown(message, name, stack);
    assert [o][1..] == [];
    assert OneShotEvents([o]) == OneShotEvent(o) + [];
  }
}
