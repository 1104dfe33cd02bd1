/** The execution events, their JSON layout, the hand-written decoder of `runner.rs`, and the fold
over events that builds an invocation response. */
module Events {
  import opened Wrappers
  import opened Text
  import opened Utf8
  import opened LineBuffer

  datatype Number = PosInt(n: U64) | NegInt(i: int) | Float(text: string)

  /** `serde_json::Value`. */
  datatype Json =
    | Null
    | Bool(b: bool)
    | Num(number: Number)
    | Str(s: string)
    | Arr(items: seq<Json>)
    | Obj(fields: map<string, Json>)
  {
    function Get(key: string): Option<Json> {
      if Obj? && key in fields then Some(fields[key]) else None
    }

    function AsStr(): Option<string> {
      if Str? then Some(s) else None
    }

    function AsU64(): Option<U64> {
      if Num? && number.PosInt? then Some(number.n) else None
    }
  }

  datatype LogLevel = Log | Info | Warn | Error | Debug | Trace

  datatype SourceLocation = SourceLocation(line: U32, column: U32, filename: Option<string>)

  datatype StackFrame = StackFrame(functionName: Option<string>, location: SourceLocation)

  datatype Metrics = Metrics(cpuTimeMs: U64, wallTimeMs: U64, memoryUsedBytes: U64, memoryPeakBytes: U64)

  datatype Event =
    | Console(level: LogLevel, args: seq<Json>, timestampMs: U64)
    | Returned(value: Json)
    | Failed(message: string, name: string, location: Option<SourceLocation>, stack: seq<StackFrame>)
    | Completed(metrics: Metrics)
    | OtherEvent

  // ---------------------------------------------------------------------------------------------
  // The decoder
  // ---------------------------------------------------------------------------------------------

  function GetStr(json: Json, key: string): Option<string> {
    match json.Get(key)
    case Some(v) => v.AsStr()
    case None => None
  }

  function GetU64(json: Json, key: string): Option<U64> {
    match json.Get(key)
    case Some(v) => v.AsU64()
    case None => None
  }

  function ParseLevel(s: string): LogLevel {
    if s == "info" then Info else if s == "warn" then Warn else if s == "error" then Error
    else if s == "debug" then Debug else if s == "trace" then Trace else Log
  }

  /** The numbers are cut down to 32 bits, as the source's `as u32` does. */
  function ParseLocation(json: Json): Option<SourceLocation> {
    if json.Null? || GetU64(json, "line").None? || GetU64(json, "column").None? then None
    else Some(SourceLocation(GetU64(json, "line").value % U32_RANGE, GetU64(json, "column").value % U32_RANGE,
                             GetStr(json, "filename")))
  }

  function GetLocation(json: Json): Option<SourceLocation> {
    match json.Get("location")
    case Some(v) => ParseLocation(v)
    case None => None
  }

  /** Frames without a usable location are dropped. */
  function ParseFrames(frames: seq<Json>): seq<StackFrame> {
    if frames == [] then []
    else
      var rest := ParseFrames(frames[1..]);
      match GetLocation(frames[0])
      case Some(location) => [StackFrame(GetStr(frames[0], "function_name"), location)] + rest
      case None => rest
  }

  function ParseConsole(json: Json): Option<Event> {
    var level, args, time := GetStr(json, "level"), json.Get("args"), GetU64(json, "timestamp_ms");
    if level.None? || args.None? || !args.value.Arr? || time.None? then None
    else Some(Console(ParseLevel(level.value), args.value.items, time.value))
  }

  function ParseFailed(json: Json): Option<Event> {
    var message, name, stack := GetStr(json, "message"), json.Get("name"), json.Get("stack");
    if message.None? || name.None? then None
    else Some(Failed(
      message.value,
      if name.value.Str? then name.value.s else "Error",
      GetLocation(json),
      if stack.Some? && stack.value.Arr? then ParseFrames(stack.value.items) else []))
  }

  function ParseEvent(json: Json): Option<Event> {
    match GetStr(json, "type")
    case None => None
    case Some(kind) =>
      if kind == "console" then ParseConsole(json)
      else if kind == "returned" then
        (match json.Get("value")
         case Some(v) => Some(Returned(v))
         case None => None)
      else if kind == "error" then ParseFailed(json)
      else None
  }

  // ---------------------------------------------------------------------------------------------
  // The layout that the derive attributes of `types.rs` describe
  // ---------------------------------------------------------------------------------------------

  function LevelText(level: LogLevel): string {
    match level
    case Log => "log"
    case Info => "info"
    case Warn => "warn"
    case Error => "error"
    case Debug => "debug"
    case Trace => "trace"
  }

  function Optional(key: string, value: Option<string>): map<string, Json> {
    match value
    case Some(s) => map[key := Str(s)]
    case None => map[]
  }

  /** A location object with numbers of any size that JSON readers accept. */
  function LocationJson(line: U64, column: U64, filename: Option<string>): Json {
    Obj(map["line" := Num(PosInt(line)), "column" := Num(PosInt(column))] + Optional("filename", filename))
  }

  function FrameJson(f: StackFrame): Json {
    Obj(map["location" := LocationJson(f.location.line, f.location.column, f.location.filename)]
        + Optional("function_name", f.functionName))
  }

  function FramesJson(frames: seq<StackFrame>): seq<Json> {
    if frames == [] then [] else [FrameJson(frames[0])] + FramesJson(frames[1..])
  }

  /** The events that code run in a worker produces. */
  predicate FromWorker(e: Event) {
    e.Console? || e.Returned? || e.Failed?
  }

  function EventJson(e: Event): Json
    requires FromWorker(e)
  {
    match e
    case Console(level, args, time) =>
      Obj(map[
        "type" := Str("console"),
        "level" := Str(LevelText(level)),
        "args" := Arr(args),
        "timestamp_ms" := Num(PosInt(time))])
    case Returned(value) => Obj(map["type" := Str("returned"), "value" := value])
    case Failed(message, name, location, stack) =>
      Obj(map["type" := Str("error"), "message" := Str(message), "name" := Str(name), "stack" := Arr(FramesJson(stack))]
          + (match location
             case Some(l) => map["location" := LocationJson(l.line, l.column, l.filename)]
             case None => map[]))
  }

  /** A location is read back unchanged exactly when line and column fit in 32 bits; otherwise both
      are reduced modulo 2^32. */
  lemma LocationRoundTrip(line: U64, column: U64, filename: Option<string>)
    ensures ParseLocation(LocationJson(line, column, filename)).Some?
    ensures var l := ParseLocation(LocationJson(line, column, filename)).value;
            && l == SourceLocation(line % U32_RANGE, column % U32_RANGE, filename)
            && (line < U32_RANGE && column < U32_RANGE <==> l.line == line && l.column == column)
  {
  }

  lemma {:induction false} FramesRoundTrip(frames: seq<StackFrame>)
    ensures ParseFrames(FramesJson(frames)) == frames
  {
    if frames != [] {
      var f := frames[0];
      LocationRoundTrip(f.location.line, f.location.column, f.location.filename);
      FramesRoundTrip(frames[1..]);
      assert FramesJson(frames)[1..] == FramesJson(frames[1..]);
      assert GetStr(FrameJson(f), "function_name") == f.functionName;
      assert [f] + frames[1..] == frames;
    }
  }

  lemma LevelRoundTrip(level: LogLevel)
    ensures ParseLevel(LevelText(level)) == level
  {
  }

  /** The decoder is lenient: unknown levels are plain messages, and an error with a name that is no text is
      named `Error`. Without any name it is no error. */
  lemma OddEventsAreRead(level: string, message: string, name: Json, args: seq<Json>, time: U64)
    ensures var known := ["info", "warn", "error", "debug", "trace"];
            level !in known ==>
              ParseEvent(Obj(map["type" := Str("console"), "level" := Str(level), "args" := Arr(args),
                                 "timestamp_ms" := Num(PosInt(time))]))
              == Some(Console(Log, args, time))
    ensures ParseEvent(Obj(map["type" := Str("error"), "message" := Str(message), "name" := name]))
            == Some(Failed(message, if name.Str? then name.s else "Error", None, []))
    ensures ParseEvent(Obj(map["type" := Str("error"), "message" := Str(message)])) == None
  {
    var known := ["info", "warn", "error", "debug", "trace"];
    assert known[0] == "info" && known[1] == "warn" && known[2] == "error" && known[3] == "debug"
           && known[4] == "trace";
    OddErrorsAreRead(message, name);
    var json := Obj(map["type" := Str("console"), "level" := Str(level), "args" := Arr(args),
                        "timestamp_ms" := Num(PosInt(time))]);
    assert GetStr(json, "type") == Some("console") && GetStr(json, "level") == Some(level);
  }

  lemma OddErrorsAreRead(message: string, name: Json)
    ensures ParseEvent(Obj(map["type" := Str("error"), "message" := Str(message), "name" := name]))
            == Some(Failed(message, if name.Str? then name.s else "Error", None, []))
    ensures ParseEvent(Obj(map["type" := Str("error"), "message" := Str(message)])) == None
    ensures forall line: U64, column: U64, stack: Json | !stack.Arr? ::
              ParseEvent(Obj(map["type" := Str("error"), "message" := Str(message), "name" := name, "stack" := stack,
                                 "location" := LocationJson(line, column, None)]))
              == Some(Failed(message, if name.Str? then name.s else "Error",
                             Some(SourceLocation(line % U32_RANGE, column % U32_RANGE, None)), []))
  {
    forall line: U64, column: U64, stack: Json | !stack.Arr?
      ensures ParseEvent(Obj(map["type" := Str("error"), "message" := Str(message), "name" := name, "stack" := stack,
                                 "location" := LocationJson(line, column, None)]))
              == Some(Failed(message, if name.Str? then name.s else "Error",
                             Some(SourceLocation(line % U32_RANGE, column % U32_RANGE, None)), []))
    {
      BadStackIsNoStack(message, name, line, column, stack);
    }
    var named := Obj(map["type" := Str("error"), "message" := Str(message), "name" := name]);
    assert GetStr(named, "type") == Some("error") && GetStr(named, "message") == Some(message);
    assert named.Get("name") == Some(name) && named.Get("location") == None && named.Get("stack") == None;
    var unnamed := Obj(map["type" := Str("error"), "message" := Str(message)]);
    assert GetStr(unnamed, "type") == Some("error") && unnamed.Get("name") == None;
  }

  lemma BadStackIsNoStack(message: string, name: Json, line: U64, column: U64, stack: Json)
    requires !stack.Arr?
    ensures ParseEvent(Obj(map["type" := Str("error"), "message" := Str(message), "name" := name, "stack" := stack,
                               "location" := LocationJson(line, column, None)]))
            == Some(Failed(message, if name.Str? then name.s else "Error",
                           Some(SourceLocation(line % U32_RANGE, column % U32_RANGE, None)), []))
  {
    var json := Obj(map["type" := Str("error"), "message" := Str(message), "name" := name, "stack" := stack,
                        "location" := LocationJson(line, column, None)]);
    LocationRoundTrip(line, column, None);
    assert GetStr(json, "type") == Some("error") && GetStr(json, "message") == Some(message);
    assert json.Get("name") == Some(name) && json.Get("stack") == Some(stack);
    assert json.Get("location") == Some(LocationJson(line, column, None));
  }

  lemma FailedRoundTrip(e: Event)
    requires e.Failed?
    ensures GetStr(EventJson(e), "type") == Some("error") && ParseFailed(EventJson(e)) == Some(e)
  {
    var json := EventJson(e);
    FramesRoundTrip(e.stack);
    assert json.Get("stack") == Some(Arr(FramesJson(e.stack)));
    assert json.Get("message") == Some(Str(e.message)) && json.Get("name") == Some(Str(e.name));
    if e.location.Some? {
      var l := e.location.value;
      LocationRoundTrip(l.line, l.column, l.filename);
      assert json.Get("location") == Some(LocationJson(l.line, l.column, l.filename));
    } else {
      assert json.Get("location") == None;
    }
  }

  lemma ConsoleRoundTrip(e: Event)
    requires e.Console?
    ensures GetStr(EventJson(e), "type") == Some("console") && ParseConsole(EventJson(e)) == Some(e)
  {
    LevelRoundTrip(e.level);
  }

  /** The decoder inverts the layout of every event a worker produces. */
  lemma EventRoundTrip(e: Event)
    requires FromWorker(e)
    ensures ParseEvent(EventJson(e)) == Some(e)
  {
    if e.Failed? {
      FailedRoundTrip(e);
    } else if e.Console? {
      ConsoleRoundTrip(e);
    }
  }

  // ---------------------------------------------------------------------------------------------
  // From a list of events to bytes and back
  // ---------------------------------------------------------------------------------------------

  /** The JSON library: printed texts read back, stay on one line (section 7 of RFC 8259) and carry
      no surrounding white space. */
  datatype Codec = Codec(write: Json -> string, parse: string -> Option<Json>)
  {
    ghost predicate Sound() {
      forall json ::
        && parse(write(json)) == Some(json)
        && IsTightLine(write(json))
    }

    /** `parse_event` on one line. */
    function ParseLine(line: string): Option<Event> {
      match parse(line)
      case Some(json) => ParseEvent(json)
      case None => None
    }
  }

  predicate IsTightLine(line: string) {
    line != "" && '\n' !in line && !IsSpace(line[0]) && !IsSpace(line[|line| - 1])
  }

  predicate AllFromWorker(events: seq<Event>) {
    forall i | 0 <= i < |events| :: FromWorker(events[i])
  }

  /** One JSON text a line. */
  function Written(codec: Codec, events: seq<Event>): string
    requires AllFromWorker(events)
  {
    if events == [] then "" else codec.write(EventJson(events[0])) + ['\n'] + Written(codec, events[1..])
  }

  /** A line parser that reads back how a worker event is written. */
  ghost predicate ReadsBack(codec: Codec, parse: Parser<Event>) {
    forall e: Event | FromWorker(e) :: parse(codec.write(EventJson(e))) == Some(e)
  }

  lemma FirstWrittenLine(codec: Codec, parse: Parser<Event>, e: Event, rest: string)
    requires codec.Sound() && ReadsBack(codec, parse) && FromWorker(e)
    ensures TextEvents(parse, codec.write(EventJson(e)) + ['\n'] + rest) == [e] + TextEvents(parse, rest)
  {
    var line := codec.write(EventJson(e));
    assert IsTightLine(line);
    FirstLineComesFirst(parse, line, rest);
    TrimOfTight(line, IsSpace);
    assert PieceEvents(parse, line) == [e];
  }

  lemma {:induction false} WrittenLinesAreRead(codec: Codec, parse: Parser<Event>, events: seq<Event>)
    requires codec.Sound() && ReadsBack(codec, parse) && AllFromWorker(events)
    ensures TextEvents(parse, Written(codec, events)) == events
  {
    if events == [] {
      EmptyTextHasNoEvents(parse);
    } else {
      FirstWrittenLine(codec, parse, events[0], Written(codec, events[1..]));
      WrittenLinesAreRead(codec, parse, events[1..]);
      assert [events[0]] + events[1..] == events;
    }
  }

  lemma WrittenEventsAreRead(codec: Codec, events: seq<Event>)
    requires codec.Sound() && AllFromWorker(events)
    ensures TextEvents(line => codec.ParseLine(line), Written(codec, events)) == events
  {
    var parse: Parser<Event> := line => codec.ParseLine(line);
    forall e: Event | FromWorker(e)
      ensures parse(codec.write(EventJson(e))) == Some(e)
    {
      EventRoundTrip(e);
    }
    WrittenLinesAreRead(codec, parse, events);
  }

  /** One JSON text a line, whatever the values are. */
  function JsonLines(codec: Codec, values: seq<Json>): string {
    if values == [] then "" else codec.write(values[0]) + ['\n'] + JsonLines(codec, values[1..])
  }

  /** What a line parser makes of the written values, one by one. */
  function ValueEvents(codec: Codec, parse: Parser<Event>, values: seq<Json>): seq<Event> {
    if values == [] then []
    else
      var rest := ValueEvents(codec, parse, values[1..]);
      match parse(codec.write(values[0]))
      case Some(e) => [e] + rest
      case None => rest
  }

  lemma FirstJsonLine(codec: Codec, parse: Parser<Event>, value: Json, rest: string)
    requires codec.Sound()
    ensures var line := codec.write(value);
            TextEvents(parse, line + ['\n'] + rest)
            == (if parse(line).Some? then [parse(line).value] else []) + TextEvents(parse, rest)
  {
    var line := codec.write(value);
    assert IsTightLine(line);
    FirstLineComesFirst(parse, line, rest);
    TrimOfTight(line, IsSpace);
  }

  lemma {:induction false} JsonLinesAreRead(codec: Codec, parse: Parser<Event>, values: seq<Json>)
    requires codec.Sound()
    ensures TextEvents(parse, JsonLines(codec, values)) == ValueEvents(codec, parse, values)
  {
    if values == [] {
      EmptyTextHasNoEvents(parse);
    } else {
      FirstJsonLine(codec, parse, values[0], JsonLines(codec, values[1..]));
      JsonLinesAreRead(codec, parse, values[1..]);
    }
  }

  lemma EmptyTextHasNoEvents<E>(parse: Parser<E>)
    ensures TextEvents(parse, "") == []
  {
    TextWithoutNewline(parse, "");
  }

  /** End to end: any list of worker events, written one a line, encoded in UTF-8 and cut into any
      chunks that start on character boundaries, comes back as exactly that list, in order, with all
      nested frames and optional parts. */
  method ExecuteReadsBack(codec: Codec, ghost events: seq<Event>, chunks: seq<seq<Byte>>) returns (got: seq<Event>)
    requires codec.Sound() && AllFromWorker(events)
    requires Joined(chunks) == EncodeText(Written(codec, events)) && OnBoundaries(chunks)
    ensures got == events
  {
    got := RunnerEvents(line => codec.ParseLine(line), AsItems(chunks));
    CuttingOnBoundariesDoesNotMatter(line => codec.ParseLine(line), chunks, Written(codec, events));
    WrittenEventsAreRead(codec, events);
  }

  // ---------------------------------------------------------------------------------------------
  // The fold over events in `handle_request_response`
  // ---------------------------------------------------------------------------------------------

  datatype Response = Response(result: Option<Json>, error: Option<string>, success: bool, metrics: Metrics)

  const NO_METRICS := Metrics(0, 0, 0, 0)

  datatype Kind = AReturn | AFailure | ACompletion

  predicate IsOf(e: Event, kind: Kind) {
    match kind
    case AReturn => e.Returned?
    case AFailure => e.Failed?
    case ACompletion => e.Completed?
  }

  /** `e` is the last event of the kind. */
  ghost predicate IsLast(events: seq<Event>, e: Event, kind: Kind) {
    exists i ::
      0 <= i < |events| && events[i] == e && IsOf(e, kind) && forall j | i < j < |events| :: !IsOf(events[j], kind)
  }

  ghost predicate Has(events: seq<Event>, kind: Kind) {
    exists i :: 0 <= i < |events| && IsOf(events[i], kind)
  }

  /** The response carries the last returned value, the last error message and the last metrics; it is
      a success exactly when no error event came, even after a value was returned. */
  method FoldResponse(events: seq<Event>) returns (r: Response)
    ensures r.result.None? <==> !Has(events, AReturn)
    ensures r.result.Some? ==> IsLast(events, Returned(r.result.value), AReturn)
    ensures r.success <==> !Has(events, AFailure)
    ensures r.error.Some? <==> !r.success
    ensures r.error.Some? ==> exists e: Event :: e.Failed? && e.message == r.error.value && IsLast(events, e, AFailure)
    ensures if Has(events, ACompletion) then IsLast(events, Completed(r.metrics), ACompletion)
            else r.metrics == Metrics(0, 0, 0, 0)
  {
    var result: Option<Json>, error: Option<string>, success, metrics := None, None, true, NO_METRICS;
    ghost var returned, failed, completed: int := -1, -1, -1;
    for i := 0 to |events|
      invariant -1 <= returned < i && -1 <= failed < i && -1 <= completed < i
      invariant forall j | returned < j < i :: !IsOf(events[j], AReturn)
      invariant forall j | failed < j < i :: !IsOf(events[j], AFailure)
      invariant forall j | completed < j < i :: !IsOf(events[j], ACompletion)
      invariant if returned < 0 then result.None? else result.Some? && events[returned] == Returned(result.value)
      invariant success <==> failed < 0
      invariant if failed < 0 then error.None?
                else error.Some? && events[failed].Failed? && events[failed].message == error.value
      invariant if completed < 0 then metrics == NO_METRICS else events[completed] == Completed(metrics)
    {
      match events[i] {
        case Returned(value) => result, returned := Some(value), i;
        case Failed(message, _, _, _) => error, success, failed := Some(message), false, i;
        case Completed(m) => metrics, completed := m, i;
        case _ =>
      }
    }
    r := Response(result, error, success, metrics);
    if failed >= 0 {
      assert IsLast(events, events[failed], AFailure);
    }
  }
}
