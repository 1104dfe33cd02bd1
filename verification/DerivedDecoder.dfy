/** The event decoder that `worker.rs` gets from the derive attributes of `types.rs`, compared with the
hand-written one of `runner.rs`. */
module DerivedDecoder {
  import opened Wrappers
  import opened Text
  import opened Utf8
  import opened LineBuffer
  import opened Events
  import opened ErrorEvents
  import S = StackTrace

  // ---------------------------------------------------------------------------------------------
  // The derived decoder
  // ---------------------------------------------------------------------------------------------

  /** An optional text may be missing or null, but nothing else. */
  function DeriveOptional(json: Json, key: string): Option<Option<string>> {
    match json.Get(key)
    case None => Some(None)
    case Some(v) => if v.Null? then Some(None) else if v.Str? then Some(Some(v.s)) else None
  }

  /** Numbers that do not fit are an error here, not cut down. */
  function DeriveU32(json: Json, key: string): Option<U32> {
    match GetU64(json, key)
    case Some(n) => if n < U32_RANGE then Some(n) else None
    case None => None
  }

  function DeriveLocation(json: Json): Option<SourceLocation> {
    var line, column, filename := DeriveU32(json, "line"), DeriveU32(json, "column"), DeriveOptional(json, "filename");
    if json.Obj? && line.Some? && column.Some? && filename.Some? then
      Some(SourceLocation(line.value, column.value, filename.value))
    else None
  }

  /** The location of a frame is required. */
  function DeriveFrame(json: Json): Option<StackFrame> {
    var name, location := DeriveOptional(json, "function_name"), json.Get("location");
    if json.Obj? && name.Some? && location.Some? && DeriveLocation(location.value).Some? then
      Some(StackFrame(name.value, DeriveLocation(location.value).value))
    else None
  }

  function DeriveFrames(items: seq<Json>): Option<seq<StackFrame>> {
    if items == [] then Some([])
    else
      var first, rest := DeriveFrame(items[0]), DeriveFrames(items[1..]);
      if first.Some? && rest.Some? then Some([first.value] + rest.value) else None
  }

  function DeriveOptionalLocation(json: Json): Option<Option<SourceLocation>> {
    match json.Get("location")
    case None => Some(None)
    case Some(v) =>
      if v.Null? then Some(None)
      else if DeriveLocation(v).Some? then Some(Some(DeriveLocation(v).value))
      else None
  }

  function DeriveConsole(json: Json): Option<Event> {
    var level := GetStr(json, "level");
    if level.Some? && LevelText(ParseLevel(level.value)) == level.value then ParseConsole(json) else None
  }

  function DeriveFailed(json: Json): Option<Event> {
    var message, name := GetStr(json, "message"), GetStr(json, "name");
    var location, stack := DeriveOptionalLocation(json), json.Get("stack");
    if message.None? || name.None? || location.None? || stack.None? || !stack.value.Arr? then None
    else
      match DeriveFrames(stack.value.items)
      case Some(frames) => Some(Failed(message.value, name.value, location.value, frames))
      case None => None
  }

  predicate IsPlain(location: Option<Json>) {
    location.Some? ==> !location.value.Arr?
  }

  predicate AllPlain(frames: seq<Json>) {
    forall i | 0 <= i < |frames| :: !frames[i].Arr? && IsPlain(frames[i].Get("location"))
  }

  /** One of the three kinds of a worker, with objects for locations and frames and a text for the level. */
  predicate IsSpelledOut(json: Json) {
    var kind := GetStr(json, "type");
    || (kind == Some("console") && !(json.Get("level").Some? && json.Get("level").value.Obj?))
    || kind == Some("returned")
    || (kind == Some("error") && IsPlain(json.Get("location"))
        && (json.Get("stack").Some? && json.Get("stack").value.Arr? ==> AllPlain(json.Get("stack").value.items)))
  }

  /** `others` is what the decoder makes of all other texts, such as the remaining kinds of events. */
  function DeriveEvent(json: Json, others: Json -> Option<Event>): Option<Event> {
    if !IsSpelledOut(json) then others(json)
    else
      var kind := GetStr(json, "type");
      if kind == Some("console") then DeriveConsole(json)
      else if kind == Some("returned") then
        (match json.Get("value")
         case Some(v) => Some(Returned(v))
         case None => None)
      else DeriveFailed(json)
  }

  // ---------------------------------------------------------------------------------------------
  // It inverts the layout
  // ---------------------------------------------------------------------------------------------

  lemma LocationDerived(l: SourceLocation)
    ensures DeriveLocation(LocationJson(l.line, l.column, l.filename)) == Some(l)
  {
    var json := LocationJson(l.line, l.column, l.filename);
    assert GetU64(json, "line") == Some(l.line) && GetU64(json, "column") == Some(l.column);
    assert DeriveOptional(json, "filename") == Some(l.filename);
  }

  lemma {:induction false} FramesDerived(frames: seq<StackFrame>)
    ensures DeriveFrames(FramesJson(frames)) == Some(frames) && AllPlain(FramesJson(frames))
  {
    if frames != [] {
      var f, json := frames[0], FrameJson(frames[0]);
      LocationDerived(f.location);
      assert json.Get("location") == Some(LocationJson(f.location.line, f.location.column, f.location.filename));
      assert DeriveOptional(json, "function_name") == Some(f.functionName);
      FramesDerived(frames[1..]);
      assert FramesJson(frames)[1..] == FramesJson(frames[1..]);
      assert [f] + frames[1..] == frames;
    }
  }

  lemma FailedDerived(e: Event, others: Json -> Option<Event>)
    requires e.Failed?
    ensures DeriveEvent(EventJson(e), others) == Some(e)
  {
    var json := EventJson(e);
    FramesDerived(e.stack);
    assert GetStr(json, "type") == Some("error") && json.Get("stack") == Some(Arr(FramesJson(e.stack)));
    assert GetStr(json, "message") == Some(e.message) && GetStr(json, "name") == Some(e.name);
    if e.location.Some? {
      var l := e.location.value;
      LocationDerived(l);
      assert json.Get("location") == Some(LocationJson(l.line, l.column, l.filename));
    } else {
      assert json.Get("location") == None;
    }
  }

  /** Like the hand-written decoder, the derived one inverts the layout of every event of a worker. */
  lemma DerivedRoundTrip(e: Event, others: Json -> Option<Event>)
    requires FromWorker(e)
    ensures DeriveEvent(EventJson(e), others) == Some(e)
  {
    if e.Failed? {
      FailedDerived(e, others);
    } else if e.Console? {
      ConsoleRoundTrip(e);
      assert GetStr(EventJson(e), "level") == Some(LevelText(e.level));
      LevelRoundTrip(e.level);
    }
  }

  // ---------------------------------------------------------------------------------------------
  // It accepts less
  // ---------------------------------------------------------------------------------------------

  lemma DerivedLocationIsParsed(json: Json)
    requires DeriveLocation(json).Some?
    ensures ParseLocation(json) == DeriveLocation(json)
  {
  }

  lemma {:induction false} DerivedFramesAreParsed(items: seq<Json>)
    requires DeriveFrames(items).Some?
    ensures ParseFrames(items) == DeriveFrames(items).value
  {
    if items != [] {
      DerivedLocationIsParsed(items[0].Get("location").value);
      DerivedFramesAreParsed(items[1..]);
    }
  }

  /** What the derived decoder accepts, the hand-written one reads in the same way. */
  lemma DerivedIsStricter(json: Json, others: Json -> Option<Event>)
    requires IsSpelledOut(json) && DeriveEvent(json, others).Some?
    ensures ParseEvent(json) == DeriveEvent(json, others)
  {
    if GetStr(json, "type") == Some("error") {
      DerivedFramesAreParsed(json.Get("stack").value.items);
      var location := json.Get("location");
      if location.Some? && !location.value.Null? {
        DerivedLocationIsParsed(location.value);
      }
    }
  }

  /** The derived decoder refuses a location whose file name is neither a text nor null, where the hand-written
      one reads it as a location without a file name. */
  lemma OddFilenameIsRefused(line: U32, column: U32, filename: Json)
    ensures var json := Obj(map["line" := Num(PosInt(line)), "column" := Num(PosInt(column)), "filename" := filename]);
            && (DeriveLocation(json).Some? <==> filename.Str? || filename.Null?)
            && ParseLocation(json) == Some(SourceLocation(line, column, filename.AsStr()))
  {
    var json := Obj(map["line" := Num(PosInt(line)), "column" := Num(PosInt(column)), "filename" := filename]);
    assert GetU64(json, "line") == Some(line) && GetU64(json, "column") == Some(column);
    assert json.Get("filename") == Some(filename);
  }

  /** A console line with a level of any other name is refused, where the hand-written decoder reads a plain
      message. */
  lemma UnknownLevelIsRefused(level: string, args: seq<Json>, time: U64, others: Json -> Option<Event>)
    requires level !in ["log", "info", "warn", "error", "debug", "trace"]
    ensures var json := Obj(map["type" := Str("console"), "level" := Str(level), "args" := Arr(args),
                                "timestamp_ms" := Num(PosInt(time))]);
            DeriveEvent(json, others) == None && ParseEvent(json) == Some(Console(Log, args, time))
  {
    var known := ["log", "info", "warn", "error", "debug", "trace"];
    assert known[0] == "log" && known[1] == "info" && known[2] == "warn" && known[3] == "error"
           && known[4] == "debug" && known[5] == "trace";
    var json := Obj(map["type" := Str("console"), "level" := Str(level), "args" := Arr(args),
                        "timestamp_ms" := Num(PosInt(time))]);
    assert GetStr(json, "type") == Some("console") && GetStr(json, "level") == Some(level);
    assert json.Get("level") == Some(Str(level));
    OddEventsAreRead(level, "", Null, args, time);
  }

  // ---------------------------------------------------------------------------------------------
  // Errors of the script side
  // ---------------------------------------------------------------------------------------------

  predicate Fits(l: S.Location) {
    l.line < U32_RANGE && l.column < U32_RANGE
  }

  lemma ScriptLocationDerived(l: S.Location)
    requires IsExact(l)
    ensures DeriveLocation(ScriptLocation(Some(l))) == if Fits(l) then Some(HostLocation(l)) else None
  {
    var json := ScriptLocation(Some(l));
    assert GetU64(json, "line") == Some(l.line) && GetU64(json, "column") == Some(l.column);
    assert DeriveOptional(json, "filename") == Some(l.filename);
  }

  lemma ScriptFrameDerived(f: S.Frame)
    requires f.location.Some? ==> IsExact(f.location.value)
    ensures DeriveFrame(ScriptFrame(f)).Some? <==> f.location.Some? && Fits(f.location.value)
    ensures IsPlain(ScriptFrame(f).Get("location"))
  {
    assert ScriptFrame(f).Get("location") == Some(ScriptLocation(f.location));
    assert DeriveOptional(ScriptFrame(f), "function_name") == Some(f.functionName);
    if f.location.Some? {
      ScriptLocationDerived(f.location.value);
    }
  }

  lemma AllLocatedCons(frames: seq<S.Frame>)
    requires frames != []
    ensures AllLocated(frames) <==>
            frames[0].location.Some? && Fits(frames[0].location.value) && AllLocated(frames[1..])
  {
    assert forall i | 0 <= i < |frames[1..]| :: frames[1..][i] == frames[i + 1];
    assert forall i | 0 < i < |frames| :: frames[i] == frames[1..][i - 1];
  }

  lemma {:induction false} ScriptFramesDerived(frames: seq<S.Frame>)
    requires AllExact(frames)
    ensures DeriveFrames(ScriptFrames(frames)).Some? <==> AllLocated(frames)
    ensures AllPlain(ScriptFrames(frames))
  {
    if frames != [] {
      AllLocatedCons(frames);
      ScriptFrameDerived(frames[0]);
      ScriptFramesDerived(frames[1..]);
      assert ScriptFrames(frames)[1..] == ScriptFrames(frames[1..]);
    }
  }

  /** The two decoders compared on the error objects of `executor.js`, which only the derived one meets: the
      hand-written one would always yield an event, less the frames without a location. The derived one
      yields the same event if every frame has a location with line and column below 2^32, and otherwise
      nothing at all. */
  lemma DecodersAgreeIffAllFramesLocated(
    message: string, name: string, frames: seq<S.Frame>, others: Json -> Option<Event>)
    requires AllExact(frames)
    ensures var json := ScriptError(message, name, frames);
            && ParseEvent(json).Some? && ParseEvent(json).value.Failed?
            && DeriveEvent(json, others) == if AllLocated(frames) then ParseEvent(json) else None
  {
    var json := ScriptError(message, name, frames);
    ScriptErrorRead(message, name, frames);
    ScriptFramesDerived(frames);
    assert GetStr(json, "type") == Some("error") && json.Get("stack") == Some(Arr(ScriptFrames(frames)));
    assert GetStr(json, "message") == Some(message) && GetStr(json, "name") == Some(name);
    assert json.Get("location") == Some(if frames == [] then Null else ScriptLocation(frames[0].location));
    assert IsSpelledOut(json);
    if AllLocated(frames) {
      if frames != [] {
        ScriptLocationDerived(frames[0].location.value);
      }
      DerivedIsStricter(json, others);
    }
  }

  function FirstLocation(frames: seq<S.Frame>): Option<SourceLocation>
    requires AllLocated(frames)
  {
    if frames == [] then None else Some(HostLocation(frames[0].location.value))
  }

  /** What a pooled worker yields for an error: all of it, or nothing. */
  lemma ErrorArrivesIffAllFramesLocated(
    message: string, name: string, frames: seq<S.Frame>, others: Json -> Option<Event>)
    requires AllExact(frames)
    ensures DeriveEvent(ScriptError(message, name, frames), others)
            == if AllLocated(frames) then Some(Failed(message, name, FirstLocation(frames), Verbatim(frames))) else None
  {
    DecodersAgreeIffAllFramesLocated(message, name, frames, others);
    ScriptErrorRead(message, name, frames);
    if AllLocated(frames) {
      LocatedFramesAreKept(frames);
    }
  }

  lemma {:induction false} VerbatimIsInjective(a: seq<S.Frame>, b: seq<S.Frame>)
    requires AllLocated(a) && AllLocated(b) && Verbatim(a) == Verbatim(b)
    ensures a == b
  {
    if a == [] || b == [] {
      assert |Verbatim(a)| == |Verbatim(b)| == 0;
    } else {
      assert Verbatim(a)[0] == Verbatim(b)[0];
      assert Verbatim(a)[1..] == Verbatim(a[1..]) && Verbatim(b)[1..] == Verbatim(b[1..]);
      VerbatimIsInjective(a[1..], b[1..]);
      assert a[0].location == b[0].location && a[0].functionName == b[0].functionName;
      S.HeadAndTail(a);
      S.HeadAndTail(b);
    }
  }

  /** From V8 to the host of a pooled worker. A stack that is printed behind a head without frame lines, in
      any of the forms of frames, is parsed, written as an error object and decoded. The host gets exactly
      the printed frames if and only if all of them are readable and have a location with line and column
      below 2^32; and of readable frames it gets them all or no event. */
  lemma PrintedStackReachesHost(
    head: string, message: string, name: string, ps: seq<S.Printed>, others: Json -> Option<Event>)
    requires S.OuterOnOneLine(ps) && S.FramesOf(head) == [] && AllExact(S.FramesOf(S.PrintStack(head, ps)))
    ensures var frames := S.FramesIn(ps);
            var event := DeriveEvent(ScriptError(message, name, S.FramesOf(S.PrintStack(head, ps))), others);
            && (S.AllReadable(ps) && AllLocated(frames) ==>
                  event == Some(Failed(message, name, FirstLocation(frames), Verbatim(frames))))
            && (S.AllReadable(ps) && !AllLocated(frames) ==> event == None)
            && (AllLocated(frames) && event.Some? && event.value.Failed? && event.value.stack == Verbatim(frames) ==>
                  S.AllReadable(ps))
  {
    StackReadsBack(head, ps);
    ParsedStackReachesHost(message, name, S.FramesOf(S.PrintStack(head, ps)), S.FramesIn(ps), others);
  }

  lemma ParsedStackReachesHost(
    message: string, name: string, parsed: seq<S.Frame>, frames: seq<S.Frame>, others: Json -> Option<Event>)
    requires AllExact(parsed)
    ensures var event := DeriveEvent(ScriptError(message, name, parsed), others);
            && (parsed == frames && AllLocated(frames) ==>
                  event == Some(Failed(message, name, FirstLocation(frames), Verbatim(frames))))
            && (parsed == frames && !AllLocated(frames) ==> event == None)
            && (event.Some? ==> event.value.Failed?)
            && (AllLocated(frames) && event.Some? && event.value.stack == Verbatim(frames) ==> parsed == frames)
  {
    ErrorArrivesIffAllFramesLocated(message, name, parsed, others);
    if AllLocated(parsed) && AllLocated(frames) && Verbatim(parsed) == Verbatim(frames) {
      VerbatimIsInjective(parsed, frames);
    }
  }

  // ---------------------------------------------------------------------------------------------
  // Whole streams of a worker
  // ---------------------------------------------------------------------------------------------

  /** What `Worker::execute` makes of one line. */
  function DeriveLine(codec: Codec, others: Json -> Option<Event>, line: string): Option<Event> {
    match codec.parse(line)
    case Some(json) => DeriveEvent(json, others)
    case None => None
  }

  lemma WrittenEventsAreDerived(codec: Codec, others: Json -> Option<Event>, events: seq<Event>)
    requires codec.Sound() && AllFromWorker(events)
    ensures TextEvents(line => DeriveLine(codec, others, line), Written(codec, events)) == events
  {
    var parse: Parser<Event> := line => DeriveLine(codec, others, line);
    forall e: Event | FromWorker(e)
      ensures parse(codec.write(EventJson(e))) == Some(e)
    {
      DerivedRoundTrip(e, others);
    }
    WrittenLinesAreRead(codec, parse, events);
  }

  /** End to end through a pooled worker: any list of events, written one a line, encoded and cut on
      character boundaries, comes back as exactly that list. */
  method WorkerReadsBack(
    codec: Codec, others: Json -> Option<Event>, onError: string -> Event, ghost events: seq<Event>,
    chunks: seq<seq<Byte>>) returns (got: seq<Event>)
    requires codec.Sound() && AllFromWorker(events)
    requires Joined(chunks) == EncodeText(Written(codec, events)) && OnBoundaries(chunks)
    ensures got == events
  {
    AllIsReceived(chunks);
    got := WorkerEvents(line => DeriveLine(codec, others, line), onError, AsItems(chunks));
    CuttingOnBoundariesDoesNotMatter(line => DeriveLine(codec, others, line), chunks, Written(codec, events));
    WrittenEventsAreDerived(codec, others, events);
  }

  /** On the line of an error object a pooled worker yields nothing exactly when some frame is native or has
      no location that fits. */
  lemma ErrorVanishesIffFrameUnlocated(
    codec: Codec, others: Json -> Option<Event>, message: string, name: string, frames: seq<S.Frame>)
    requires codec.Sound() && AllExact(frames)
    ensures TextEvents(text => DeriveLine(codec, others, text), codec.write(ScriptError(message, name, frames)))
            == if AllLocated(frames) then [Failed(message, name, FirstLocation(frames), Verbatim(frames))] else []
  {
    var line := codec.write(ScriptError(message, name, frames));
    assert IsTightLine(line);
    TrimOfTight(line, IsSpace);
    ErrorArrivesIffAllFramesLocated(message, name, frames, others);
    TextWithoutNewline(text => DeriveLine(codec, others, text), line);
  }
}
