/** The error objects that `executor.js` writes after parsing a stack.

They go to pooled workers, whose decoder is `DerivedDecoder`; the hand-written decoder of `runner.rs` never
meets them and is applied to them here for comparison only. */
module ErrorEvents {
  import opened Wrappers
  import opened Text
  import opened Events
  import S = StackTrace

  // ---------------------------------------------------------------------------------------------
  // The object `executor.js` writes
  // ---------------------------------------------------------------------------------------------

  function Nullable(s: Option<string>): Json {
    if s.Some? then Str(s.value) else Null
  }

  predicate IsExact(l: S.Location) {
    l.line <= S.MAX_SAFE_INTEGER && l.column <= S.MAX_SAFE_INTEGER
  }

  predicate AllExact(frames: seq<S.Frame>) {
    forall i | 0 <= i < |frames| && frames[i].location.Some? :: IsExact(frames[i].location.value)
  }

  function ScriptLocation(l: Option<S.Location>): Json
    requires l.Some? ==> IsExact(l.value)
  {
    if l.None? then Null
    else
      Obj(map["line" := Num(PosInt(l.value.line)), "column" := Num(PosInt(l.value.column)),
              "filename" := Nullable(l.value.filename)])
  }

  function ScriptFrame(f: S.Frame): Json
    requires f.location.Some? ==> IsExact(f.location.value)
  {
    Obj(map["function_name" := Nullable(f.functionName), "location" := ScriptLocation(f.location)])
  }

  function ScriptFrames(frames: seq<S.Frame>): seq<Json>
    requires AllExact(frames)
  {
    if frames == [] then [] else [ScriptFrame(frames[0])] + ScriptFrames(frames[1..])
  }

  function ScriptError(message: string, name: string, frames: seq<S.Frame>): Json
    requires AllExact(frames)
  {
    Obj(map[
      "type" := Str("error"),
      "message" := Str(message),
      "name" := Str(name),
      "location" := if frames == [] then Null else ScriptLocation(frames[0].location),
      "stack" := Arr(ScriptFrames(frames))])
  }

  // ---------------------------------------------------------------------------------------------
  // What the hand-written decoder would make of it
  // ---------------------------------------------------------------------------------------------

  function HostLocation(l: S.Location): SourceLocation {
    SourceLocation(l.line % U32_RANGE, l.column % U32_RANGE, l.filename)
  }

  /** The frames that have a location. */
  function HostFrames(frames: seq<S.Frame>): seq<StackFrame> {
    if frames == [] then []
    else if frames[0].location.None? then HostFrames(frames[1..])
    else [StackFrame(frames[0].functionName, HostLocation(frames[0].location.value))] + HostFrames(frames[1..])
  }

  lemma ScriptLocationRead(l: Option<S.Location>)
    requires l.Some? ==> IsExact(l.value)
    ensures ParseLocation(ScriptLocation(l)) == if l.Some? then Some(HostLocation(l.value)) else None
  {
  }

  lemma ScriptFrameRead(f: S.Frame)
    requires f.location.Some? ==> IsExact(f.location.value)
    ensures GetStr(ScriptFrame(f), "function_name") == f.functionName
    ensures GetLocation(ScriptFrame(f)) == if f.location.Some? then Some(HostLocation(f.location.value)) else None
  {
    ScriptLocationRead(f.location);
  }

  lemma {:induction false} ScriptFramesRead(frames: seq<S.Frame>)
    requires AllExact(frames)
    ensures ParseFrames(ScriptFrames(frames)) == HostFrames(frames)
  {
    if frames != [] {
      ScriptFrameRead(frames[0]);
      ScriptFramesRead(frames[1..]);
      assert ScriptFrames(frames)[1..] == ScriptFrames(frames[1..]);
    }
  }

  /** The hand-written decoder would read every such object: the message and the name as they are, the
      location of the first frame, and in order the frames that have a location, with lines and columns
      reduced modulo 2^32. */
  lemma {:induction false} ScriptErrorRead(message: string, name: string, frames: seq<S.Frame>)
    requires AllExact(frames)
    ensures ParseEvent(ScriptError(message, name, frames)) == Some(Failed(
              message, name,
              if frames != [] && frames[0].location.Some? then Some(HostLocation(frames[0].location.value)) else None,
              HostFrames(frames)))
  {
    var json := ScriptError(message, name, frames);
    ScriptFramesRead(frames);
    if frames != [] {
      ScriptLocationRead(frames[0].location);
    }
    assert json.Get("type") == Some(Str("error"));
    assert GetLocation(json) == ParseLocation(if frames == [] then Null else ScriptLocation(frames[0].location));
    assert ParseEvent(json) == ParseFailed(json);
  }

  predicate AllLocated(frames: seq<S.Frame>) {
    forall i | 0 <= i < |frames| ::
      && frames[i].location.Some?
      && frames[i].location.value.line < U32_RANGE && frames[i].location.value.column < U32_RANGE
  }

  function Verbatim(frames: seq<S.Frame>): seq<StackFrame>
    requires AllLocated(frames)
  {
    if frames == [] then []
    else
      var l := frames[0].location.value;
      [StackFrame(frames[0].functionName, SourceLocation(l.line, l.column, l.filename))] + Verbatim(frames[1..])
  }

  lemma {:induction false} LocatedFramesAreKept(frames: seq<S.Frame>)
    requires AllLocated(frames)
    ensures HostFrames(frames) == Verbatim(frames)
  {
    if frames != [] {
      LocatedFramesAreKept(frames[1..]);
    }
  }

  lemma StackReadsBack(head: string, ps: seq<S.Printed>)
    requires S.OuterOnOneLine(ps) && S.FramesOf(head) == []
    ensures S.FramesOf(S.PrintStack(head, ps)) == S.FramesIn(ps) <==> S.AllReadable(ps)
  {
    S.StackRoundTrip(head, ps);
    assert [] + S.FramesIn(ps) == S.FramesIn(ps);
  }
}
