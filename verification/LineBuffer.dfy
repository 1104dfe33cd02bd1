/** The line buffers of `runner.rs` and `pool/worker.rs`.

Chunks of a response are decoded one by one and appended to a buffer, from which complete lines
are cut off and parsed. The reference is: split the whole text at its newlines, trim every piece,
drop the blank ones, parse the rest and keep what parses. */
module LineBuffer {
  import opened Wrappers
  import opened Text
  import opened Utf8

  type Parser<!E> = string -> Option<E>

  function PieceEvents<E>(parse: Parser<E>, piece: string): seq<E> {
    var line := Trim(piece, IsSpace);
    if line == "" || parse(line).None? then [] else [parse(line).value]
  }

  function PiecesEvents<E>(parse: Parser<E>, pieces: seq<string>): seq<E> {
    if pieces == [] then [] else PieceEvents(parse, pieces[0]) + PiecesEvents(parse, pieces[1..])
  }

  function TextEvents<E>(parse: Parser<E>, text: string): seq<E> {
    PiecesEvents(parse, Split(text, '\n'))
  }

  lemma FirstLineComesFirst<E>(parse: Parser<E>, line: string, rest: string)
    requires '\n' !in line
    ensures TextEvents(parse, line + ['\n'] + rest) == PieceEvents(parse, line) + TextEvents(parse, rest)
  {
    SplitAtFirst(line, '\n', rest);
  }

  lemma TextWithoutNewline<E>(parse: Parser<E>, text: string)
    requires '\n' !in text
    ensures TextEvents(parse, text) == PieceEvents(parse, text)
  {
    SplitWithout(text, '\n');
    assert [text][1..] == [];
    assert PieceEvents(parse, text) + [] == PieceEvents(parse, text);
  }

  /** White space around a line makes no difference, such as the carriage return of a line break of two
      characters. */
  lemma PaddedLineReadsTheSame<E>(parse: Parser<E>, before: string, line: string, after: string)
    requires AllAre(before, IsSpace) && AllAre(after, IsSpace)
    ensures PieceEvents(parse, before + line + after) == PieceEvents(parse, line)
    ensures IsSpace(' ') && IsSpace('\t') && IsSpace('\r')
  {
    TrimPadded(before, line, after, IsSpace);
  }

  /** A line of white space yields nothing, and any other line what its parser makes of it. */
  lemma TightLineIsParsed<E>(parse: Parser<E>, line: string)
    requires line != "" ==> !IsSpace(line[0]) && !IsSpace(line[|line| - 1])
    ensures PieceEvents(parse, line)
            == if line == "" then [] else match parse(line) case Some(e) => [e] case None => []
  {
    TrimOfTight(line, IsSpace);
  }

  lemma {:induction false} FirstNewline(s: string) returns (i: nat)
    requires '\n' in s
    ensures i < |s| && s[i] == '\n' && '\n' !in s[..i]
  {
    if s[0] == '\n' {
      i := 0;
    } else {
      i := FirstNewline(s[1..]);
      assert s[..i + 1] == [s[0]] + s[1..][..i];
      i := i + 1;
    }
  }

  /** Lines are parsed one by one: what stands on other lines makes no difference. */
  lemma {:induction false} LinesAreIndependent<E>(parse: Parser<E>, a: string, b: string)
    ensures TextEvents(parse, a + ['\n'] + b) == TextEvents(parse, a) + TextEvents(parse, b)
    decreases |a|
  {
    if '\n' in a {
      var i := FirstNewline(a);
      var line, rest := a[..i], a[i + 1..];
      assert a == line + ['\n'] + rest;
      assert a + ['\n'] + b == line + ['\n'] + (rest + ['\n'] + b);
      FirstLineComesFirst(parse, line, rest);
      FirstLineComesFirst(parse, line, rest + ['\n'] + b);
      LinesAreIndependent(parse, rest, b);
      Associative(PieceEvents(parse, line), TextEvents(parse, rest), TextEvents(parse, b));
    } else {
      FirstLineComesFirst(parse, a, b);
      TextWithoutNewline(parse, a);
    }
  }

  /** `events` is what the text in front of the buffer yields, however the text goes on. */
  ghost predicate Accounts<E>(parse: Parser<E>, done: string, events: seq<E>) {
    forall rest: string {:trigger TextEvents(parse, done + rest)} ::
      TextEvents(parse, done + rest) == events + TextEvents(parse, rest)
  }

  lemma NothingAccounted<E>(parse: Parser<E>)
    ensures Accounts(parse, "", [])
  {
    forall rest: string
      ensures TextEvents(parse, "" + rest) == [] + TextEvents(parse, rest)
    {
      assert "" + rest == rest;
    }
  }

  lemma LineAccountedFor<E>(parse: Parser<E>, done: string, events: seq<E>, line: string, rest: string)
    requires Accounts(parse, done, events) && '\n' !in line
    ensures TextEvents(parse, done + (line + ['\n']) + rest)
            == events + PieceEvents(parse, line) + TextEvents(parse, rest)
  {
    var next := line + ['\n'] + rest;
    Associative(done, line + ['\n'], rest);
    FirstLineComesFirst(parse, line, rest);
    assert TextEvents(parse, done + next) == events + TextEvents(parse, next);
    Associative(events, PieceEvents(parse, line), TextEvents(parse, rest));
  }

  lemma LineAccounted<E>(parse: Parser<E>, done: string, events: seq<E>, line: string)
    requires Accounts(parse, done, events) && '\n' !in line
    ensures Accounts(parse, done + (line + ['\n']), events + PieceEvents(parse, line))
  {
    forall rest: string
      ensures TextEvents(parse, done + (line + ['\n']) + rest)
              == events + PieceEvents(parse, line) + TextEvents(parse, rest)
    {
      LineAccountedFor(parse, done, events, line, rest);
    }
  }

  lemma LastPieceAccounted<E>(parse: Parser<E>, done: string, events: seq<E>, left: string)
    requires Accounts(parse, done, events) && '\n' !in left
    ensures TextEvents(parse, done + left) == events + PieceEvents(parse, left)
  {
    TextWithoutNewline(parse, left);
  }

  lemma CompleteLinesAccounted<E>(parse: Parser<E>, done: string, events: seq<E>)
    requires Accounts(parse, done, events)
    ensures TextEvents(parse, done) == events
  {
    LastPieceAccounted(parse, done, events, "");
    assert done + "" == done && events + [] == events;
  }

  /** `str::find('\n')`. */
  method FindNewline(s: string) returns (pos: Option<nat>)
    ensures pos.None? ==> '\n' !in s
    ensures pos.Some? ==> pos.value < |s| && s[pos.value] == '\n' && '\n' !in s[..pos.value]
  {
    for i := 0 to |s|
      invariant '\n' !in s[..i]
    {
      if s[i] == '\n' {
        return Some(i);
      }
    }
    pos := None;
  }

  /** The inner loop: cuts complete lines off the buffer. */
  method DrainLines<E>(parse: Parser<E>, buffer: string, events: seq<E>, ghost done: string)
    returns (left: string, more: seq<E>, ghost done': string)
    requires Accounts(parse, done, events) && (done == "" || EndsWithNewline(done))
    ensures Accounts(parse, done', more) && (done' == "" || EndsWithNewline(done'))
    ensures done' + left == done + buffer && '\n' !in left
  {
    left, more, done' := buffer, events, done;
    var pos: Option<nat> := FindNewline(left);
    while pos.Some?
      invariant Accounts(parse, done', more) && (done' == "" || EndsWithNewline(done'))
      invariant done' + left == done + buffer
      invariant pos.None? ==> '\n' !in left
      invariant pos.Some? ==> pos.value < |left| && left[pos.value] == '\n' && '\n' !in left[..pos.value]
      decreases |left|
    {
      var piece := left[..pos.value];
      var event := ParseLine(parse, piece);
      LineAccounted(parse, done', more, piece);
      more := more + event;
      assert left == piece + ['\n'] + left[pos.value + 1..];
      done' := done' + (piece + ['\n']);
      left := left[pos.value + 1..];
      pos := FindNewline(left);
    }
  }

  /** Parses one line unless it is blank; what does not parse is dropped. */
  method ParseLine<E>(parse: Parser<E>, piece: string) returns (event: seq<E>)
    ensures event == PieceEvents(parse, piece)
  {
    event := [];
    var line := Trim(piece, IsSpace);
    if line != "" {
      var parsed := parse(line);
      if parsed.Some? {
        event := [parsed.value];
      }
    }
  }

  predicate EndsWithNewline(s: string) {
    s != [] && s[|s| - 1] == '\n'
  }

  // ---------------------------------------------------------------------------------------------
  // The two stream readers
  // ---------------------------------------------------------------------------------------------

  /** What the HTTP client delivers: bytes, or an error. */
  datatype Item = Data(bytes: seq<Byte>) | Broken(reason: string)

  /** The chunks in front of the first error. */
  function Received(items: seq<Item>): seq<seq<Byte>> {
    if items == [] || items[0].Broken? then [] else [items[0].bytes] + Received(items[1..])
  }

  predicate Complete(items: seq<Item>) {
    forall i | 0 <= i < |items| :: items[i].Data?
  }

  function CompleteLines(text: string): (lines: string)
    ensures lines <= text && (lines == "" || EndsWithNewline(lines)) && '\n' !in text[|lines|..]
  {
    if text == "" || EndsWithNewline(text) then text else CompleteLines(text[..|text| - 1])
  }

  lemma {:induction false} ReceivedJoined(a: seq<Item>, b: seq<Item>)
    requires Complete(a)
    ensures Received(a + b) == Received(a) + Received(b)
  {
    if a == [] {
      assert a + b == b;
    } else {
      assert (a + b)[0] == a[0] && (a + b)[1..] == a[1..] + b;
      ReceivedJoined(a[1..], b);
    }
  }

  lemma {:induction false} LossyChunksJoined(a: seq<seq<Byte>>, b: seq<seq<Byte>>)
    ensures LossyChunks(a + b) == LossyChunks(a) + LossyChunks(b)
  {
    if a == [] {
      assert a + b == b;
    } else {
      assert (a + b)[1..] == a[1..] + b;
      LossyChunksJoined(a[1..], b);
    }
  }

  lemma LossyChunksOfOne(bytes: seq<Byte>)
    ensures LossyChunks([bytes]) == Lossy(bytes)
  {
    assert [bytes][1..] == [] && Lossy(bytes) + "" == Lossy(bytes);
  }

  lemma ReceivedSnoc(items: seq<Item>, i: nat)
    requires i < |items| && Complete(items[..i]) && items[i].Data?
    ensures LossyChunks(Received(items[..i + 1])) == LossyChunks(Received(items[..i])) + Lossy(items[i].bytes)
  {
    assert items[..i + 1] == items[..i] + [items[i]];
    ReceivedJoined(items[..i], [items[i]]);
    assert [items[i]][1..] == [];
    assert Received([items[i]]) == [items[i].bytes];
    LossyChunksJoined(Received(items[..i]), [items[i].bytes]);
    LossyChunksOfOne(items[i].bytes);
  }

  lemma ReceivedAppended(items: seq<Item>, i: nat, done: string, buffer: string)
    requires i < |items| && Complete(items[..i]) && items[i].Data?
    requires done + buffer == LossyChunks(Received(items[..i]))
    ensures done + (buffer + Lossy(items[i].bytes)) == LossyChunks(Received(items[..i + 1]))
  {
    ReceivedSnoc(items, i);
    Associative(done, buffer, Lossy(items[i].bytes));
  }

  lemma ReceivedStopsAtError(items: seq<Item>, i: nat)
    requires i <= |items| && Complete(items[..i]) && (i < |items| ==> items[i].Broken?)
    ensures Received(items) == Received(items[..i])
  {
    assert items == items[..i] + items[i..];
    ReceivedJoined(items[..i], items[i..]);
    assert Received(items[i..]) == [];
  }

  lemma {:induction false} CompleteLinesOf(done: string, left: string)
    requires (done == "" || EndsWithNewline(done)) && '\n' !in left
    ensures CompleteLines(done + left) == done
    decreases left
  {
    if left == "" {
      assert done + left == done;
    } else {
      var front := left[..|left| - 1];
      assert (done + left)[|done + left| - 1] == left[|left| - 1];
      assert (done + left)[..|done + left| - 1] == done + front;
      CompleteLinesOf(done, front);
    }
  }

  /** The outer loop, up to the end of the stream or its first error. */
  method ReadChunks<E>(parse: Parser<E>, items: seq<Item>)
    returns (events: seq<E>, buffer: string, next: nat, ghost done: string)
    ensures next <= |items| && Complete(items[..next]) && (next < |items| ==> items[next].Broken?)
    ensures Accounts(parse, done, events) && (done == "" || EndsWithNewline(done)) && '\n' !in buffer
    ensures done + buffer == LossyChunks(Received(items))
  {
    events, buffer, next, done := [], "", 0, "";
    NothingAccounted(parse);
    while next < |items| && items[next].Data?
      invariant next <= |items| && Complete(items[..next])
      invariant Accounts(parse, done, events) && (done == "" || EndsWithNewline(done)) && '\n' !in buffer
      invariant done + buffer == LossyChunks(Received(items[..next]))
    {
      var text := Lossy(items[next].bytes);
      ReceivedAppended(items, next, done, buffer);
      buffer, events, done := DrainLines(parse, buffer + text, events, done);
      next := next + 1;
    }
    ReceivedStopsAtError(items, next);
  }

  /** `execute` in `runner.rs`: on a stream error it stops reading and still parses what is left in
      the buffer. Its events are those of the text received, however that text was cut up. */
  method RunnerEvents<E>(parse: Parser<E>, items: seq<Item>) returns (events: seq<E>)
    ensures events == TextEvents(parse, LossyChunks(Received(items)))
  {
    var buffer, next;
    ghost var done;
    events, buffer, next, done := ReadChunks(parse, items);
    LastPieceAccounted(parse, done, events, buffer);
    var last := ParseLine(parse, buffer);
    events := events + last;
  }

  /** `Worker::execute`: a stream error ends the events with an error event, and an incomplete last
      line in front of it is lost. */
  method WorkerEvents<E>(parse: Parser<E>, onError: string -> E, items: seq<Item>) returns (events: seq<E>)
    ensures Complete(items) ==> events == TextEvents(parse, LossyChunks(Received(items)))
    ensures !Complete(items) ==>
              exists i :: 0 <= i < |items| && Complete(items[..i]) && items[i].Broken?
                && events == TextEvents(parse, CompleteLines(LossyChunks(Received(items)))) + [onError(items[i].reason)]
  {
    var buffer, next;
    ghost var done;
    events, buffer, next, done := ReadChunks(parse, items);
    if next < |items| {
      CompleteLinesAccounted(parse, done, events);
      CompleteLinesOf(done, buffer);
      events := events + [onError(items[next].reason)];
    } else {
      assert items[..next] == items;
      LastPieceAccounted(parse, done, events, buffer);
      var last := ParseLine(parse, buffer);
      events := events + last;
    }
  }

  // ---------------------------------------------------------------------------------------------
  // Independence of the cutting
  // ---------------------------------------------------------------------------------------------

  function AsItems(chunks: seq<seq<Byte>>): seq<Item> {
    if chunks == [] then [] else [Data(chunks[0])] + AsItems(chunks[1..])
  }

  lemma {:induction false} AllIsReceived(chunks: seq<seq<Byte>>)
    ensures Received(AsItems(chunks)) == chunks && Complete(AsItems(chunks))
  {
    if chunks != [] {
      AllIsReceived(chunks[1..]);
      assert AsItems(chunks)[1..] == AsItems(chunks[1..]);
    }
  }

  /** Any way of cutting the bytes of a text in front of starting bytes yields the events of the
      text, split and parsed as a whole. */
  lemma CuttingOnBoundariesDoesNotMatter<E>(parse: Parser<E>, chunks: seq<seq<Byte>>, text: string)
    requires Joined(chunks) == EncodeText(text) && OnBoundaries(chunks)
    ensures TextEvents(parse, LossyChunks(Received(AsItems(chunks)))) == TextEvents(parse, text)
  {
    AllIsReceived(chunks);
    ChunksDecodeIffCutOnBoundaries(chunks, text);
  }

  /** Cutting inside a character does matter: the letter e with an acute accent, cut between its two
      bytes, arrives as two replacement characters. */
  lemma CuttingInsideACharacterMatters(parse: Parser<string>)
    requires forall line :: parse(line) == Some(line)
    ensures var chunks := [[0xC3], [0xA9]];
            && Joined(chunks) == EncodeText("\U{E9}")
            && TextEvents(parse, LossyChunks(Received(AsItems(chunks)))) != TextEvents(parse, "\U{E9}")
  {
    var whole, got := ['\U{E9}'], [REPLACEMENT, REPLACEMENT];
    AllIsReceived([[0xC3], [0xA9]]);
    CutAccent();
    OneLine(parse, got);
    OneLine(parse, whole);
    assert |got| != |whole|;
  }

  lemma CutAccent()
    ensures Joined([[0xC3], [0xA9]]) == EncodeText(['\U{E9}'])
    ensures LossyChunks([[0xC3], [0xA9]]) == [REPLACEMENT, REPLACEMENT]
  {
    TwoChunks([0xC3], [0xA9]);
    LoneByteIsReplaced(0xC3);
    LoneByteIsReplaced(0xA9);
    EncodedSingleton('\U{E9}');
  }

  lemma EncodedSingleton(c: char)
    ensures EncodeText([c]) == Encode(c)
  {
    assert [c][1..] == [] && EncodeText([]) == [] && Encode(c) + [] == Encode(c);
  }

  lemma OneLine(parse: Parser<string>, line: string)
    requires parse(line) == Some(line)
    requires line != [] && !IsSpace(line[0]) && !IsSpace(line[|line| - 1]) && '\n' !in line
    ensures TextEvents(parse, line) == [line]
  {
    TextWithoutNewline(parse, line);
    TrimOfTight(line, IsSpace);
  }

  lemma TwoChunks(a: seq<Byte>, b: seq<Byte>)
    ensures Joined([a, b]) == a + b && LossyChunks([a, b]) == Lossy(a) + Lossy(b)
  {
    assert [a, b][1..] == [b] && [b][1..] == [];
    assert Joined([b]) == b + Joined([]) && LossyChunks([b]) == Lossy(b) + LossyChunks([]);
  }
}
