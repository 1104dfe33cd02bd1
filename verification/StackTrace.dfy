/** The V8 stack parser of `executor.js`, as the inverse of stack printing. */
module StackTrace {
  import opened Wrappers
  import opened Text

  /** Line and column are JavaScript numbers; they are exact up to this bound. */
  const MAX_SAFE_INTEGER: nat := 9007199254740991

  datatype Location = Location(line: nat, column: nat, filename: Option<string>)

  datatype Frame = Frame(functionName: Option<string>, location: Option<Location>)

  // ---------------------------------------------------------------------------------------------
  // The regular expressions
  // ---------------------------------------------------------------------------------------------

  /** What `.` does not match (section 22.2.2 of ECMA-262). */
  predicate IsLineTerminator(c: char) {
    c == '\n' || c == '\r' || c == '\U{2028}' || c == '\U{2029}'
  }

  predicate OneLine(s: string) {
    forall i | 0 <= i < |s| :: !IsLineTerminator(s[i])
  }

  function SpaceEnd(s: string, i: nat): (j: nat)
    requires i <= |s|
    ensures i <= j <= |s| && (forall k | i <= k < j :: IsJsSpace(s[k])) && (j < |s| ==> !IsJsSpace(s[j]))
    decreases |s| - i
  {
    if i < |s| && IsJsSpace(s[i]) then SpaceEnd(s, i + 1) else i
  }

  /** `^(.+)\s+\((.+)\)$` with the first group ending at `i`. */
  predicate ParenMatchAt(s: string, i: nat)
    requires i <= |s|
  {
    var j := SpaceEnd(s, i);
    1 <= i < j && j + 2 < |s| && s[j] == '(' && s[|s| - 1] == ')' && OneLine(s[..i]) && OneLine(s[j + 1..|s| - 1])
  }

  /** The lazy first group ends as early as possible. */
  function ParenMatch(s: string, from: nat): (i: Option<nat>)
    requires from <= |s|
    ensures i.Some? ==> from <= i.value < |s| && ParenMatchAt(s, i.value)
    ensures forall k | from <= k < (if i.Some? then i.value else |s|) :: !ParenMatchAt(s, k)
    decreases |s| - from
  {
    if from == |s| then None
    else if ParenMatchAt(s, from) then Some(from)
    else ParenMatch(s, from + 1)
  }

  function DigitsStart(s: string): (i: nat)
    ensures i <= |s| && AllDigits(s[i..]) && (i > 0 ==> !IsDigit(s[i - 1]))
  {
    if s != [] && IsDigit(s[|s| - 1]) then
      var i := DigitsStart(s[..|s| - 1]);
      assert s[i..] == s[..|s| - 1][i..] + [s[|s| - 1]];
      i
    else |s|
  }

  /** Cuts `:digits` off the end. */
  function CutNumber(s: string): Option<(string, nat)> {
    var i := DigitsStart(s);
    if 1 <= i < |s| && s[i - 1] == ':' then Some((s[..i - 1], DecimalValue(s[i..]))) else None
  }

  function AfterLastComma(s: string): string {
    if |s| < 2 then s
    else if HasComma(s[1..]) then AfterLastComma(s[1..])
    else if s[..2] == ", " then s[2..] else s
  }

  /** `includes(', ')` */
  predicate HasComma(s: string) {
    exists i :: 0 <= i < |s| - 1 && IsCommaAt(s, i)
  }

  predicate IsCommaAt(s: string, i: nat)
    requires i + 1 < |s|
  {
    s[i] == ',' && s[i + 1] == ' '
  }

  function Filename(s: string): Option<string> {
    if s == "<anonymous>" then None else Some(s)
  }

  /** `^(.+):(\d+):(\d+)$`, else `^(.+):(\d+)$` */
  function ParsePosition(s: string): Option<Location> {
    match CutNumber(s)
    case None => None
    case Some((rest, last)) =>
      if CutNumber(rest).Some? && CutNumber(rest).value.0 != "" && OneLine(CutNumber(rest).value.0) then
        Some(Location(CutNumber(rest).value.1, last, Filename(CutNumber(rest).value.0)))
      else if rest != "" && OneLine(rest) then Some(Location(last, 0, Filename(rest)))
      else None
  }

  function ParseLocation(text: string): Option<Location> {
    ParsePosition(if HasComma(text) then AfterLastComma(text) else text)
  }

  predicate StartsWith(s: string, prefix: string) {
    prefix <= s
  }

  predicate IsNative(s: string) {
    s == "native" || s == "[native code]"
  }

  function LocationOf(s: string): Option<Location> {
    if IsNative(s) then None else ParseLocation(s)
  }

  function WithoutAsync(s: string): string {
    if StartsWith(s, "async ") then s[6..] else s
  }

  /** The frame described after `at `. */
  function ParseText(text: string): Frame {
    match ParenMatch(text, 0)
    case Some(i) => Frame(Some(text[..i]), LocationOf(text[SpaceEnd(text, i) + 1..|text| - 1]))
    case None => Frame(None, LocationOf(text))
  }

  /** The frame on one line of a stack; lines that do not start with `at ` hold none. */
  function ParseLine(line: string): Option<Frame> {
    var t := Trim(line, IsJsSpace);
    if StartsWith(t, "at ") then Some(ParseText(WithoutAsync(t[3..]))) else None
  }

  function AsSeq<T>(o: Option<T>): seq<T> {
    match o
    case Some(x) => [x]
    case None => []
  }

  /** What `parse` finds on the lines, in order. */
  function Collect<T>(parse: string -> Option<T>, lines: seq<string>): seq<T> {
    if lines == [] then [] else AsSeq(parse(lines[0])) + Collect(parse, lines[1..])
  }

  function FramesOf(stack: string): seq<Frame> {
    Collect(ParseLine, Split(stack, '\n'))
  }

  lemma {:induction false} CollectJoined<T>(parse: string -> Option<T>, a: seq<string>, b: seq<string>)
    ensures Collect(parse, a + b) == Collect(parse, a) + Collect(parse, b)
  {
    if a == [] {
      assert a + b == b;
    } else {
      CollectJoined(parse, a[1..], b);
      assert (a + b)[0] == a[0] && (a + b)[1..] == a[1..] + b;
      Associative(AsSeq(parse(a[0])), Collect(parse, a[1..]), Collect(parse, b));
    }
  }

  method ReadText(text: string) returns (frame: Frame)
    ensures frame == ParseText(text)
  {
    var functionName: Option<string>, location: Option<Location> := None, None;
    var m := ParenMatch(text, 0);
    if m.Some? {
      functionName := Some(text[..m.value]);
      location := LocationOf(text[SpaceEnd(text, m.value) + 1..|text| - 1]);
    } else {
      location := LocationOf(text);
    }
    frame := Frame(functionName, location);
  }

  method ReadLine(line: string) returns (frame: Option<Frame>)
    ensures frame == ParseLine(line)
  {
    frame := None;
    var trimmed := Trim(line, IsJsSpace);
    if StartsWith(trimmed, "at ") {
      var f := ReadText(WithoutAsync(trimmed[3..]));
      frame := Some(f);
    }
  }

  /** `parseStack` */
  method ParseStack(stack: string) returns (frames: seq<Frame>)
    ensures frames == FramesOf(stack)
  {
    frames := [];
    var lines := Split(stack, '\n');
    for n := 0 to |lines|
      invariant frames == Collect(ParseLine, lines[..n])
    {
      var frame := ReadLine(lines[n]);
      CollectNext(ParseLine, lines, n);
      frames := frames + AsSeq(frame);
    }
    assert lines[..|lines|] == lines;
  }

  lemma CollectNext<T>(parse: string -> Option<T>, lines: seq<string>, n: nat)
    requires n < |lines|
    ensures Collect(parse, lines[..n + 1]) == Collect(parse, lines[..n]) + AsSeq(parse(lines[n]))
  {
    CollectJoined(parse, lines[..n], [lines[n]]);
    assert lines[..n + 1] == lines[..n] + [lines[n]];
    CollectOne(parse, lines[n]);
  }

  lemma CollectOne<T>(parse: string -> Option<T>, line: string)
    ensures Collect(parse, [line]) == AsSeq(parse(line))
  {
    assert [line][1..] == [];
    assert AsSeq(parse(line)) + [] == AsSeq(parse(line));
  }

  // ---------------------------------------------------------------------------------------------
  // Printing, as V8 does
  // ---------------------------------------------------------------------------------------------

  function PrintLocation(l: Location): string {
    (if l.filename.Some? then l.filename.value else "<anonymous>") + ":" + Decimal(l.line) + ":" + Decimal(l.column)
  }

  function LocationText(l: Option<Location>): string {
    if l.Some? then PrintLocation(l.value) else "native"
  }

  function PrintFrame(f: Frame): string {
    var location := LocationText(f.location);
    "    at " + (if f.functionName.Some? then Named(f.functionName.value, location) else location)
  }

  /** What follows `at ` in a printed frame with a name. */
  function Named(name: string, location: string): string {
    name + " (" + location + ")"
  }

  // ---------------------------------------------------------------------------------------------
  // Locations
  // ---------------------------------------------------------------------------------------------

  lemma CutNumberOfPrinted(rest: string, n: nat)
    ensures CutNumber(rest + ":" + Decimal(n)) == Some((rest, n))
  {
    var s := rest + ":" + Decimal(n);
    var i := DigitsStart(s);
    assert s[|rest|] == ':';
    assert s[|rest| + 1..] == Decimal(n);
    DigitsStartIs(s, |rest| + 1);
    assert s[..|rest|] == rest;
    DecimalRoundTrip(n);
  }

  lemma SuffixIsDigits(s: string, i: nat, k: int)
    requires i <= k < |s| && AllDigits(s[i..])
    ensures IsDigit(s[k])
  {
    assert s[i..][k - i] == s[k];
  }

  lemma DigitsStartIs(s: string, i: nat)
    requires 1 <= i <= |s| && AllDigits(s[i..]) && !IsDigit(s[i - 1])
    ensures DigitsStart(s) == i
  {
    var d := DigitsStart(s);
    if d < i {
      SuffixIsDigits(s, d, i - 1);
    } else if d > i {
      SuffixIsDigits(s, i, d - 1);
    }
  }

  /** The file name under which a location is printed can be told from the rest of the text. */
  predicate IsPlainFilename(file: string) {
    file != "" && OneLine(file) && !HasComma(file) && file != "<anonymous>"
  }

  lemma {:induction false} LastPieceHasNoComma(s: string)
    ensures HasComma(s) ==> !HasComma(AfterLastComma(s))
    decreases |s|
  {
    if HasComma(s) {
      var i :| 0 <= i < |s| - 1 && IsCommaAt(s, i);
      if HasComma(s[1..]) {
        LastPieceHasNoComma(s[1..]);
      } else {
        assert i > 0 ==> IsCommaAt(s[1..], i - 1);
        assert s[..2] == ", ";
        SuffixHasNoComma(s[1..]);
        assert s[1..][1..] == s[2..];
      }
    }
  }

  lemma SuffixHasNoComma(s: string)
    requires !HasComma(s) && s != ""
    ensures !HasComma(s[1..])
  {
    forall i | 0 <= i < |s[1..]| - 1 && IsCommaAt(s[1..], i)
      ensures false
    {
      assert IsCommaAt(s, i + 1);
    }
  }

  lemma PrefixHasNoComma(p: string, s: string)
    requires p <= s && !HasComma(s)
    ensures !HasComma(p)
  {
    forall i | 0 <= i < |p| - 1 && IsCommaAt(p, i)
      ensures false
    {
      assert IsCommaAt(s, i);
    }
  }

  lemma SuffixCharacters(a: string, b: string)
    ensures forall k | |a| <= k < |a + b| :: (a + b)[k] == b[k - |a|]
  {
  }

  lemma CommaIsInFilename(file: string, line: nat, column: nat)
    ensures HasComma(file + (":" + Decimal(line) + ":" + Decimal(column))) <==> HasComma(file)
  {
    var tail := ":" + Decimal(line) + ":" + Decimal(column);
    var s := file + tail;
    assert ',' !in Decimal(line) && ',' !in Decimal(column);
    assert ',' !in tail && tail[0] == ':';
    SuffixCharacters(file, tail);
    assert s[|file|] == ':';
    if HasComma(s) {
      var i :| 0 <= i < |s| - 1 && IsCommaAt(s, i);
      assert i < |file|;
      assert s[i + 1] == ' ';
      assert i + 1 < |file|;
      assert IsCommaAt(file, i);
    }
    if HasComma(file) {
      var i :| 0 <= i < |file| - 1 && IsCommaAt(file, i);
      assert IsCommaAt(s, i);
    }
  }

  lemma ParsedFilenameIsPrefix(s: string)
    ensures ParsePosition(s).Some? && ParsePosition(s).value.filename.Some? ==>
              ParsePosition(s).value.filename.value <= s
  {
  }

  lemma ReadFilenameHasNoComma(text: string)
    ensures ParseLocation(text).Some? && ParseLocation(text).value.filename.Some? ==>
              !HasComma(ParseLocation(text).value.filename.value)
  {
    var s := if HasComma(text) then AfterLastComma(text) else text;
    LastPieceHasNoComma(text);
    ParsedFilenameIsPrefix(s);
    if ParsePosition(s).Some? && ParsePosition(s).value.filename.Some? {
      PrefixHasNoComma(ParsePosition(s).value.filename.value, s);
    }
  }

  lemma PositionRoundTrip(file: string, line: nat, column: nat)
    ensures var s := file + ":" + Decimal(line) + ":" + Decimal(column);
            if file != "" && OneLine(file) then ParsePosition(s) == Some(Location(line, column, Filename(file)))
            else ParsePosition(s) != Some(Location(line, column, Some(file)))
  {
    var rest := file + ":" + Decimal(line);
    CutNumberOfPrinted(rest, column);
    CutNumberOfPrinted(file, line);
    assert |rest| > |file|;
  }

  /** A location reads back exactly when it is anonymous or its file name is plain: not empty, on one
      line, without a comma followed by a space, and not `<anonymous>` itself. Colons and digits in
      the file name do no harm. */
  lemma LocationRoundTrip(l: Location)
    ensures ParseLocation(PrintLocation(l)) == Some(l)
            <==> l.filename.None? || IsPlainFilename(l.filename.value)
  {
    var file := if l.filename.Some? then l.filename.value else "<anonymous>";
    var s := PrintLocation(l);
    assert s == file + (":" + Decimal(l.line) + ":" + Decimal(l.column));
    CommaIsInFilename(file, l.line, l.column);
    PositionRoundTrip(file, l.line, l.column);
    if HasComma(file) {
      AnonymousIsPlainText();
      ReadFilenameHasNoComma(s);
    } else if l.filename.None? {
      AnonymousIsPlainText();
    }
  }

  lemma AnonymousIsPlainText()
    ensures OneLine("<anonymous>") && !HasComma("<anonymous>")
  {
    assert ',' !in "<anonymous>";
  }

  // ---------------------------------------------------------------------------------------------
  // Frames
  // ---------------------------------------------------------------------------------------------

  predicate StartsAsync(s: string) {
    StartsWith(s, "async ")
  }

  /** No white space after the first character ends the name or is followed by a parenthesis. */
  predicate NoSpaceBeforeParen(name: string) {
    forall k | 1 <= k < |name| && IsJsSpace(name[k]) :: k + 1 < |name| && name[k + 1] != '('
  }

  /** A function name that can be told from the rest of a printed frame. */
  predicate IsReadableName(name: string) {
    name != "" && OneLine(name) && !StartsAsync(name + " ") && NoSpaceBeforeParen(name)
  }

  predicate IsReadableLocation(l: Option<Location>) {
    l.None? || l.value.filename.None? || IsPlainFilename(l.value.filename.value)
  }

  lemma NamedCharacters(name: string, location: string)
    ensures var s := Named(name, location);
            && |s| == |name| + |location| + 3
            && s[..|name|] == name && s[|name|] == ' ' && s[|name| + 1] == '(' && s[|s| - 1] == ')'
            && s[|name| + 2..|s| - 1] == location
  {
  }

  lemma MatchAfterName(name: string, location: string)
    requires name != "" && OneLine(name) && location != "" && OneLine(location)
    ensures var s := Named(name, location);
            ParenMatchAt(s, |name|) && s[SpaceEnd(s, |name|) + 1..|s| - 1] == location
  {
    var s := Named(name, location);
    NamedCharacters(name, location);
    assert SpaceEnd(s, |name|) == |name| + 1 by {
      assert !IsJsSpace('(');
    }
  }

  /** An earlier match of the lazy group needs white space that ends the name or meets a parenthesis. */
  lemma EarlierMatchIffUnclean(name: string, location: string)
    requires name != "" && OneLine(name) && location != "" && OneLine(location)
    ensures NoSpaceBeforeParen(name) <==> forall i | 0 <= i < |name| :: !ParenMatchAt(Named(name, location), i)
  {
    var s := Named(name, location);
    NamedCharacters(name, location);
    assert forall k | 0 <= k < |name| :: s[k] == name[k];
    forall i | 0 <= i < |name| && ParenMatchAt(s, i)
      ensures !NoSpaceBeforeParen(name)
    {
      var j := SpaceEnd(s, i);
      if j <= |name| {
        assert j < |name| && IsJsSpace(name[j - 1]);
      } else {
        assert IsJsSpace(s[|name| - 1]);
      }
    }
    if !NoSpaceBeforeParen(name) {
      var k :| 1 <= k < |name| && IsJsSpace(name[k]) && (k + 1 == |name| || name[k + 1] == '(');
      UncleanNameMatches(name, location, k);
    }
  }

  lemma UncleanNameMatches(name: string, location: string, k: nat)
    requires OneLine(name) && location != "" && OneLine(location)
    requires 1 <= k < |name| && IsJsSpace(name[k]) && (k + 1 == |name| || name[k + 1] == '(')
    ensures ParenMatchAt(Named(name, location), k)
  {
    var s := Named(name, location);
    NamedCharacters(name, location);
    assert forall i | 0 <= i < |name| :: s[i] == name[i];
    assert !IsJsSpace('(') && IsJsSpace(' ');
    var j := if k + 1 == |name| then k + 2 else k + 1;
    assert SpaceEnd(s, k) == j by {
      assert SpaceEnd(s, k) == SpaceEnd(s, k + 1);
    }
    assert OneLine(s[..k]);
    assert OneLine(s[j + 1..|s| - 1]) by {
      assert forall i | 0 <= i < |s| - 1 && i > k :: !IsLineTerminator(s[i]) by {
        assert forall i | |name| + 2 <= i < |s| - 1 :: s[i] == location[i - |name| - 2];
      }
    }
  }

  lemma AsyncIsInName(name: string, location: string)
    ensures StartsAsync(Named(name, location)) <==> StartsAsync(name + " ")
  {
    var s := Named(name, location);
    NamedCharacters(name, location);
    assert s[..|name| + 1] == name + " ";
    if StartsAsync(s) {
      AsyncCharacters(s);
    }
  }

  lemma AsyncCharacters(s: string)
    requires StartsAsync(s)
    ensures |s| >= 6 && s[0] == 'a' && s[5] == ' '
    ensures forall k | 0 <= k < 5 :: s[k] != ' ' && s[k] != ':'
  {
    var p := "async ";
    assert forall k | 0 <= k < |p| :: s[k] == p[k];
  }

  /** A name that starts like an async marker is cut short. */
  lemma AsyncNameIsLost(name: string, location: string)
    requires StartsAsync(name + " ")
    ensures ParseText(WithoutAsync(Named(name, location))).functionName != Some(name)
  {
    var s := Named(name, location);
    NamedCharacters(name, location);
    AsyncIsInName(name, location);
    var text, m := s[6..], ParenMatch(s[6..], 0);
    assert (name + " ")[..5] == "async" && name[0] == (name + " ")[0] == 'a';
    if |name| <= 6 {
      assert text[0] == s[6] && text[0] != 'a';
    } else if m.Some? && text[..m.value] == name {
      assert forall k | 0 <= k < |name| :: name[k] == text[k] == s[k + 6];
      assert name[|name| - 5] == '(';
      NoParenInPeriods(name, |name| - 5);
      assert false;
    }
  }

  lemma {:induction false} NoParenInPeriods(name: string, k: nat)
    requires StartsAsync(name) && k < |name| && (forall i | 0 <= i < |name| - 6 :: name[i] == name[i + 6])
    ensures name[k] != '('
  {
    if k < 6 {
      assert name[k] == "async "[k];
    } else {
      NoParenInPeriods(name, k - 6);
    }
  }

  lemma NamedTextRoundTrip(name: string, location: string)
    requires location != "" && OneLine(location)
    ensures ParseText(WithoutAsync(Named(name, location))) == Frame(Some(name), LocationOf(location))
            <==> IsReadableName(name)
  {
    AsyncIsInName(name, location);
    if StartsAsync(name + " ") {
      AsyncNameIsLost(name, location);
    } else {
      NamedTextReads(name, location);
    }
  }

  lemma NamedTextReads(name: string, location: string)
    requires location != "" && OneLine(location)
    ensures ParseText(Named(name, location)) == Frame(Some(name), LocationOf(location))
            <==> name != "" && OneLine(name) && NoSpaceBeforeParen(name)
  {
    var s := Named(name, location);
    NamedCharacters(name, location);
    if name != "" && OneLine(name) {
      MatchAfterName(name, location);
      EarlierMatchIffUnclean(name, location);
      FirstMatchIs(s, |name|);
    }
  }

  /** The group ends at a match exactly when no earlier place matches. */
  lemma FirstMatchIs(s: string, n: nat)
    requires n < |s| && ParenMatchAt(s, n)
    ensures ParenMatch(s, 0).Some? && ParenMatch(s, 0).value <= n
    ensures ParenMatch(s, 0).value == n <==> forall i | 0 <= i < n :: !ParenMatchAt(s, i)
  {
  }

  lemma PrintedLine(text: string)
    requires text != "" && !IsJsSpace(text[|text| - 1])
    ensures ParseLine("    at " + text) == Some(ParseText(WithoutAsync(text)))
  {
    var line, t := "    at " + text, "at " + text;
    assert TrimStart(line, IsJsSpace) == t by {
      SpacesAreTrimmed(t, 4);
      assert line == Spaces(4) + t;
    }
    assert TrimEnd(t, IsJsSpace) == t;
    assert t[3..] == text;
  }

  function Spaces(n: nat): string {
    if n == 0 then "" else " " + Spaces(n - 1)
  }

  lemma {:induction false} SpacesAreTrimmed(t: string, n: nat)
    requires t != "" && !IsJsSpace(t[0])
    ensures TrimStart(Spaces(n) + t, IsJsSpace) == t
  {
    if n == 0 {
      assert Spaces(0) + t == t;
    } else {
      SpacesAreTrimmed(t, n - 1);
      assert (Spaces(n) + t)[1..] == Spaces(n - 1) + t;
    }
  }

  lemma NotNative(s: string)
    requires s != "" && IsDigit(s[|s| - 1])
    ensures !IsNative(s)
  {
    assert "native"[5] == 'e' && "[native code]"[12] == ']';
  }

  lemma PrintedEnd(l: Location)
    ensures var s := PrintLocation(l); s != "" && IsDigit(s[|s| - 1])
  {
    var s, column := PrintLocation(l), Decimal(l.column);
    assert s[|s| - 1] == column[|column| - 1];
  }

  lemma PrintedCharacters(l: Location)
    requires IsReadableLocation(Some(l))
    ensures var s := PrintLocation(l); s != "" && OneLine(s) && IsDigit(s[|s| - 1])
  {
    PrintedEnd(l);
    var file := if l.filename.Some? then l.filename.value else "<anonymous>";
    AnonymousIsPlainText();
    assert OneLine(file) && OneLine(Decimal(l.line)) && OneLine(Decimal(l.column));
    assert OneLine(":");
  }

  lemma NativeText()
    ensures var s := "native"; OneLine(s) && !IsJsSpace(s[|s| - 1]) && s[|s| - 1] != ')' && LocationOf(s) == None
  {
    assert "native"[5] == 'e';
  }

  lemma PrintedLocationReads(l: Location)
    requires IsReadableLocation(Some(l))
    ensures LocationOf(PrintLocation(l)) == Some(l)
  {
    PrintedCharacters(l);
    NotNative(PrintLocation(l));
    LocationRoundTrip(l);
  }

  lemma LocationTextReads(l: Option<Location>)
    requires IsReadableLocation(l)
    ensures var s := LocationText(l);
            s != "" && OneLine(s) && !IsJsSpace(s[|s| - 1]) && s[|s| - 1] != ')' && LocationOf(s) == l
  {
    if l.Some? {
      var s := PrintLocation(l.value);
      assert LocationText(l) == s;
      PrintedCharacters(l.value);
      DigitIsNoSpace(s[|s| - 1]);
      PrintedLocationReads(l.value);
    } else {
      NativeText();
    }
  }

  lemma DigitIsNoSpace(c: char)
    ensures IsDigit(c) ==> !IsJsSpace(c) && c != ')'
  {
  }

  predicate IsReadable(f: Frame) {
    && IsReadableLocation(f.location)
    && (if f.functionName.Some? then IsReadableName(f.functionName.value) else !StartsAsync(LocationText(f.location)))
  }

  /** A frame reads back exactly when its location is readable and so is the name, or for a frame
      without a name the location text: the condition fails for names such as `async f`, `f ` and
      `f (g`, whose text the parser takes apart differently. */
  lemma FrameRoundTrip(f: Frame)
    ensures ParseLine(PrintFrame(f)) == Some(f) <==> IsReadable(f)
  {
    var location := LocationText(f.location);
    if !IsReadableLocation(f.location) {
      UnreadableLocationIsLost(f, f.location.value);
    } else {
      LocationTextReads(f.location);
      if f.functionName.Some? {
        NamedFrameReads(f.functionName.value, location);
      } else {
        PrintedLine(location);
        UnnamedTextRoundTrip(f.location);
      }
    }
  }

  lemma UnreadableLocationIsLost(f: Frame, l: Location)
    requires f.location == Some(l) && !IsReadableLocation(Some(l))
    ensures ParseLine(PrintFrame(f)) != Some(f)
  {
    var location := PrintLocation(l);
    PrintedEnd(l);
    NotNative(location);
    LocationRoundTrip(l);
    if f.functionName.Some? {
      var name := f.functionName.value;
      PrintedLine(Named(name, location));
      if StartsAsync(Named(name, location)) {
        AsyncIsInName(name, location);
        AsyncNameIsLost(name, location);
      } else {
        NamedLocationIsRead(name, location);
      }
    } else {
      PrintedLine(location);
      if StartsAsync(location) {
        AsyncLocationIsLost(l);
      }
    }
  }

  /** If the name reads back, then so does the text of the location. */
  lemma NamedLocationIsRead(name: string, location: string)
    ensures var f := ParseText(Named(name, location));
            f.functionName == Some(name) ==> f.location == LocationOf(location)
  {
    var s := Named(name, location);
    NamedCharacters(name, location);
    var m := ParenMatch(s, 0);
    if m.Some? && s[..m.value] == name {
      assert m.value == |name|;
      assert SpaceEnd(s, |name|) == |name| + 1 by {
        assert !IsJsSpace('(');
      }
    }
  }

  /** A name that is not readable is not given back, wherever the frame is. */
  lemma UnreadableNameIsLost(name: string, l: Option<Location>)
    requires !IsReadableName(name)
    ensures ParseLine(PrintFrame(Frame(Some(name), l))) != Some(Frame(Some(name), l))
  {
    FrameRoundTrip(Frame(Some(name), l));
  }

  /** Three names that V8 prints and the parser does not give back. */
  lemma SomeNamesAreUnreadable()
    ensures !IsReadableName("async f") && !IsReadableName("f ") && !IsReadableName("f (g")
  {
    assert ("async f" + " ")[..6] == "async ";
    var a, b := "f ", "f (g";
    assert IsJsSpace(a[1]) && 1 + 1 == |a|;
    assert IsJsSpace(b[1]) && b[1 + 1] == '(';
  }

  /** How V8 prints a frame in which an async function awaits. */
  function PrintAsyncFrame(name: string, l: Option<Location>): string {
    "    at " + ("async " + Named(name, LocationText(l)))
  }

  /** The marker of an async frame is taken off: the frame reads back exactly when its location and its
      name are readable, and here the name may well start like a marker itself. */
  lemma AsyncFrameRoundTrip(name: string, l: Option<Location>)
    ensures ParseLine(PrintAsyncFrame(name, l)) == Some(Frame(Some(name), l))
            <==> IsReadableLocation(l) && name != "" && OneLine(name) && NoSpaceBeforeParen(name)
  {
    var named := Named(name, LocationText(l));
    var text := "async " + named;
    NamedCharacters(name, LocationText(l));
    assert text[|text| - 1] == ')' && StartsAsync(text) && text[6..] == named;
    PrintedLine(text);
    if IsReadableLocation(l) {
      LocationTextReads(l);
      NamedTextReads(name, LocationText(l));
    } else {
      NamedLocationIsRead(name, LocationText(l));
      PrintedEnd(l.value);
      NotNative(PrintLocation(l.value));
      LocationRoundTrip(l.value);
    }
  }

  lemma NamedFrameReads(name: string, location: string)
    requires location != "" && OneLine(location)
    ensures ParseLine("    at " + Named(name, location)) == Some(Frame(Some(name), LocationOf(location)))
            <==> IsReadableName(name)
  {
    NamedCharacters(name, location);
    assert !IsJsSpace(')');
    PrintedLine(Named(name, location));
    NamedTextRoundTrip(name, location);
  }

  lemma UnnamedTextRoundTrip(l: Option<Location>)
    requires IsReadableLocation(l)
    ensures ParseText(WithoutAsync(LocationText(l))) == Frame(None, l) <==> !StartsAsync(LocationText(l))
  {
    var s := LocationText(l);
    LocationTextReads(l);
    if l.None? {
      assert s[0] == 'n';
    }
    if StartsAsync(s) {
      AsyncCharacters(s);
      AsyncLocationIsLost(l.value);
    }
  }

  lemma AsyncLocationIsLost(l: Location)
    requires StartsAsync(PrintLocation(l))
    ensures ParseText(PrintLocation(l)[6..]).location != Some(l)
  {
    var s := PrintLocation(l);
    var file := if l.filename.Some? then l.filename.value else "<anonymous>";
    var numbers := ":" + Decimal(l.line) + ":" + Decimal(l.column);
    assert s == file + numbers;
    SuffixCharacters(file, numbers);
    assert s[|file|] == ':';
    AsyncCharacters(s);
    assert |file| >= 6 && s[0] == file[0] == 'a' && "<anonymous>"[0] == '<';
    PrintedEnd(l);
    var text := s[6..];
    assert text[|text| - 1] == s[|s| - 1];
    assert text == file[6..] + numbers;
    NotNative(text);
    AsyncFileIsLost(text, file, l);
  }

  lemma AsyncFileIsLost(text: string, file: string, l: Location)
    requires l.filename == Some(file) && |file| >= 6
    requires text == file[6..] + (":" + Decimal(l.line) + ":" + Decimal(l.column))
    ensures ParseLocation(text) != Some(l)
  {
    var short := file[6..];
    CommaIsInFilename(short, l.line, l.column);
    if HasComma(file) {
      ReadFilenameHasNoComma(text);
    } else {
      if HasComma(short) {
        var i :| 0 <= i < |short| - 1 && IsCommaAt(short, i);
        assert IsCommaAt(file, i + 6);
      }
      assert text == short + ":" + Decimal(l.line) + ":" + Decimal(l.column);
      ShorterFileIsRead(text, short, l);
    }
  }

  lemma ShorterFileIsRead(text: string, short: string, l: Location)
    requires text == short + ":" + Decimal(l.line) + ":" + Decimal(l.column)
    requires l.filename.Some? && |l.filename.value| == |short| + 6
    ensures ParsePosition(text) != Some(l)
  {
    var rest := short + ":" + Decimal(l.line);
    CutNumberOfPrinted(rest, l.column);
    CutNumberOfPrinted(short, l.line);
    PositionRoundTrip(short, l.line, l.column);
    if short == "" || !OneLine(short) {
      DecimalRoundTrip(l.line);
    }
  }

  // ---------------------------------------------------------------------------------------------
  // Locations of evaluated code, and locations without a column
  // ---------------------------------------------------------------------------------------------

  lemma {:induction false} LastPieceOfJoin(outer: string, s: string)
    ensures HasComma(outer + ", " + s) && AfterLastComma(outer + ", " + s) == AfterLastComma(s)
    decreases |outer|
  {
    var text := outer + ", " + s;
    assert IsCommaAt(text, |outer|);
    if outer == "" {
      assert text[1..] == " " + s && text[..2] == ", " && text[2..] == s && (" " + s)[1..] == s;
      SpaceAddsNoComma(s);
      if HasComma(s) {
        assert AfterLastComma(text) == AfterLastComma(" " + s) == AfterLastComma(s);
      } else {
        LastPieceIsAll(s);
      }
    } else {
      assert text[1..] == outer[1..] + ", " + s;
      LastPieceOfJoin(outer[1..], s);
    }
  }

  lemma SpaceAddsNoComma(s: string)
    ensures HasComma(" " + s) <==> HasComma(s)
  {
    if i :| 0 <= i < |s| - 1 && IsCommaAt(s, i) {
      assert IsCommaAt(" " + s, i + 1);
    }
    if i :| 0 <= i < |" " + s| - 1 && IsCommaAt(" " + s, i) {
      assert i > 0 && IsCommaAt(s, i - 1);
    }
  }

  /** Only what follows the last comma and space counts: for code that was evaluated, the place in the
      evaluated text, whatever the place of the evaluation looks like. */
  lemma OuterLocationIsDropped(outer: string, s: string)
    ensures ParseLocation(outer + ", " + s) == ParseLocation(s)
  {
    LastPieceOfJoin(outer, s);
    if !HasComma(s) {
      LastPieceIsAll(s);
    }
  }

  lemma LastPieceIsAll(s: string)
    requires !HasComma(s)
    ensures AfterLastComma(s) == s
  {
    if |s| >= 2 {
      SuffixHasNoComma(s);
      assert !IsCommaAt(s, 0);
    }
  }

  /** A location of evaluated code reads back exactly when it would do so alone. */
  lemma EvaluatedLocationRoundTrip(outer: string, l: Location)
    ensures ParseLocation(outer + ", " + PrintLocation(l)) == Some(l)
            <==> l.filename.None? || IsPlainFilename(l.filename.value)
  {
    OuterLocationIsDropped(outer, PrintLocation(l));
    LocationRoundTrip(l);
  }

  /** The text ends in a colon and digits, behind something. */
  predicate EndsInNumber(s: string) {
    exists i :: 1 <= i < |s| - 1 && IsNumberFrom(s, i)
  }

  predicate IsNumberFrom(s: string, i: nat)
    requires i + 1 < |s|
  {
    s[i] == ':' && AllDigits(s[i + 1..])
  }

  lemma CutNumberIffNumber(s: string)
    ensures CutNumber(s).Some? && CutNumber(s).value.0 != "" <==> EndsInNumber(s)
  {
    var d := DigitsStart(s);
    if CutNumber(s).Some? && CutNumber(s).value.0 != "" {
      assert IsNumberFrom(s, d - 1);
    }
    if i :| 1 <= i < |s| - 1 && IsNumberFrom(s, i) {
      DigitsStartIs(s, i + 1);
    }
  }

  /** A location without a column reads as column zero, exactly when its file name is plain and does not end
      in a number of its own. */
  lemma LineOnlyRoundTrip(file: string, line: nat)
    ensures ParseLocation(file + ":" + Decimal(line)) == Some(Location(line, 0, Some(file)))
            <==> IsPlainFilename(file) && !EndsInNumber(file)
  {
    var s := file + ":" + Decimal(line);
    CutNumberOfPrinted(file, line);
    CutNumberIffNumber(file);
    NumberHasNoComma(file, line);
    if HasComma(file) {
      ReadFilenameHasNoComma(s);
    } else if CutNumber(file).Some? {
      assert |CutNumber(file).value.0| < |file|;
    }
  }

  lemma NumberHasNoComma(file: string, line: nat)
    ensures HasComma(file + ":" + Decimal(line)) <==> HasComma(file)
  {
    var tail := ":" + Decimal(line);
    var s := file + tail;
    assert s == file + ":" + Decimal(line);
    assert ',' !in Decimal(line) && ',' !in tail && tail[0] == ':';
    SuffixCharacters(file, tail);
    assert s[|file|] == ':';
    if i :| 0 <= i < |s| - 1 && IsCommaAt(s, i) {
      assert i + 1 < |file| && IsCommaAt(file, i);
    }
    if i :| 0 <= i < |file| - 1 && IsCommaAt(file, i) {
      assert IsCommaAt(s, i);
    }
  }

  /** Without a number at its end a text is no location. */
  lemma NoNumberNoLocation(s: string)
    ensures ParsePosition(s).Some? ==> EndsInNumber(s)
  {
    CutNumberIffNumber(s);
  }

  // ---------------------------------------------------------------------------------------------
  // All forms in which a frame is printed
  // ---------------------------------------------------------------------------------------------

  /** A frame with the way it is printed: for evaluated code behind the place of the evaluation, and in an
      async function that awaits with a marker. */
  datatype Printed = Printed(frame: Frame, outer: Option<string>, isAsync: bool)

  function Spell(outer: Option<string>, l: Option<Location>): string {
    if outer.Some? then outer.value + ", " + LocationText(l) else LocationText(l)
  }

  function PlainText(p: Printed): string {
    var location := Spell(p.outer, p.frame.location);
    if p.frame.functionName.Some? then Named(p.frame.functionName.value, location) else location
  }

  function PrintedText(p: Printed): string {
    (if p.isAsync then "async " else "") + PlainText(p)
  }

  function PrintLine(p: Printed): string {
    "    at " + PrintedText(p)
  }

  /** A frame without a name that starts like an async marker keeps its location if it has a marker of its
      own, or if the place of the evaluation stands in front. */
  predicate IsReadablePrinted(p: Printed) {
    && IsReadableLocation(p.frame.location)
    && (match p.frame.functionName
        case Some(name) =>
          && name != "" && OneLine(name) && NoSpaceBeforeParen(name)
          && (p.isAsync || !StartsAsync(name + " "))
          && (p.outer.Some? ==> OneLine(p.outer.value))
        case None => p.isAsync || p.outer.Some? || !StartsAsync(LocationText(p.frame.location)))
  }

  lemma LocationTextIffReadable(l: Option<Location>)
    ensures LocationOf(LocationText(l)) == l <==> IsReadableLocation(l)
  {
    if IsReadableLocation(l) {
      LocationTextReads(l);
    } else {
      PrintedEnd(l.value);
      NotNative(PrintLocation(l.value));
      LocationRoundTrip(l.value);
    }
  }

  lemma LocationTextEnd(l: Option<Location>)
    ensures var s := LocationText(l); s != "" && !IsJsSpace(s[|s| - 1]) && s[|s| - 1] != ')'
  {
    if l.Some? {
      PrintedEnd(l.value);
      var s := PrintLocation(l.value);
      DigitIsNoSpace(s[|s| - 1]);
    } else {
      NativeText();
    }
  }

  lemma SpelledEnd(outer: Option<string>, l: Option<Location>)
    ensures var s := Spell(outer, l); s != "" && !IsJsSpace(s[|s| - 1]) && s[|s| - 1] != ')'
  {
    LocationTextEnd(l);
    var s, tail := Spell(outer, l), LocationText(l);
    assert s[|s| - 1] == tail[|tail| - 1];
  }

  /** The place of the evaluation makes no difference to the location that is read. */
  lemma SpelledLocationOf(outer: Option<string>, l: Option<Location>)
    ensures LocationOf(Spell(outer, l)) == LocationOf(LocationText(l))
  {
    if outer.Some? {
      var s := Spell(outer, l);
      assert s[|outer.value|] == ',' && ',' in s;
      assert ',' !in "native" && ',' !in "[native code]";
      OuterLocationIsDropped(outer.value, LocationText(l));
      if l.Some? {
        PrintedEnd(l.value);
        NotNative(PrintLocation(l.value));
      } else {
        NativeIsNoLocation();
      }
    }
  }

  lemma NativeIsNoLocation()
    ensures ParseLocation("native") == None
  {
    var s := "native";
    assert ',' !in s;
    assert DigitsStart(s) == |s| by {
      assert s[|s| - 1] == 'e';
    }
  }

  lemma OneLineOfJoin(a: string, b: string)
    ensures OneLine(a + b) <==> OneLine(a) && OneLine(b)
  {
    if OneLine(a + b) {
      assert forall i | 0 <= i < |a| :: a[i] == (a + b)[i];
      assert forall i | 0 <= i < |b| :: b[i] == (a + b)[|a| + i];
    }
  }

  lemma OneLineBehindComma(a: string, b: string)
    ensures OneLine(a + ", " + b) <==> OneLine(a) && OneLine(b)
  {
    var comma := ", ";
    assert OneLine(comma);
    OneLineOfJoin(a + comma, b);
    OneLineOfJoin(a, comma);
  }

  lemma OneLineSpelled(outer: Option<string>, l: Option<Location>)
    requires IsReadableLocation(l)
    ensures OneLine(Spell(outer, l)) <==> outer.None? || OneLine(outer.value)
  {
    LocationTextReads(l);
    if outer.Some? {
      OneLineBehindComma(outer.value, LocationText(l));
    }
  }

  /** What is read from a name and a location in parentheses. */
  lemma NamedSpelledReads(name: string, location: string, l: Option<Location>)
    requires location != ""
    ensures ParseText(Named(name, location)) == Frame(Some(name), l)
            <==> name != "" && OneLine(name) && NoSpaceBeforeParen(name) && OneLine(location)
                 && LocationOf(location) == l
  {
    NamedLocationIsRead(name, location);
    if OneLine(location) {
      NamedTextReads(name, location);
    } else {
      NamedNeedsOneLine(name, location);
    }
  }

  lemma NamedNeedsOneLine(name: string, location: string)
    requires !OneLine(location)
    ensures ParseText(Named(name, location)).functionName != Some(name)
  {
    var s := Named(name, location);
    NamedCharacters(name, location);
    assert SpaceEnd(s, |name|) == |name| + 1 by {
      assert !IsJsSpace('(');
    }
    assert !ParenMatchAt(s, |name|);
  }

  lemma UnnamedReads(text: string)
    requires text != "" && text[|text| - 1] != ')'
    ensures ParseText(text) == Frame(None, LocationOf(text))
  {
  }

  /** Every form reads back as the frame exactly when it is readable. */
  lemma PrintedRoundTrip(p: Printed)
    ensures ParseLine(PrintLine(p)) == Some(p.frame) <==> IsReadablePrinted(p)
  {
    var text := PlainText(p);
    PlainTextEnd(p);
    if p.isAsync {
      MarkerIsTakenOff(text);
    } else {
      PrintedLine(text);
      assert "" + text == text;
    }
    match p.frame.functionName
    case Some(name) =>
      SpelledNameReads(name, p.outer, p.frame.location);
      if !p.isAsync && StartsAsync(name + " ") {
        AsyncNameIsLost(name, Spell(p.outer, p.frame.location));
      } else {
        AsyncIsInName(name, Spell(p.outer, p.frame.location));
      }
    case None =>
      UnnamedTextReads(p.frame.location, p.outer);
      if !p.isAsync {
        if p.outer.Some? {
          WithoutAsyncSpelled(p.outer.value, p.frame.location);
        } else {
          UnmarkedReads(p.frame.location);
        }
      }
  }

  lemma PlainTextEnd(p: Printed)
    ensures var s := PlainText(p); s != "" && !IsJsSpace(s[|s| - 1])
  {
    SpelledEnd(p.outer, p.frame.location);
    if p.frame.functionName.Some? {
      NamedCharacters(p.frame.functionName.value, Spell(p.outer, p.frame.location));
      assert !IsJsSpace(')');
    }
  }

  lemma MarkerIsTakenOff(text: string)
    requires text != "" && !IsJsSpace(text[|text| - 1])
    ensures ParseLine("    at " + ("async " + text)) == Some(ParseText(text))
  {
    var s := "async " + text;
    assert StartsAsync(s) && s[6..] == text && s[|s| - 1] == text[|text| - 1];
    PrintedLine(s);
  }

  lemma SpelledNameReads(name: string, outer: Option<string>, l: Option<Location>)
    ensures ParseText(Named(name, Spell(outer, l))) == Frame(Some(name), l)
            <==> name != "" && OneLine(name) && NoSpaceBeforeParen(name)
                 && IsReadableLocation(l) && (outer.Some? ==> OneLine(outer.value))
  {
    SpelledEnd(outer, l);
    SpelledLocationOf(outer, l);
    LocationTextIffReadable(l);
    NamedSpelledReads(name, Spell(outer, l), l);
    if IsReadableLocation(l) {
      OneLineSpelled(outer, l);
    }
  }

  lemma UnnamedTextReads(l: Option<Location>, outer: Option<string>)
    ensures ParseText(Spell(outer, l)) == Frame(None, l) <==> IsReadableLocation(l)
  {
    SpelledEnd(outer, l);
    SpelledLocationOf(outer, l);
    LocationTextIffReadable(l);
    UnnamedReads(Spell(outer, l));
  }

  lemma UnmarkedReads(l: Option<Location>)
    ensures ParseText(WithoutAsync(LocationText(l))) == Frame(None, l)
            <==> IsReadableLocation(l) && !StartsAsync(LocationText(l))
  {
    var text := LocationText(l);
    LocationTextEnd(l);
    PrintedLine(text);
    FrameRoundTrip(Frame(None, l));
    assert PrintFrame(Frame(None, l)) == "    at " + text;
  }

  /** If the place of the evaluation starts like an async marker, only that place is cut. */
  lemma WithoutAsyncSpelled(outer: string, l: Option<Location>)
    ensures ParseText(WithoutAsync(Spell(Some(outer), l))) == Frame(None, l) <==> IsReadableLocation(l)
  {
    if StartsAsync(Spell(Some(outer), l)) {
      CommaEndsMarker(outer, LocationText(l));
      UnnamedTextReads(l, Some(outer[6..]));
    } else {
      UnnamedTextReads(l, Some(outer));
    }
  }

  lemma CommaEndsMarker(outer: string, tail: string)
    requires StartsAsync(outer + ", " + tail)
    ensures |outer| >= 6 && (outer + ", " + tail)[6..] == outer[6..] + ", " + tail
  {
    var s := outer + ", " + tail;
    var p := "async ";
    assert s[|outer|] == ',' && ',' !in p;
    assert forall k | 0 <= k < 6 :: s[k] == p[k];
  }

  // ---------------------------------------------------------------------------------------------
  // Whole stacks
  // ---------------------------------------------------------------------------------------------

  /** An error message, then one line a frame. */
  function PrintStack(message: string, ps: seq<Printed>): string {
    if ps == [] then message
    else PrintStack(message, ps[..|ps| - 1]) + ['\n'] + PrintLine(ps[|ps| - 1])
  }

  function FramesIn(ps: seq<Printed>): (frames: seq<Frame>)
    ensures |frames| == |ps| && forall i | 0 <= i < |ps| :: frames[i] == ps[i].frame
  {
    seq(|ps|, i requires 0 <= i < |ps| => ps[i].frame)
  }

  lemma {:induction false} SplitOfJoin(a: string, b: string)
    ensures Split(a + ['\n'] + b, '\n') == Split(a, '\n') + Split(b, '\n')
    decreases |a|
  {
    var s := a + ['\n'] + b;
    if a == [] {
      assert s[1..] == b;
    } else {
      assert s[1..] == a[1..] + ['\n'] + b && s[0] == a[0];
      SplitOfJoin(a[1..], b);
    }
  }

  predicate AllReadable(ps: seq<Printed>) {
    forall i | 0 <= i < |ps| :: IsReadablePrinted(ps[i])
  }

  /** A stack has one line for each frame, wherever its code was evaluated. */
  predicate OuterOnOneLine(ps: seq<Printed>) {
    forall i | 0 <= i < |ps| && ps[i].outer.Some? :: '\n' !in ps[i].outer.value
  }

  /** Nothing that `.` refuses is ever read into a frame. */
  predicate IsOneLine(f: Frame) {
    && (f.functionName.Some? ==> OneLine(f.functionName.value))
    && (f.location.Some? && f.location.value.filename.Some? ==> OneLine(f.location.value.filename.value))
  }

  lemma {:induction false} CollectedAreOneLine(lines: seq<string>)
    ensures forall f | f in Collect(ParseLine, lines) :: IsOneLine(f)
  {
    if lines != [] {
      CollectedAreOneLine(lines[1..]);
      ReadIsOneLine(lines[0]);
    }
  }

  lemma ReadIsOneLine(line: string)
    ensures ParseLine(line).Some? ==> IsOneLine(ParseLine(line).value)
  {
    var t := Trim(line, IsJsSpace);
    if StartsWith(t, "at ") {
      var text := WithoutAsync(t[3..]);
      TextIsOneLine(text);
    }
  }

  lemma TextIsOneLine(text: string)
    ensures IsOneLine(ParseText(text))
  {
    var m := ParenMatch(text, 0);
    ReadLocationIsOneLine(if m.Some? then text[SpaceEnd(text, m.value) + 1..|text| - 1] else text);
    if m.Some? {
      assert ParenMatchAt(text, m.value);
    }
  }

  lemma ReadLocationIsOneLine(s: string)
    ensures LocationOf(s).Some? && LocationOf(s).value.filename.Some? ==> OneLine(LocationOf(s).value.filename.value)
  {
  }

  lemma FrameAppended(stack: string, p: Printed)
    requires IsOneLine(p.frame) && (p.outer.Some? ==> '\n' !in p.outer.value)
    ensures FramesOf(stack + ['\n'] + PrintLine(p)) == FramesOf(stack) + AsSeq(ParseLine(PrintLine(p)))
  {
    SplitOfJoin(stack, PrintLine(p));
    PrintedOnOneLine(p);
    CollectOne(ParseLine, PrintLine(p));
    CollectJoined(ParseLine, Split(stack, '\n'), [PrintLine(p)]);
  }

  lemma PrintedOnOneLine(p: Printed)
    requires IsOneLine(p.frame) && (p.outer.Some? ==> '\n' !in p.outer.value)
    ensures Split(PrintLine(p), '\n') == [PrintLine(p)]
  {
    var f := p.frame;
    if f.location.Some? {
      assert '\n' !in Decimal(f.location.value.line) && '\n' !in Decimal(f.location.value.column);
    }
    assert '\n' !in LocationText(f.location);
    assert '\n' !in Spell(p.outer, f.location);
    assert '\n' !in PrintedText(p);
    assert '\n' !in PrintLine(p);
    SplitWithout(PrintLine(p), '\n');
  }

  lemma HeadAndTail<T>(s: seq<T>)
    requires s != []
    ensures [s[0]] + s[1..] == s
  {
  }

  lemma FrontAndLast<T>(s: seq<T>)
    requires s != []
    ensures s[..|s| - 1] + [s[|s| - 1]] == s
  {
  }

  lemma LastPrinted(message: string, ps: seq<Printed>)
    requires ps != []
    ensures PrintStack(message, ps) == PrintStack(message, ps[..|ps| - 1]) + ['\n'] + PrintLine(ps[|ps| - 1])
    ensures FramesIn(ps[..|ps| - 1]) == FramesIn(ps)[..|ps| - 1] && FramesIn(ps)[|ps| - 1] == ps[|ps| - 1].frame
  {
  }

  /** Parsing inverts printing: behind what the message itself reads as (usually nothing), a list of
      frames, each printed in any of the forms, reads back as exactly this list, in order, if and only if
      all of them are readable. */
  lemma StackRoundTrip(message: string, ps: seq<Printed>)
    requires OuterOnOneLine(ps)
    ensures FramesOf(PrintStack(message, ps)) == FramesOf(message) + FramesIn(ps) <==> AllReadable(ps)
  {
    if FramesOf(PrintStack(message, ps)) == FramesOf(message) + FramesIn(ps) {
      ReadAreOneLine(PrintStack(message, ps), FramesOf(message), ps);
      OneLineStackRoundTrip(message, ps);
    }
    if AllReadable(ps) {
      ReadableAreOneLine(ps);
      OneLineStackRoundTrip(message, ps);
    }
  }

  lemma ReadAreOneLine(stack: string, own: seq<Frame>, ps: seq<Printed>)
    requires FramesOf(stack) == own + FramesIn(ps)
    ensures forall i | 0 <= i < |ps| :: IsOneLine(ps[i].frame)
  {
    var frames := FramesIn(ps);
    CollectedAreOneLine(Split(stack, '\n'));
    forall i | 0 <= i < |ps|
      ensures IsOneLine(ps[i].frame)
    {
      assert ps[i].frame == (own + frames)[|own| + i];
      assert ps[i].frame in FramesOf(stack);
    }
  }

  lemma ReadableAreOneLine(ps: seq<Printed>)
    requires AllReadable(ps)
    ensures forall i | 0 <= i < |ps| :: IsOneLine(ps[i].frame)
  {
    forall i | 0 <= i < |ps|
      ensures IsOneLine(ps[i].frame)
    {
      assert IsReadablePrinted(ps[i]);
    }
  }

  /** What is read of the frames is all of them exactly if all are readable, and never more than they are. */
  predicate ReadsAll(own: seq<Frame>, got: seq<Frame>, frames: seq<Frame>, readable: bool) {
    |got| <= |own| + |frames| && (got == own + frames <==> readable)
  }

  predicate AllOneLine(ps: seq<Printed>) {
    OuterOnOneLine(ps) && forall i | 0 <= i < |ps| :: IsOneLine(ps[i].frame)
  }

  lemma AllOneLineFront(ps: seq<Printed>)
    requires ps != [] && AllOneLine(ps)
    ensures AllOneLine(ps[..|ps| - 1])
  {
  }

  /** No frame can make up for another one that was lost: each line yields at most one. */
  lemma {:induction false} OneLineStackRoundTrip(message: string, ps: seq<Printed>)
    requires AllOneLine(ps)
    ensures ReadsAll(FramesOf(message), FramesOf(PrintStack(message, ps)), FramesIn(ps), AllReadable(ps))
    decreases |ps|
  {
    var own := FramesOf(message);
    if ps == [] {
      assert PrintStack(message, ps) == message && own + [] == own;
    } else {
      var front := ps[..|ps| - 1];
      AllOneLineFront(ps);
      OneLineStackRoundTrip(message, front);
      LastFrameIsRead(message, ps);
      LastIsNeeded(own, FramesOf(PrintStack(message, front)), FramesIn(ps), ParseLine(PrintLine(ps[|ps| - 1])),
                   AllReadable(front));
    }
  }

  lemma LastFrameIsRead(message: string, ps: seq<Printed>)
    requires ps != [] && AllOneLine(ps)
    ensures var n, read := |ps| - 1, ParseLine(PrintLine(ps[|ps| - 1]));
            && FramesIn(ps[..n]) == FramesIn(ps)[..n]
            && FramesOf(PrintStack(message, ps)) == FramesOf(PrintStack(message, ps[..n])) + AsSeq(read)
            && (AllReadable(ps) <==> AllReadable(ps[..n]) && read == Some(FramesIn(ps)[n]))
  {
    var n := |ps| - 1;
    LastPrinted(message, ps);
    FrameAppended(PrintStack(message, ps[..n]), ps[n]);
    PrintedRoundTrip(ps[n]);
    ReadableSnoc(ps);
  }

  lemma ReadableSnoc(ps: seq<Printed>)
    requires ps != []
    ensures AllReadable(ps) <==> AllReadable(ps[..|ps| - 1]) && IsReadablePrinted(ps[|ps| - 1])
  {
  }

  /** A list that grew by at most one element is complete exactly when it was so before, and the last
      element was added. */
  lemma LastIsNeeded(own: seq<Frame>, got: seq<Frame>, frames: seq<Frame>, read: Option<Frame>, readable: bool)
    requires frames != [] && ReadsAll(own, got, frames[..|frames| - 1], readable)
    ensures ReadsAll(own, got + AsSeq(read), frames, readable && read == Some(frames[|frames| - 1]))
  {
    var n := |frames| - 1;
    FrontAndLast(frames);
    Associative(own, frames[..n], [frames[n]]);
    SameFrontAndLast(got, AsSeq(read), own + frames[..n], frames[n]);
  }

  lemma SameFrontAndLast<T>(a: seq<T>, b: seq<T>, front: seq<T>, last: T)
    requires |a| <= |front| && |b| <= 1
    ensures a + b == front + [last] <==> a == front && b == [last]
  {
    if a + b == front + [last] {
      assert |b| == 1;
      assert a == (a + b)[..|a|] && front == (front + [last])[..|front|];
      assert b[0] == (a + b)[|a|];
    }
  }

  // ---------------------------------------------------------------------------------------------
  // Lines that are no frames, and white space around those that are
  // ---------------------------------------------------------------------------------------------

  /** A text reads as no frame at all exactly when no line of it starts, without the white space around it,
      with `at` and a space; this is what messages usually look like. */
  lemma OnlyFrameLinesAreRead(text: string)
    ensures FramesOf(text) == []
            <==> forall line | line in Split(text, '\n') :: !("at " <= Trim(line, IsJsSpace))
  {
    NothingCollected(Split(text, '\n'));
  }

  lemma {:induction false} NothingCollected(lines: seq<string>)
    ensures Collect(ParseLine, lines) == [] <==> forall line | line in lines :: ParseLine(line).None?
    ensures forall line | line in lines :: ParseLine(line).None? <==> !("at " <= Trim(line, IsJsSpace))
  {
    if lines != [] {
      NothingCollected(lines[1..]);
      assert forall line :: line in lines <==> line == lines[0] || line in lines[1..];
    }
  }
}
