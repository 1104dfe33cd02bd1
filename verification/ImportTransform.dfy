/** The rewriting of static imports into dynamic ones (`import_transform.rs`), as text and as meaning.

`TransformStatement` is the source's string function. `ReadProgram` reads the statements it writes
as JavaScript reads them, and a small semantics of these statements is compared with what the static
imports bind (section 16.2.2 of ECMA-262). */
module ImportTransform {
  import opened Wrappers
  import opened Text

  // ---------------------------------------------------------------------------------------------
  // Import clauses and their text
  // ---------------------------------------------------------------------------------------------

  datatype Clause =
    | Default(name: string)
    | Namespace(name: string)
    | Named(braces: Braces)
    | DefaultNamed(name: string, braces: Braces)
    | DefaultNamespace(name: string, space: string)

  /** White space that the writer of the import is free to choose. */
  datatype Layout = Layout(beforeComma: string, afterComma: string, afterStar: string, afterAs: string)

  /** A list in braces, as it is written: white space, line breaks and a last comma are free. */
  predicate IsBraces(s: string) {
    |s| >= 2 && s[0] == '{' && s[|s| - 1] == '}' && '}' !in s[1..|s| - 1]
  }

  type Braces = s: string | IsBraces(s) witness "{}"

  /** The texts between the commas; nothing behind the last comma is no text. */
  function NamesOf(pieces: seq<string>): seq<string> {
    if pieces == [] || (|pieces| == 1 && Trim(pieces[0], IsSpace) == "") then []
    else [Trim(pieces[0], IsSpace)] + NamesOf(pieces[1..])
  }

  function NamesIn(braces: Braces): seq<string> {
    NamesOf(Split(braces[1..|braces| - 1], ','))
  }

  /** An export that is imported, under its own name or under another one. */
  datatype Specifier = Plain(name: string) | Renamed(key: string, name: string)
  {
    function Key(): string {
      if Renamed? then key else name
    }

    predicate IsWellFormed(ids: char -> bool) {
      IsIdentifier(Key(), ids) && IsIdentifier(name, ids)
    }
  }

  function SpaceStart(s: string): (i: nat)
    ensures i <= |s| && (forall k | 0 <= k < i :: !IsSpace(s[k])) && (i < |s| ==> IsSpace(s[i]))
  {
    if s == "" || IsSpace(s[0]) then 0 else 1 + SpaceStart(s[1..])
  }

  /** `name` or `key as name` */
  function SpecifierOf(text: string): Specifier {
    var i := SpaceStart(text);
    var rest := TrimStart(text[i..], IsSpace);
    if |rest| > 2 && "as" <= rest && IsSpace(rest[2]) then Renamed(text[..i], TrimStart(rest[2..], IsSpace))
    else Plain(text)
  }

  function SpecifiersOf(texts: seq<string>): seq<Specifier> {
    if texts == [] then [] else [SpecifierOf(texts[0])] + SpecifiersOf(texts[1..])
  }

  function SpecifiersIn(braces: Braces): seq<Specifier> {
    SpecifiersOf(NamesIn(braces))
  }

  function NamespaceClause(name: string, l: Layout): string {
    "*" + l.afterStar + "as" + l.afterAs + name
  }

  function ClauseText(c: Clause, l: Layout): string {
    match c
    case Default(name) => name
    case Namespace(name) => NamespaceClause(name, l)
    case Named(braces) => braces
    case DefaultNamed(name, braces) => name + l.beforeComma + "," + l.afterComma + braces
    case DefaultNamespace(name, space) => name + l.beforeComma + "," + l.afterComma + NamespaceClause(space, l)
  }

  /** `\w` of the regex crate; the Unicode tables beyond ASCII are the parameter. */
  predicate IsWord(c: char, letters: char -> bool) {
    || 'a' <= c <= 'z' || 'A' <= c <= 'Z' || '0' <= c <= '9' || c == '_'
    || (c >= '\U{0080}' && !IsSpace(c) && letters(c))
  }

  predicate AllWord(s: string, letters: char -> bool) {
    forall i | 0 <= i < |s| :: IsWord(s[i], letters)
  }

  /** The characters of JavaScript identifiers; the Unicode tables beyond ASCII are the parameter, and they
      are not those of `\w`. */
  predicate IsIdentifierCharacter(c: char, ids: char -> bool) {
    || 'a' <= c <= 'z' || 'A' <= c <= 'Z' || '0' <= c <= '9' || c == '_' || c == '$'
    || (c >= '\U{0080}' && !IsSpace(c) && ids(c))
  }

  predicate IsIdentifier(s: string, ids: char -> bool) {
    s != "" && forall i | 0 <= i < |s| :: IsIdentifierCharacter(s[i], ids)
  }

  predicate AllSpace(s: string) {
    forall i | 0 <= i < |s| :: IsSpace(s[i])
  }

  predicate AllSpecifiersWellFormed(specifiers: seq<Specifier>, ids: char -> bool) {
    forall k | 0 <= k < |specifiers| :: specifiers[k].IsWellFormed(ids)
  }

  predicate IsWellFormed(c: Clause, l: Layout, ids: char -> bool) {
    && AllSpace(l.beforeComma) && AllSpace(l.afterComma)
    && AllSpace(l.afterStar) && AllSpace(l.afterAs)
    && (c.Namespace? || c.DefaultNamespace? ==> l.afterStar != "" && l.afterAs != "")
    && (!c.Named? ==> IsIdentifier(c.name, ids))
    && (c.DefaultNamespace? ==> IsIdentifier(c.space, ids))
    && (c.Named? || c.DefaultNamed? ==> AllSpecifiersWellFormed(SpecifiersIn(c.braces), ids))
  }

  // ---------------------------------------------------------------------------------------------
  // The source's function on strings
  // ---------------------------------------------------------------------------------------------

  function Find(s: string, c: char): (i: Option<nat>)
    ensures i.None? ==> c !in s
    ensures i.Some? ==> i.value < |s| && s[i.value] == c && c !in s[..i.value]
  {
    if s == "" then None
    else if s[0] == c then Some(0)
    else match Find(s[1..], c) case Some(i) => Some(i + 1) case None => None
  }

  /** `^\*\s+as\s+(\w+)$` */
  function MatchNamespace(s: string, letters: char -> bool): Option<string> {
    if s == "" || s[0] != '*' then None
    else
      var a := TrimStart(s[1..], IsSpace);
      if a == s[1..] || !("as" <= a) then None
      else
        var name := TrimStart(a[2..], IsSpace);
        if name == a[2..] || name == "" || !AllWord(name, letters) then None else Some(name)
  }

  function LoadText(target: string, path: string): string {
    "const " + target + " = await import('" + path + "');"
  }

  function DefaultText(name: string, m: string): string {
    " const " + name + " = " + m + ".default || " + m + ";"
  }

  function PickText(target: string, m: string): string {
    " const " + target + " = " + m + ";"
  }

  /** `transform_import_statement` */
  function TransformStatement(spec: string, path: string, letters: char -> bool): string {
    if MatchNamespace(spec, letters).Some? then LoadText(MatchNamespace(spec, letters).value, path)
    else if spec != "" && spec[0] == '{' && spec[|spec| - 1] == '}' then LoadText(spec, path)
    else if Find(spec, ',').Some? then
      var comma := Find(spec, ',').value;
      var name := Trim(spec[..comma], IsSpace);
      var names := Trim(spec[comma + 1..], IsSpace);
      LoadText(name + "__mod", path) + DefaultText(name, name + "__mod") + PickText(names, name + "__mod")
    else
      var name := Trim(spec, IsSpace);
      LoadText(name + "__mod", path) + DefaultText(name, name + "__mod")
  }

  // ---------------------------------------------------------------------------------------------
  // Reading statements, as JavaScript does
  // ---------------------------------------------------------------------------------------------

  /** A name, or a pattern of names in braces. */
  datatype Target = Name(name: string) | Pattern(names: seq<string>)

  datatype Expression =
    | AwaitImport(path: string)
    | Variable(name: string)
    | Member(owner: string, key: string)
    | Or(left: Expression, right: Expression)

  datatype Statement = Const(target: Target, value: Expression)

  /** What is behind a token that has to come next. */
  function Expect(s: string, token: string): (rest: Option<string>)
    ensures rest.Some? ==> |rest.value| == |s| - |token|
  {
    if token <= s then Some(s[|token|..]) else None
  }

  function IdentifierEnd(s: string, ids: char -> bool): (n: nat)
    ensures n <= |s| && forall k | 0 <= k < n :: IsIdentifierCharacter(s[k], ids)
  {
    if s != "" && IsIdentifierCharacter(s[0], ids) then 1 + IdentifierEnd(s[1..], ids) else 0
  }

  function ReadName(s: string, ids: char -> bool): (r: Option<(string, string)>)
    ensures r.Some? ==> |r.value.1| < |s| && IsIdentifier(r.value.0, ids)
  {
    var n := IdentifierEnd(s, ids);
    if n == 0 then None else Some((s[..n], s[n..]))
  }

  predicate AllIdentifiers(names: seq<string>, ids: char -> bool) {
    forall k | 0 <= k < |names| :: IsIdentifier(names[k], ids)
  }

  function ReadTarget(s: string, ids: char -> bool): (r: Option<(Target, string)>)
    ensures r.Some? ==> |r.value.1| < |s|
  {
    if s != "" && s[0] == '{' then
      match Find(s, '}')
      case Some(i) =>
        var names := NamesIn(s[..i + 1]);
        if AllIdentifiers(names, ids) then Some((Pattern(names), s[i + 1..])) else None
      case None => None
    else
      match ReadName(s, ids)
      case Some((name, rest)) => Some((Name(name), rest))
      case None => None
  }

  function ReadOperand(s: string, ids: char -> bool): (r: Option<(Expression, string)>)
    ensures r.Some? ==> |r.value.1| < |s|
  {
    match ReadName(s, ids)
    case None => None
    case Some((name, rest)) =>
      match Expect(rest, ".")
      case None => Some((Variable(name), rest))
      case Some(t) =>
        match ReadName(t, ids)
        case Some((key, rest')) => Some((Member(name, key), rest'))
        case None => None
  }

  function ReadOr(s: string, ids: char -> bool): (r: Option<(Expression, string)>)
    ensures r.Some? ==> |r.value.1| < |s|
    decreases |s|
  {
    match ReadOperand(s, ids)
    case None => None
    case Some((left, rest)) =>
      match Expect(rest, " || ")
      case None => Some((left, rest))
      case Some(t) =>
        match ReadOr(t, ids)
        case Some((right, rest')) => Some((Or(left, right), rest'))
        case None => None
  }

  function ReadExpression(s: string, ids: char -> bool): (r: Option<(Expression, string)>)
    ensures r.Some? ==> |r.value.1| < |s|
  {
    match Expect(s, "await import('")
    case None => ReadOr(s, ids)
    case Some(t) =>
      match Find(t, '\'')
      case None => None
      case Some(i) =>
        match Expect(t[i..], "')")
        case Some(rest) => Some((AwaitImport(t[..i]), rest))
        case None => None
  }

  /** `const target = value;` behind the keyword. */
  function ReadConst(s: string, ids: char -> bool): (r: Option<(Statement, string)>)
    ensures r.Some? ==> |r.value.1| < |s|
  {
    match ReadTarget(s, ids)
    case None => None
    case Some((target, rest)) =>
      match Expect(rest, " = ")
      case None => None
      case Some(t) =>
        match ReadExpression(t, ids)
        case None => None
        case Some((value, rest')) =>
          match Expect(rest', ";")
          case Some(rest'') => Some((Const(target, value), rest''))
          case None => None
  }

  /** The statements of a text; a text that is no sequence of them is a syntax error. */
  function ReadProgram(s: string, ids: char -> bool): Option<seq<Statement>>
    decreases |s|
  {
    TrimIsShorter(s, IsSpace);
    var t := TrimStart(s, IsSpace);
    if t == "" then Some([])
    else
      match Expect(t, "const ")
      case None => None
      case Some(u) =>
        match ReadConst(u, ids)
        case None => None
        case Some((statement, rest)) => Then([statement], ReadProgram(rest, ids))
  }

  function Then(first: seq<Statement>, rest: Option<seq<Statement>>): Option<seq<Statement>> {
    match rest
    case Some(statements) => Some(first + statements)
    case None => None
  }

  lemma {:induction false} TrimIsShorter(s: string, space: char -> bool)
    ensures |TrimStart(s, space)| <= |s|
  {
    if s != [] && space(s[0]) {
      TrimIsShorter(s[1..], space);
    }
  }

  // ---------------------------------------------------------------------------------------------
  // The statements that are meant
  // ---------------------------------------------------------------------------------------------

  function Temporary(name: string): string {
    name + "__mod"
  }

  function Load(name: string, path: string): Statement {
    Const(Name(name), AwaitImport(path))
  }

  function OrModule(name: string): Statement {
    Const(Name(name), Or(Member(Temporary(name), "default"), Variable(Temporary(name))))
  }

  function PickNames(name: string, braces: Braces): Statement {
    Const(Pattern(NamesIn(braces)), Variable(Temporary(name)))
  }

  /** What a clause becomes if it can be rewritten. */
  function Intended(c: Clause, path: string): seq<Statement>
    requires !c.DefaultNamespace?
  {
    match c
    case Default(name) => [Load(Temporary(name), path), OrModule(name)]
    case Namespace(name) => [Load(name, path)]
    case Named(braces) => [Const(Pattern(NamesIn(braces)), AwaitImport(path))]
    case DefaultNamed(name, braces) =>
      [Load(Temporary(name), path), OrModule(name), PickNames(name, braces)]
  }

  predicate NoneRenamed(specifiers: seq<Specifier>) {
    forall k | 0 <= k < |specifiers| :: specifiers[k].Plain?
  }

  /** The clauses for which the string function writes statements: no list renames an export, and a namespace
      has a name of word characters and comes without a default import. */
  predicate IsRewritable(c: Clause, letters: char -> bool) {
    match c
    case Default(_) => true
    case Namespace(name) => AllWord(name, letters)
    case Named(braces) => NoneRenamed(SpecifiersIn(braces))
    case DefaultNamed(_, braces) => NoneRenamed(SpecifiersIn(braces))
    case DefaultNamespace(_, _) => false
  }

  // ---------------------------------------------------------------------------------------------
  // Lists in braces
  // ---------------------------------------------------------------------------------------------

  lemma {:induction false} TrimStartOfPadded(pad: string, s: string)
    requires AllSpace(pad) && (s != "" ==> !IsSpace(s[0]))
    ensures TrimStart(pad + s, IsSpace) == s
  {
    if pad == "" {
      assert pad + s == s;
    } else {
      TrimStartOfPadded(pad[1..], s);
      assert (pad + s)[1..] == pad[1..] + s;
    }
  }

  lemma {:induction false} TrimEndOfPadded(s: string, pad: string)
    requires AllSpace(pad) && (s != "" ==> !IsSpace(s[|s| - 1]))
    ensures TrimEnd(s + pad, IsSpace) == s
    decreases |pad|
  {
    if pad == "" {
      assert s + pad == s;
    } else {
      TrimEndOfPadded(s, pad[..|pad| - 1]);
      assert (s + pad)[..|s + pad| - 1] == s + pad[..|pad| - 1];
    }
  }

  lemma IdentifierCharacters(s: string, ids: char -> bool)
    requires IsIdentifier(s, ids)
    ensures forall i | 0 <= i < |s| :: !IsSpace(s[i]) && s[i] != ',' && s[i] != '{' && s[i] != '}' && s[i] != '*'
    ensures Trim(s, IsSpace) == s
  {
    TrimOfTight(s, IsSpace);
  }

  /** A specifier as it is written, with the white space in it and around it. */
  datatype Item = Item(before: string, specifier: Specifier, beforeAs: string, afterAs: string, after: string)
  {
    predicate IsWellFormed(ids: char -> bool) {
      && specifier.IsWellFormed(ids)
      && AllSpace(before) && AllSpace(beforeAs) && AllSpace(afterAs) && AllSpace(after)
      && beforeAs != "" && afterAs != ""
    }

    function Core(): string {
      match specifier
      case Plain(name) => name
      case Renamed(key, name) => key + (beforeAs + ("as" + (afterAs + name)))
    }

    function Text(): string {
      before + Core() + after
    }
  }

  /** The items with a comma behind each of them, and `end`. */
  function ListText(items: seq<Item>, end: string): string {
    if items == [] then end else items[0].Text() + [','] + ListText(items[1..], end)
  }

  function Listed(items: seq<Item>): seq<Specifier> {
    if items == [] then [] else [items[0].specifier] + Listed(items[1..])
  }

  predicate AllWellFormed(items: seq<Item>, ids: char -> bool) {
    forall i | 0 <= i < |items| :: items[i].IsWellFormed(ids)
  }

  lemma {:induction false} SpaceStartIs(before: string, s: string)
    requires (forall k | 0 <= k < |before| :: !IsSpace(before[k])) && (s != "" ==> IsSpace(s[0]))
    ensures SpaceStart(before + s) == |before|
  {
    if before == "" {
      assert before + s == s;
    } else {
      SpaceStartIs(before[1..], s);
      assert (before + s)[1..] == before[1..] + s;
    }
  }

  /** What is written between two commas is the specifier, however it is spaced. */
  lemma SpecifierIsRead(i: Item, ids: char -> bool)
    requires i.IsWellFormed(ids)
    ensures SpecifierOf(i.Core()) == i.specifier
  {
    IdentifierCharacters(i.specifier.name, ids);
    IdentifierCharacters(i.specifier.Key(), ids);
    match i.specifier {
      case Plain(name) =>
        SpaceStartIs(name, "");
        assert name + "" == name && name[|name|..] == "";
      case Renamed(key, name) =>
        var tail := "as" + (i.afterAs + name);
        SpaceStartIs(key, i.beforeAs + tail);
        assert i.Core()[|key|..] == i.beforeAs + tail && i.Core()[..|key|] == key;
        assert tail[0] == 'a' && tail[2] == i.afterAs[0] && tail[2..] == i.afterAs + name;
        TrimStartOfPadded(i.beforeAs, tail);
        TrimStartOfPadded(i.afterAs, name);
    }
  }

  lemma CoreCharacters(i: Item, ids: char -> bool)
    requires i.IsWellFormed(ids)
    ensures var s := i.Core(); s != "" && ',' !in s && '}' !in s && !IsSpace(s[0]) && !IsSpace(s[|s| - 1])
  {
    var name, key := i.specifier.name, i.specifier.Key();
    IdentifierCharacters(name, ids);
    IdentifierCharacters(key, ids);
    if i.specifier.Renamed? {
      assert ',' !in "as" && ',' !in i.beforeAs && ',' !in i.afterAs && ',' !in name && ',' !in key;
      assert '}' !in "as" && '}' !in i.beforeAs && '}' !in i.afterAs && '}' !in name && '}' !in key;
      var tail := i.beforeAs + ("as" + (i.afterAs + name));
      assert ',' !in tail && '}' !in tail;
      var s := i.Core();
      assert s[0] == key[0] && s[|s| - 1] == name[|name| - 1];
    }
  }

  lemma ItemIsRead(i: Item, ids: char -> bool)
    requires i.IsWellFormed(ids)
    ensures ',' !in i.Text() && '}' !in i.Text() && Trim(i.Text(), IsSpace) == i.Core() && i.Core() != ""
    ensures SpecifierOf(i.Core()) == i.specifier
  {
    CoreCharacters(i, ids);
    SpecifierIsRead(i, ids);
    PaddedIsTrimmed(i.before, i.Core(), i.after);
  }

  lemma PaddedIsTrimmed(before: string, core: string, after: string)
    requires AllSpace(before) && AllSpace(after)
    requires core != "" && !IsSpace(core[0]) && !IsSpace(core[|core| - 1]) && ',' !in core && '}' !in core
    ensures var s := before + core + after; Trim(s, IsSpace) == core && ',' !in s && '}' !in s
  {
    assert before + core + after == before + (core + after);
    assert (core + after)[0] == core[0];
    TrimStartOfPadded(before, core + after);
    TrimEndOfPadded(core, after);
  }

  lemma {:induction false} ItemsAreRead(items: seq<Item>, end: string, ids: char -> bool)
    requires AllWellFormed(items, ids) && ',' !in end && '}' !in end
    ensures '}' !in ListText(items, end)
    ensures SpecifiersOf(NamesOf(Split(ListText(items, end), ','))) == Listed(items) + SpecifiersOf(NamesOf([end]))
  {
    if items == [] {
      SplitWithout(end, ',');
      assert Listed(items) + SpecifiersOf(NamesOf([end])) == SpecifiersOf(NamesOf([end]));
    } else {
      var rest := ListText(items[1..], end);
      ItemIsRead(items[0], ids);
      ItemsAreRead(items[1..], end, ids);
      SplitAtFirst(items[0].Text(), ',', rest);
      FirstPieceIsRead(items[0].Text(), Split(rest, ','));
      Associative([items[0].specifier], Listed(items[1..]), SpecifiersOf(NamesOf([end])));
    }
  }

  lemma FirstPieceIsRead(piece: string, rest: seq<string>)
    requires Trim(piece, IsSpace) != ""
    ensures NamesOf([piece] + rest) == [Trim(piece, IsSpace)] + NamesOf(rest)
    ensures SpecifiersOf(NamesOf([piece] + rest)) == [SpecifierOf(Trim(piece, IsSpace))] + SpecifiersOf(NamesOf(rest))
  {
    assert ([piece] + rest)[1..] == rest;
    assert ([Trim(piece, IsSpace)] + NamesOf(rest))[1..] == NamesOf(rest);
  }

  /** A list reads back as the exports and names that are written, however it is spaced, and with a comma
      behind the last of them as well as without. */
  lemma ListedSpecifiersAreRead(items: seq<Item>, last: Item, pad: string, ids: char -> bool)
    requires AllWellFormed(items, ids) && last.IsWellFormed(ids) && AllSpace(pad)
    ensures var braces := "{" + ListText(items, pad) + "}";
            IsBraces(braces) && SpecifiersIn(braces) == Listed(items)
    ensures var braces := "{" + ListText(items, last.Text()) + "}";
            IsBraces(braces) && SpecifiersIn(braces) == Listed(items) + [last.specifier]
  {
    ListWithCommaIsRead(items, pad, ids);
    ListIsRead(items, last, ids);
  }

  lemma ListWithCommaIsRead(items: seq<Item>, pad: string, ids: char -> bool)
    requires AllWellFormed(items, ids) && AllSpace(pad)
    ensures var braces := "{" + ListText(items, pad) + "}";
            IsBraces(braces) && SpecifiersIn(braces) == Listed(items)
  {
    ItemsAreRead(items, pad, ids);
    InBraces(ListText(items, pad));
    TrimStartOfPadded(pad, "");
    assert pad + "" == pad && TrimEnd("", IsSpace) == "";
    assert Listed(items) + [] == Listed(items);
  }

  lemma ListIsRead(items: seq<Item>, last: Item, ids: char -> bool)
    requires AllWellFormed(items, ids) && last.IsWellFormed(ids)
    ensures var braces := "{" + ListText(items, last.Text()) + "}";
            IsBraces(braces) && SpecifiersIn(braces) == Listed(items) + [last.specifier]
  {
    var end := last.Text();
    ItemIsRead(last, ids);
    ItemsAreRead(items, end, ids);
    InBraces(ListText(items, end));
    FirstPieceIsRead(end, []);
    assert [end] + [] == [end] && [last.specifier] + [] == [last.specifier];
  }

  lemma InBraces(text: string)
    requires '}' !in text
    ensures var braces := "{" + text + "}"; IsBraces(braces) && braces[1..|braces| - 1] == text
  {
    var braces := "{" + text + "}";
    assert braces[1..|braces| - 1] == text;
  }

  /** Without renaming, the texts between the commas are the names. */
  lemma {:induction false} PlainNames(texts: seq<string>, ids: char -> bool)
    requires AllSpecifiersWellFormed(SpecifiersOf(texts), ids)
    ensures |SpecifiersOf(texts)| == |texts|
    ensures NoneRenamed(SpecifiersOf(texts)) <==> AllIdentifiers(texts, ids)
    ensures NoneRenamed(SpecifiersOf(texts)) ==>
              forall k | 0 <= k < |texts| :: SpecifiersOf(texts)[k] == Plain(texts[k])
  {
    if texts != [] {
      var rest := SpecifiersOf(texts[1..]);
      assert forall k | 0 <= k < |rest| :: rest[k] == SpecifiersOf(texts)[k + 1];
      PlainNames(texts[1..], ids);
      assert SpecifiersOf(texts)[0] == SpecifierOf(texts[0]);
      PlainIffIdentifier(texts[0], ids);
      assert forall k | 0 < k < |texts| :: SpecifiersOf(texts)[k] == rest[k - 1] && texts[k] == texts[1..][k - 1];
      assert NoneRenamed(SpecifiersOf(texts)) <==> SpecifierOf(texts[0]).Plain? && NoneRenamed(rest);
      assert AllIdentifiers(texts, ids) <==> IsIdentifier(texts[0], ids) && AllIdentifiers(texts[1..], ids);
    }
  }

  lemma PlainIffIdentifier(text: string, ids: char -> bool)
    requires SpecifierOf(text).IsWellFormed(ids)
    ensures if IsIdentifier(text, ids) then SpecifierOf(text) == Plain(text) else SpecifierOf(text).Renamed?
  {
    if IsIdentifier(text, ids) {
      IdentifierCharacters(text, ids);
      SpaceStartIs(text, "");
      assert text + "" == text && text[|text|..] == "";
    }
  }

  lemma NamesUnlessRenamed(braces: Braces, ids: char -> bool)
    requires AllSpecifiersWellFormed(SpecifiersIn(braces), ids)
    ensures NoneRenamed(SpecifiersIn(braces)) <==> AllIdentifiers(NamesIn(braces), ids)
  {
    PlainNames(NamesIn(braces), ids);
  }

  // ---------------------------------------------------------------------------------------------
  // What the string function writes for the clauses
  // ---------------------------------------------------------------------------------------------

  lemma TightIsTrimmed(s: string)
    requires s != "" && !IsSpace(s[0]) && !IsSpace(s[|s| - 1])
    ensures Trim(s, IsSpace) == s
  {
    TrimOfTight(s, IsSpace);
  }

  lemma NamespaceText(name: string, l: Layout, letters: char -> bool, ids: char -> bool)
    requires IsWellFormed(Namespace(name), l, ids)
    ensures MatchNamespace(NamespaceClause(name, l), letters) == if AllWord(name, letters) then Some(name) else None
  {
    var a := "as" + l.afterAs + name;
    StarText(l.afterStar, l.afterAs, name);
    IdentifierCharacters(name, ids);
    TrimStartOfPadded(l.afterStar, a);
    TrimStartOfPadded(l.afterAs, name);
  }

  lemma StarText(first: string, second: string, name: string)
    ensures var s, a := "*" + first + "as" + second + name, "as" + second + name;
            s[0] == '*' && s[1..] == first + a && a[0] == 'a' && "as" <= a && a[2..] == second + name
            && (first != "" ==> |a| < |s[1..]|) && (second != "" ==> |name| < |a[2..]|)
  {
  }

  lemma {:induction false} TrimmedIsPadded(s: string) returns (pad: string)
    ensures AllSpace(pad) && s == pad + TrimStart(s, IsSpace)
    ensures TrimStart(s, IsSpace) != "" ==> !IsSpace(TrimStart(s, IsSpace)[0])
  {
    if s != "" && IsSpace(s[0]) {
      pad := TrimmedIsPadded(s[1..]);
      pad := [s[0]] + pad;
    } else {
      pad := "";
    }
  }

  /** Whatever matches the pattern of a namespace import is one: a star, white space, `as`, white space and a
      name of word characters. */
  lemma MatchedIsNamespace(s: string, letters: char -> bool) returns (l: Layout)
    requires MatchNamespace(s, letters).Some?
    ensures AllSpace(l.afterStar) && l.afterStar != "" && AllSpace(l.afterAs) && l.afterAs != ""
    ensures var name := MatchNamespace(s, letters).value;
            name != "" && AllWord(name, letters) && s == NamespaceClause(name, l)
  {
    var first := TrimmedIsPadded(s[1..]);
    var a := TrimStart(s[1..], IsSpace);
    var second := TrimmedIsPadded(a[2..]);
    l := Layout("", "", first, second);
    assert a == "as" + a[2..];
    assert s == "*" + s[1..];
  }

  lemma FindFirst(before: string, c: char, after: string)
    requires c !in before
    ensures var s := before + [c] + after;
            Find(s, c) == Some(|before|) && s[..|before|] == before && s[|before| + 1..] == after
  {
    var s := before + [c] + after;
    assert s[|before|] == c;
    assert s[..|before|] == before;
  }

  lemma NoStarNoNamespace(s: string, letters: char -> bool)
    requires s != "" && s[0] != '*'
    ensures MatchNamespace(s, letters).None?
  {
  }

  /** The statements for a default import and what else is taken from its module. */
  function WrittenWithDefault(name: string, more: string, path: string): string {
    var m := Temporary(name);
    LoadText(m, path) + DefaultText(name, m) + (if more == "" then "" else PickText(more, m))
  }

  lemma DefaultAndMore(
    name: string, more: string, l: Layout, path: string, letters: char -> bool, ids: char -> bool)
    requires IsIdentifier(name, ids) && AllSpace(l.beforeComma) && AllSpace(l.afterComma)
    requires more != "" && !IsSpace(more[0]) && !IsSpace(more[|more| - 1])
    ensures TransformStatement(name + l.beforeComma + "," + l.afterComma + more, path, letters)
            == WrittenWithDefault(name, more, path)
  {
    var before, after := name + l.beforeComma, l.afterComma + more;
    var s := before + [','] + after;
    assert name + l.beforeComma + "," + l.afterComma + more == s by {
      assert "," == [','];
      Associative(before + [','], l.afterComma, more);
    }
    IdentifierCharacters(name, ids);
    assert ',' !in name && ',' !in l.beforeComma;
    assert TrimStart(before, IsSpace) == before by {
      assert before[0] == name[0];
    }
    TrimEndOfPadded(name, l.beforeComma);
    TightIsTrimmed(more);
    TrimStartOfPadded(l.afterComma, more);
    FindFirst(before, ',', after);
    assert s[0] == name[0];
    NoStarNoNamespace(s, letters);
  }

  lemma NamespaceEnds(name: string, l: Layout, ids: char -> bool)
    requires IsWellFormed(Namespace(name), l, ids)
    ensures var s := NamespaceClause(name, l); s[0] == '*' && !IsSpace(s[|s| - 1]) && s[|s| - 1] != '}' && ',' !in s
  {
    IdentifierCharacters(name, ids);
    var s := NamespaceClause(name, l);
    assert s[|s| - 1] == name[|name| - 1];
    assert ',' !in l.afterStar && ',' !in l.afterAs && ',' !in name && ',' !in "*" && ',' !in "as";
  }

  /** The text for each clause. */
  function Written(c: Clause, l: Layout, path: string, letters: char -> bool): string {
    match c
    case Default(name) => WrittenWithDefault(name, "", path)
    case Namespace(name) =>
      if AllWord(name, letters) then LoadText(name, path) else WrittenWithDefault(NamespaceClause(name, l), "", path)
    case Named(braces) => LoadText(braces, path)
    case DefaultNamed(name, braces) => WrittenWithDefault(name, braces, path)
    case DefaultNamespace(name, space) => WrittenWithDefault(name, NamespaceClause(space, l), path)
  }

  lemma UnmatchedNamespace(name: string, l: Layout, path: string, letters: char -> bool, ids: char -> bool)
    requires IsWellFormed(Namespace(name), l, ids) && !AllWord(name, letters)
    ensures var s := NamespaceClause(name, l);
            TransformStatement(s, path, letters) == WrittenWithDefault(s, "", path)
  {
    var s := NamespaceClause(name, l);
    NamespaceText(name, l, letters, ids);
    NamespaceEnds(name, l, ids);
    TightIsTrimmed(s);
    WithoutMore(s, path);
  }

  lemma WithoutMore(name: string, path: string)
    ensures WrittenWithDefault(name, "", path)
            == LoadText(name + "__mod", path) + DefaultText(name, name + "__mod")
  {
  }

  lemma DefaultIsWritten(name: string, path: string, letters: char -> bool, ids: char -> bool)
    requires IsIdentifier(name, ids)
    ensures TransformStatement(name, path, letters) == WrittenWithDefault(name, "", path)
  {
    IdentifierCharacters(name, ids);
    WithoutMore(name, path);
  }

  lemma NamespaceIsWritten(name: string, l: Layout, path: string, letters: char -> bool, ids: char -> bool)
    requires IsWellFormed(Namespace(name), l, ids)
    ensures TransformStatement(NamespaceClause(name, l), path, letters) == Written(Namespace(name), l, path, letters)
  {
    NamespaceText(name, l, letters, ids);
    if !AllWord(name, letters) {
      UnmatchedNamespace(name, l, path, letters, ids);
    }
  }

  lemma NamedIsWritten(braces: Braces, path: string, letters: char -> bool)
    ensures TransformStatement(braces, path, letters) == LoadText(braces, path)
  {
    NoStarNoNamespace(braces, letters);
  }

  lemma StatementIsWritten(c: Clause, l: Layout, path: string, letters: char -> bool, ids: char -> bool)
    requires IsWellFormed(c, l, ids)
    ensures TransformStatement(ClauseText(c, l), path, letters) == Written(c, l, path, letters)
  {
    match c {
      case Default(name) => DefaultIsWritten(name, path, letters, ids);
      case Namespace(name) => NamespaceIsWritten(name, l, path, letters, ids);
      case Named(braces) => NamedIsWritten(braces, path, letters);
      case DefaultNamed(name, braces) => DefaultAndMore(name, braces, l, path, letters, ids);
      case DefaultNamespace(name, space) => DefaultNamespaceIsWritten(name, space, l, path, letters, ids);
    }
  }

  lemma DefaultNamespaceIsWritten(
    name: string, space: string, l: Layout, path: string, letters: char -> bool, ids: char -> bool)
    requires IsIdentifier(name, ids) && IsWellFormed(Namespace(space), l, ids)
    ensures var more := NamespaceClause(space, l);
            TransformStatement(name + l.beforeComma + "," + l.afterComma + more, path, letters)
            == WrittenWithDefault(name, more, path)
  {
    NamespaceEnds(space, l, ids);
    DefaultAndMore(name, NamespaceClause(space, l), l, path, letters, ids);
  }

  // ---------------------------------------------------------------------------------------------
  // Reading what is written
  // ---------------------------------------------------------------------------------------------

  lemma ExpectNext(token: string, rest: string)
    ensures Expect(token + rest, token) == Some(rest)
  {
    assert (token + rest)[|token|..] == rest;
  }

  lemma {:induction false} IdentifierEndIs(name: string, rest: string, ids: char -> bool)
    requires forall k | 0 <= k < |name| :: IsIdentifierCharacter(name[k], ids)
    requires rest != "" ==> !IsIdentifierCharacter(rest[0], ids)
    ensures IdentifierEnd(name + rest, ids) == |name|
  {
    if name == "" {
      assert name + rest == rest;
    } else {
      IdentifierEndIs(name[1..], rest, ids);
      assert (name + rest)[1..] == name[1..] + rest;
    }
  }

  lemma NameIsRead(name: string, rest: string, ids: char -> bool)
    requires IsIdentifier(name, ids) && (rest != "" ==> !IsIdentifierCharacter(rest[0], ids))
    ensures ReadName(name + rest, ids) == Some((name, rest))
  {
    IdentifierEndIs(name, rest, ids);
    assert (name + rest)[..|name|] == name && (name + rest)[|name|..] == rest;
  }

  lemma NameTargetIsRead(name: string, rest: string, ids: char -> bool)
    requires IsIdentifier(name, ids) && (rest != "" ==> !IsIdentifierCharacter(rest[0], ids))
    ensures ReadTarget(name + rest, ids) == Some((Name(name), rest))
  {
    NameIsRead(name, rest, ids);
    IdentifierCharacters(name, ids);
    assert (name + rest)[0] == name[0];
  }

  lemma PatternIsRead(braces: Braces, rest: string, ids: char -> bool)
    ensures ReadTarget(braces + rest, ids)
            == if AllIdentifiers(NamesIn(braces), ids) then Some((Pattern(NamesIn(braces)), rest)) else None
  {
    var n := |braces| - 1;
    assert '}' !in braces[..n] by {
      assert braces[..n] == [braces[0]] + braces[1..n];
    }
    assert braces + rest == braces[..n] + ['}'] + rest by {
      assert braces == braces[..n] + ['}'];
    }
    FindFirst(braces[..n], '}', rest);
    assert (braces + rest)[..n + 1] == braces;
  }

  lemma StarIsNoTarget(s: string, ids: char -> bool)
    requires s != "" && s[0] == '*'
    ensures ReadTarget(s, ids).None?
  {
  }

  lemma ImportIsRead(path: string, rest: string, ids: char -> bool)
    requires '\'' !in path
    ensures ReadExpression("await import('" + (path + ("')" + rest)), ids) == Some((AwaitImport(path), rest))
  {
    var t := path + ("')" + rest);
    ExpectNext("await import('", t);
    assert t == path + ['\''] + (")" + rest);
    FindFirst(path, '\'', ")" + rest);
    assert t[|path|..] == "')" + rest;
    ExpectNext("')", rest);
  }

  lemma NameIsNoImport(name: string, rest: string, ids: char -> bool)
    requires IsIdentifier(name, ids) && rest != "" && (rest[0] == '.' || rest[0] == ';')
    ensures Expect(name + rest, "await import('").None?
  {
    var s, token := name + rest, "await import('";
    assert s[|name|] == rest[0];
    assert token[5] == ' ' && !IsIdentifierCharacter(' ', ids);
  }

  lemma VariableIsRead(name: string, rest: string, ids: char -> bool)
    requires IsIdentifier(name, ids)
    ensures ReadOr(name + (";" + rest), ids) == Some((Variable(name), ";" + rest))
    ensures ReadExpression(name + (";" + rest), ids) == Some((Variable(name), ";" + rest))
  {
    NameIsRead(name, ";" + rest, ids);
    NameIsNoImport(name, ";" + rest, ids);
    assert (";" + rest)[0] == ';' && "."[0] == '.' && " || "[0] == ' ';
  }

  lemma MemberIsRead(name: string, rest: string, ids: char -> bool)
    requires IsIdentifier(name, ids)
    ensures ReadOperand(name + ("." + ("default" + (" " + rest))), ids) == Some((Member(name, "default"), " " + rest))
  {
    var t := "default" + (" " + rest);
    NameIsRead(name, "." + t, ids);
    ExpectNext(".", t);
    NameIsRead("default", " " + rest, ids);
  }

  lemma FallbackIsRead(name: string, rest: string, ids: char -> bool)
    requires IsIdentifier(name, ids)
    ensures ReadExpression(name + (".default || " + (name + (";" + rest))), ids)
            == Some((Or(Member(name, "default"), Variable(name)), ";" + rest))
  {
    var right := name + (";" + rest);
    DefaultTail(right);
    NameIsNoImport(name, ".default || " + right, ids);
    MemberIsRead(name, "|| " + right, ids);
    VariableIsRead(name, rest, ids);
    OrIsRead(name + (".default || " + right), Member(name, "default"), right, Variable(name), ";" + rest, ids);
  }

  lemma DefaultTail(right: string)
    ensures ".default || " + right == "." + ("default" + (" " + ("|| " + right)))
    ensures " " + ("|| " + right) == " || " + right
  {
  }

  lemma OrIsRead(s: string, left: Expression, t: string, right: Expression, rest: string, ids: char -> bool)
    requires ReadOperand(s, ids) == Some((left, " || " + t))
    requires ReadOr(t, ids) == Some((right, rest))
    ensures ReadOr(s, ids) == Some((Or(left, right), rest))
  {
    ExpectNext(" || ", t);
  }

  lemma ConstIsRead(text: string, target: Target, u: string, value: Expression, rest: string, ids: char -> bool)
    requires ReadTarget(text + (" = " + u), ids) == Some((target, " = " + u))
    requires ReadExpression(u, ids) == Some((value, ";" + rest))
    ensures ReadProgram("const " + (text + (" = " + u)), ids) == Then([Const(target, value)], ReadProgram(rest, ids))
  {
    var t := text + (" = " + u);
    ExpectNext("const ", t);
    ExpectNext(" = ", u);
    ExpectNext(";", rest);
    ConstIsTight(t);
  }

  lemma ConstIsTight(t: string)
    ensures TrimStart("const " + t, IsSpace) == "const " + t
  {
    assert ("const " + t)[0] == 'c';
  }

  lemma UnreadableTarget(t: string, ids: char -> bool)
    requires ReadTarget(t, ids).None?
    ensures ReadProgram("const " + t, ids).None?
  {
    ExpectNext("const ", t);
    ConstIsTight(t);
  }

  lemma SpaceIsSkipped(s: string, ids: char -> bool)
    ensures ReadProgram(" " + s, ids) == ReadProgram(s, ids)
  {
    assert (" " + s)[1..] == s;
  }

  lemma LoadBracketed(target: string, path: string, rest: string)
    ensures LoadText(target, path) + rest
            == "const " + (target + (" = " + ("await import('" + (path + ("')" + (";" + rest))))))
  {
  }

  lemma DefaultBracketed(name: string, m: string, rest: string)
    ensures DefaultText(name, m) + rest
            == " " + ("const " + (name + (" = " + (m + (".default || " + (m + (";" + rest)))))))
  {
  }

  lemma PickBracketed(target: string, m: string, rest: string)
    ensures PickText(target, m) + rest == " " + ("const " + (target + (" = " + (m + (";" + rest)))))
  {
  }

  lemma LoadIsRead(name: string, path: string, rest: string, ids: char -> bool)
    requires IsIdentifier(name, ids) && '\'' !in path
    ensures ReadProgram(LoadText(name, path) + rest, ids) == Then([Load(name, path)], ReadProgram(rest, ids))
  {
    var u := "await import('" + (path + ("')" + (";" + rest)));
    LoadBracketed(name, path, rest);
    NameTargetIsRead(name, " = " + u, ids);
    ImportIsRead(path, ";" + rest, ids);
    ConstIsRead(name, Name(name), u, AwaitImport(path), rest, ids);
  }

  lemma PatternLoadIsRead(braces: Braces, path: string, rest: string, ids: char -> bool)
    requires '\'' !in path
    ensures ReadProgram(LoadText(braces, path) + rest, ids)
            == if AllIdentifiers(NamesIn(braces), ids)
               then Then([Const(Pattern(NamesIn(braces)), AwaitImport(path))], ReadProgram(rest, ids)) else None
  {
    var u := "await import('" + (path + ("')" + (";" + rest)));
    LoadBracketed(braces, path, rest);
    PatternIsRead(braces, " = " + u, ids);
    if AllIdentifiers(NamesIn(braces), ids) {
      ImportIsRead(path, ";" + rest, ids);
      ConstIsRead(braces, Pattern(NamesIn(braces)), u, AwaitImport(path), rest, ids);
    } else {
      UnreadableTarget(braces + (" = " + u), ids);
    }
  }

  lemma StarLoadIsUnreadable(target: string, path: string, rest: string, ids: char -> bool)
    requires target != "" && target[0] == '*'
    ensures ReadProgram(LoadText(target, path) + rest, ids).None?
  {
    var t := target + (" = " + ("await import('" + (path + ("')" + (";" + rest)))));
    LoadBracketed(target, path, rest);
    StarIsNoTarget(t, ids);
    UnreadableTarget(t, ids);
  }

  lemma TemporaryIsIdentifier(name: string, ids: char -> bool)
    requires IsIdentifier(name, ids)
    ensures IsIdentifier(Temporary(name), ids)
  {
    assert forall k | 0 <= k < |"__mod"| :: IsIdentifierCharacter("__mod"[k], ids);
  }

  lemma DefaultIsRead(name: string, rest: string, ids: char -> bool)
    requires IsIdentifier(name, ids)
    ensures ReadProgram(DefaultText(name, Temporary(name)) + rest, ids)
            == Then([OrModule(name)], ReadProgram(rest, ids))
  {
    var m := Temporary(name);
    var u := m + (".default || " + (m + (";" + rest)));
    TemporaryIsIdentifier(name, ids);
    DefaultBracketed(name, m, rest);
    SpaceIsSkipped("const " + (name + (" = " + u)), ids);
    NameTargetIsRead(name, " = " + u, ids);
    FallbackIsRead(m, rest, ids);
    ConstIsRead(name, Name(name), u, Or(Member(m, "default"), Variable(m)), rest, ids);
  }

  lemma PickIsRead(braces: Braces, m: string, rest: string, ids: char -> bool)
    requires IsIdentifier(m, ids)
    ensures ReadProgram(PickText(braces, m) + rest, ids)
            == if AllIdentifiers(NamesIn(braces), ids)
               then Then([Const(Pattern(NamesIn(braces)), Variable(m))], ReadProgram(rest, ids)) else None
  {
    var u := m + (";" + rest);
    PickBracketed(braces, m, rest);
    SpaceIsSkipped("const " + (braces + (" = " + u)), ids);
    PatternIsRead(braces, " = " + u, ids);
    if AllIdentifiers(NamesIn(braces), ids) {
      VariableIsRead(m, rest, ids);
      ConstIsRead(braces, Pattern(NamesIn(braces)), u, Variable(m), rest, ids);
    } else {
      UnreadableTarget(braces + (" = " + u), ids);
    }
  }

  lemma StarPickIsUnreadable(target: string, m: string, rest: string, ids: char -> bool)
    requires target != "" && target[0] == '*'
    ensures ReadProgram(PickText(target, m) + rest, ids).None?
  {
    var t := target + (" = " + (m + (";" + rest)));
    PickBracketed(target, m, rest);
    SpaceIsSkipped("const " + t, ids);
    StarIsNoTarget(t, ids);
    UnreadableTarget(t, ids);
  }

  lemma ThenJoined(a: seq<Statement>, b: seq<Statement>, rest: Option<seq<Statement>>)
    ensures Then(a, Then(b, rest)) == Then(a + b, rest)
  {
    if rest.Some? {
      Associative(a, b, rest.value);
    }
  }

  lemma DefaultPairIsRead(name: string, path: string, tail: string, ids: char -> bool)
    requires IsIdentifier(name, ids) && '\'' !in path
    ensures var m := Temporary(name);
            ReadProgram(LoadText(m, path) + (DefaultText(name, m) + tail), ids)
            == Then([Load(m, path), OrModule(name)], ReadProgram(tail, ids))
  {
    var m := Temporary(name);
    TemporaryIsIdentifier(name, ids);
    LoadIsRead(m, path, DefaultText(name, m) + tail, ids);
    DefaultIsRead(name, tail, ids);
    ThenJoined([Load(m, path)], [OrModule(name)], ReadProgram(tail, ids));
    assert [Load(m, path)] + [OrModule(name)] == [Load(m, path), OrModule(name)];
  }

  lemma DefaultClauseIsRead(name: string, path: string, rest: string, ids: char -> bool)
    requires IsIdentifier(name, ids) && '\'' !in path
    ensures ReadProgram(WrittenWithDefault(name, "", path) + rest, ids)
            == Then([Load(Temporary(name), path), OrModule(name)], ReadProgram(rest, ids))
  {
    var m := Temporary(name);
    WithoutMore(name, path);
    Associative(LoadText(m, path), DefaultText(name, m), rest);
    DefaultPairIsRead(name, path, rest, ids);
  }

  lemma DefaultAndMoreIsRead(name: string, more: string, path: string, rest: string, ids: char -> bool)
    requires IsIdentifier(name, ids) && '\'' !in path && more != ""
    ensures ReadProgram(WrittenWithDefault(name, more, path) + rest, ids)
            == Then([Load(Temporary(name), path), OrModule(name)],
                    ReadProgram(PickText(more, Temporary(name)) + rest, ids))
  {
    var m := Temporary(name);
    Associative(LoadText(m, path), DefaultText(name, m), PickText(more, m));
    Associative(LoadText(m, path), DefaultText(name, m) + PickText(more, m), rest);
    Associative(DefaultText(name, m), PickText(more, m), rest);
    DefaultPairIsRead(name, path, PickText(more, m) + rest, ids);
  }

  lemma PickBehindDefaultIsRead(name: string, braces: Braces, path: string, rest: string, ids: char -> bool)
    requires IsIdentifier(name, ids) && '\'' !in path && AllSpecifiersWellFormed(SpecifiersIn(braces), ids)
    ensures var first := [Load(Temporary(name), path), OrModule(name)];
            ReadProgram(WrittenWithDefault(name, braces, path) + rest, ids)
            == if NoneRenamed(SpecifiersIn(braces))
               then Then(first, Then([PickNames(name, braces)], ReadProgram(rest, ids))) else None
  {
    NamesUnlessRenamed(braces, ids);
    TemporaryIsIdentifier(name, ids);
    DefaultAndMoreIsRead(name, braces, path, rest, ids);
    PickIsRead(braces, Temporary(name), rest, ids);
  }

  lemma DefaultNamedIsRead(name: string, braces: Braces, path: string, rest: string, ids: char -> bool)
    requires IsIdentifier(name, ids) && '\'' !in path && AllSpecifiersWellFormed(SpecifiersIn(braces), ids)
    ensures ReadProgram(WrittenWithDefault(name, braces, path) + rest, ids)
            == if NoneRenamed(SpecifiersIn(braces))
               then Then(Intended(DefaultNamed(name, braces), path), ReadProgram(rest, ids)) else None
  {
    var first := [Load(Temporary(name), path), OrModule(name)];
    PickBehindDefaultIsRead(name, braces, path, rest, ids);
    ThenJoined(first, [PickNames(name, braces)], ReadProgram(rest, ids));
    assert first + [PickNames(name, braces)] == Intended(DefaultNamed(name, braces), path);
  }

  lemma DefaultNamespaceIsUnreadable(
    name: string, space: string, l: Layout, path: string, rest: string, ids: char -> bool)
    requires IsIdentifier(name, ids) && '\'' !in path
    ensures ReadProgram(WrittenWithDefault(name, NamespaceClause(space, l), path) + rest, ids).None?
  {
    var s := NamespaceClause(space, l);
    assert s[0] == '*';
    DefaultAndMoreIsRead(name, s, path, rest, ids);
    StarPickIsUnreadable(s, Temporary(name), rest, ids);
  }

  /** The text that the string function writes for a clause, in front of any other text, reads as the
      intended statements if the clause can be rewritten, and is a syntax error if it cannot. */
  lemma WrittenStatementsAreRead(
    c: Clause, l: Layout, path: string, rest: string, letters: char -> bool, ids: char -> bool)
    requires IsWellFormed(c, l, ids) && '\'' !in path
    ensures ReadProgram(TransformStatement(ClauseText(c, l), path, letters) + rest, ids)
            == if IsRewritable(c, letters) then Then(Intended(c, path), ReadProgram(rest, ids)) else None
  {
    StatementIsWritten(c, l, path, letters, ids);
    match c {
      case Default(name) => DefaultClauseIsRead(name, path, rest, ids);
      case Namespace(name) => NamespaceIsRead(name, l, path, rest, letters, ids);
      case Named(braces) =>
        NamesUnlessRenamed(braces, ids);
        PatternLoadIsRead(braces, path, rest, ids);
      case DefaultNamed(name, braces) => DefaultNamedIsRead(name, braces, path, rest, ids);
      case DefaultNamespace(name, space) => DefaultNamespaceIsUnreadable(name, space, l, path, rest, ids);
    }
  }

  lemma NamespaceIsRead(
    name: string, l: Layout, path: string, rest: string, letters: char -> bool, ids: char -> bool)
    requires IsWellFormed(Namespace(name), l, ids) && '\'' !in path
    ensures ReadProgram(Written(Namespace(name), l, path, letters) + rest, ids)
            == if AllWord(name, letters) then Then([Load(name, path)], ReadProgram(rest, ids)) else None
  {
    if AllWord(name, letters) {
      LoadIsRead(name, path, rest, ids);
    } else {
      var s := NamespaceClause(name, l);
      NamespaceEnds(name, l, ids);
      WithoutMore(s, path);
      var m := Temporary(s);
      Associative(LoadText(m, path), DefaultText(s, m), rest);
      StarLoadIsUnreadable(m, path, DefaultText(s, m) + rest, ids);
    }
  }

  // ---------------------------------------------------------------------------------------------
  // What the statements bind
  // ---------------------------------------------------------------------------------------------

  datatype Value = Undefined | Falsy(n: nat) | Truthy(n: nat) | Function(n: nat) | ModuleObject(path: string)

  predicate IsTruthy(v: Value) {
    v.Truthy? || v.Function? || v.ModuleObject?
  }

  type Environment = map<string, Value>

  /** The exports of every module that can be loaded. */
  type World = map<string, map<string, Value>>

  function Get(w: World, path: string, key: string): Value {
    if path in w && key in w[path] then w[path][key] else Undefined
  }

  /** `const` refuses a name that is declared already. */
  function Declare(e: Environment, name: string, v: Value): Option<Environment> {
    if name in e then None else Some(e[name := v])
  }

  function DeclareMembers(w: World, e: Environment, names: seq<string>, path: string): Option<Environment>
    decreases names
  {
    if names == [] then Some(e)
    else
      match Declare(e, names[0], Get(w, path, names[0]))
      case Some(e') => DeclareMembers(w, e', names[1..], path)
      case None => None
  }

  /** A module that exports a function named `then`: awaiting its import calls that function. */
  predicate IsThenable(w: World, path: string) {
    path in w && "then" in w[path] && w[path]["then"].Function?
  }

  predicate CanLoad(w: World, path: string) {
    path in w && !IsThenable(w, path)
  }

  function Evaluate(w: World, e: Environment, x: Expression): Option<Value> {
    match x
    case AwaitImport(path) => if CanLoad(w, path) then Some(ModuleObject(path)) else None
    case Variable(name) => if name in e then Some(e[name]) else None
    case Member(owner, key) =>
      if owner in e && e[owner].ModuleObject? then Some(Get(w, e[owner].path, key)) else None
    case Or(left, right) =>
      match Evaluate(w, e, left)
      case Some(v) => if IsTruthy(v) then Some(v) else Evaluate(w, e, right)
      case None => None
  }

  function Execute(w: World, e: Environment, statement: Statement): Option<Environment> {
    match Evaluate(w, e, statement.value)
    case None => None
    case Some(v) =>
      match statement.target
      case Name(name) => Declare(e, name, v)
      case Pattern(names) => if v.ModuleObject? then DeclareMembers(w, e, names, v.path) else None
  }

  function ExecuteAll(w: World, e: Environment, statements: seq<Statement>): Option<Environment>
    decreases statements
  {
    if statements == [] then Some(e)
    else
      match Execute(w, e, statements[0])
      case Some(e') => ExecuteAll(w, e', statements[1..])
      case None => None
  }

  /** What a text binds when it is run; a syntax error keeps all of it from running. */
  function RunText(w: World, text: string, ids: char -> bool): Option<Environment> {
    match ReadProgram(text, ids)
    case Some(statements) => ExecuteAll(w, map[], statements)
    case None => None
  }

  // ---------------------------------------------------------------------------------------------
  // What the static imports bind
  // ---------------------------------------------------------------------------------------------

  /** A missing export is a link error, a name bound twice an early error. */
  function LinkMember(w: World, e: Environment, name: string, path: string, key: string): Option<Environment> {
    if path in w && key in w[path] then Declare(e, name, w[path][key]) else None
  }

  function LinkMembers(w: World, e: Environment, specifiers: seq<Specifier>, path: string): Option<Environment>
    decreases specifiers
  {
    if specifiers == [] then Some(e)
    else
      match LinkMember(w, e, specifiers[0].name, path, specifiers[0].Key())
      case Some(e') => LinkMembers(w, e', specifiers[1..], path)
      case None => None
  }

  function Link(w: World, e: Environment, c: Clause, path: string): Option<Environment> {
    if path !in w then None
    else
      match c
      case Default(name) => LinkMember(w, e, name, path, "default")
      case Namespace(name) => Declare(e, name, ModuleObject(path))
      case Named(braces) => LinkMembers(w, e, SpecifiersIn(braces), path)
      case DefaultNamed(name, braces) =>
        (match LinkMember(w, e, name, path, "default")
         case Some(e') => LinkMembers(w, e', SpecifiersIn(braces), path)
         case None => None)
      case DefaultNamespace(name, space) =>
        match LinkMember(w, e, name, path, "default")
        case Some(e') => Declare(e', space, ModuleObject(path))
        case None => None
  }

  datatype Import = Import(clause: Clause, layout: Layout, path: string)

  function LinkAll(w: World, e: Environment, imports: seq<Import>): Option<Environment>
    decreases imports
  {
    if imports == [] then Some(e)
    else
      match Link(w, e, imports[0].clause, imports[0].path)
      case Some(e') => LinkAll(w, e', imports[1..])
      case None => None
  }

  /** The path stands between quotes, which it cannot contain. */
  predicate AllImportsWellFormed(imports: seq<Import>, ids: char -> bool) {
    forall k | 0 <= k < |imports| ::
      IsWellFormed(imports[k].clause, imports[k].layout, ids) && '\'' !in imports[k].path
  }

  predicate AllRewritable(imports: seq<Import>, letters: char -> bool) {
    forall k | 0 <= k < |imports| :: IsRewritable(imports[k].clause, letters)
  }

  predicate NoneThenable(w: World, imports: seq<Import>) {
    forall k | 0 <= k < |imports| :: !IsThenable(w, imports[k].path)
  }

  /** What the string function writes for all the statements. */
  function Emitted(imports: seq<Import>, letters: char -> bool): string {
    if imports == [] then ""
    else
      TransformStatement(ClauseText(imports[0].clause, imports[0].layout), imports[0].path, letters)
      + Emitted(imports[1..], letters)
  }

  function IntendedAll(imports: seq<Import>, letters: char -> bool): seq<Statement>
    requires AllRewritable(imports, letters)
  {
    if imports == [] then []
    else
      RewritableCons(imports, letters);
      Intended(imports[0].clause, imports[0].path) + IntendedAll(imports[1..], letters)
  }

  lemma RewritableCons(imports: seq<Import>, letters: char -> bool)
    requires imports != []
    ensures AllRewritable(imports, letters)
            <==> IsRewritable(imports[0].clause, letters) && AllRewritable(imports[1..], letters)
  {
    assert forall k | 0 < k < |imports| :: imports[k] == imports[1..][k - 1];
    assert forall k | 0 <= k < |imports[1..]| :: imports[1..][k] == imports[k + 1];
  }

  lemma WellFormedCons(imports: seq<Import>, ids: char -> bool)
    requires imports != [] && AllImportsWellFormed(imports, ids)
    ensures AllImportsWellFormed(imports[1..], ids)
  {
    assert forall k | 0 <= k < |imports[1..]| :: imports[1..][k] == imports[k + 1];
  }

  /** The text written for any list of imports reads as their intended statements, one after the other, if
      all of them can be rewritten, and otherwise is a syntax error. */
  lemma {:induction false} EmittedIsRead(imports: seq<Import>, letters: char -> bool, ids: char -> bool)
    requires AllImportsWellFormed(imports, ids)
    ensures ReadProgram(Emitted(imports, letters), ids)
            == if AllRewritable(imports, letters) then Some(IntendedAll(imports, letters)) else None
  {
    if imports != [] {
      WellFormedCons(imports, ids);
      EmittedIsRead(imports[1..], letters, ids);
      WrittenStatementsAreRead(
        imports[0].clause, imports[0].layout, imports[0].path, Emitted(imports[1..], letters), letters, ids);
      RewritableCons(imports, letters);
    }
  }

  function NameSet(names: seq<string>): set<string> {
    set n | n in names
  }

  function BoundNames(specifiers: seq<Specifier>): set<string> {
    set s | s in specifiers :: s.name
  }

  /** The names an import clause binds. */
  function BoundBy(c: Clause): set<string> {
    match c
    case Default(name) => {name}
    case Namespace(name) => {name}
    case Named(braces) => BoundNames(SpecifiersIn(braces))
    case DefaultNamed(name, braces) => {name} + BoundNames(SpecifiersIn(braces))
    case DefaultNamespace(name, space) => {name, space}
  }

  function BoundByAll(imports: seq<Import>): set<string> {
    if imports == [] then {} else BoundBy(imports[0].clause) + BoundByAll(imports[1..])
  }

  predicate HasDefault(c: Clause) {
    c.Default? || c.DefaultNamed? || c.DefaultNamespace?
  }

  function TemporaryOf(c: Clause): set<string> {
    if HasDefault(c) then {Temporary(c.name)} else {}
  }

  /** The temporaries of the rewriting. */
  function Temporaries(imports: seq<Import>): set<string> {
    if imports == [] then {} else TemporaryOf(imports[0].clause) + Temporaries(imports[1..])
  }

  predicate DefaultTruthy(w: World, i: Import) {
    HasDefault(i.clause) ==> IsTruthy(Get(w, i.path, "default"))
  }

  predicate DefaultsTruthy(w: World, imports: seq<Import>) {
    forall k | 0 <= k < |imports| :: DefaultTruthy(w, imports[k])
  }

  predicate SameOn(s: Environment, d: Environment)
    requires s.Keys <= d.Keys
  {
    forall n | n in s :: d[n] == s[n]
  }

  // ---------------------------------------------------------------------------------------------
  // Comparison
  // ---------------------------------------------------------------------------------------------

  lemma {:induction false} ExecuteJoined(w: World, e: Environment, a: seq<Statement>, b: seq<Statement>)
    ensures ExecuteAll(w, e, a + b)
            == match ExecuteAll(w, e, a) case Some(e') => ExecuteAll(w, e', b) case None => None
    decreases a
  {
    if a == [] {
      assert a + b == b;
    } else {
      assert (a + b)[1..] == a[1..] + b;
      if Execute(w, e, a[0]).Some? {
        ExecuteJoined(w, Execute(w, e, a[0]).value, a[1..], b);
      }
    }
  }

  predicate ArePlain(specifiers: seq<Specifier>, names: seq<string>) {
    |specifiers| == |names| && forall k | 0 <= k < |names| :: specifiers[k] == Plain(names[k])
  }

  lemma PlainSpecifiers(braces: Braces, ids: char -> bool)
    requires AllSpecifiersWellFormed(SpecifiersIn(braces), ids) && NoneRenamed(SpecifiersIn(braces))
    ensures ArePlain(SpecifiersIn(braces), NamesIn(braces))
  {
    PlainNames(NamesIn(braces), ids);
  }

  lemma PlainCons(specifiers: seq<Specifier>, names: seq<string>)
    requires ArePlain(specifiers, names) && names != []
    ensures ArePlain(specifiers[1..], names[1..]) && specifiers[0] == Plain(names[0])
  {
  }

  lemma PlainBindings(specifiers: seq<Specifier>, names: seq<string>)
    requires ArePlain(specifiers, names)
    ensures BoundNames(specifiers) == NameSet(names)
  {
    forall n | n in names
      ensures n in BoundNames(specifiers)
    {
      var k :| 0 <= k < |names| && names[k] == n;
      assert specifiers[k] in specifiers && specifiers[k].name == n;
    }
    forall s | s in specifiers
      ensures s.name in names
    {
      var k :| 0 <= k < |specifiers| && specifiers[k] == s;
      assert s == Plain(names[k]);
    }
  }

  /** Members are declared as they are linked, next to whatever else is declared. */
  lemma {:induction false} MembersMirrored(
    w: World, s: Environment, d: Environment, specifiers: seq<Specifier>, names: seq<string>, path: string)
    requires ArePlain(specifiers, names)
    requires s.Keys <= d.Keys && LinkMembers(w, s, specifiers, path).Some?
    requires (d.Keys - s.Keys) !! LinkMembers(w, s, specifiers, path).value.Keys
    ensures DeclareMembers(w, d, names, path).Some?
    ensures var s', d' := LinkMembers(w, s, specifiers, path).value, DeclareMembers(w, d, names, path).value;
            && s'.Keys == s.Keys + NameSet(names) && d'.Keys == d.Keys + NameSet(names)
            && (forall n | n in s :: s'[n] == s[n]) && (forall n | n in d :: d'[n] == d[n])
            && (forall n | n in s' && n !in s :: d'[n] == s'[n])
    decreases names
  {
    if names != [] {
      PlainBindings(specifiers, names);
      LinkMembersGrow(w, s, specifiers, path);
      assert names[0] in NameSet(names);
      PlainCons(specifiers, names);
      PlainBindings(specifiers[1..], names[1..]);
      var s1 := LinkMember(w, s, names[0], path, names[0]).value;
      LinkMembersGrow(w, s1, specifiers[1..], path);
      var d1 := Declare(d, names[0], Get(w, path, names[0])).value;
      MembersMirrored(w, s1, d1, specifiers[1..], names[1..], path);
      assert NameSet(names) == {names[0]} + NameSet(names[1..]);
    }
  }

  lemma {:induction false} LinkMembersGrow(w: World, s: Environment, specifiers: seq<Specifier>, path: string)
    requires LinkMembers(w, s, specifiers, path).Some?
    ensures LinkMembers(w, s, specifiers, path).value.Keys == s.Keys + BoundNames(specifiers)
    ensures s.Keys !! BoundNames(specifiers)
    decreases specifiers
  {
    if specifiers != [] {
      var one := specifiers[0];
      LinkMembersGrow(w, LinkMember(w, s, one.name, path, one.Key()).value, specifiers[1..], path);
      BoundNamesCons(specifiers);
    }
  }

  lemma BoundNamesCons(specifiers: seq<Specifier>)
    requires specifiers != []
    ensures BoundNames(specifiers) == {specifiers[0].name} + BoundNames(specifiers[1..])
  {
    assert forall s :: s in specifiers <==> s == specifiers[0] || s in specifiers[1..];
  }

  lemma {:induction false} DeclareMembersGrow(w: World, d: Environment, names: seq<string>, path: string)
    requires DeclareMembers(w, d, names, path).Some?
    ensures DeclareMembers(w, d, names, path).value.Keys == d.Keys + NameSet(names) && d.Keys !! NameSet(names)
    decreases names
  {
    if names != [] {
      DeclareMembersGrow(w, Declare(d, names[0], Get(w, path, names[0])).value, names[1..], path);
      assert NameSet(names) == {names[0]} + NameSet(names[1..]);
    }
  }

  lemma LinkGrows(w: World, s: Environment, i: Import)
    requires Link(w, s, i.clause, i.path).Some?
    ensures Link(w, s, i.clause, i.path).value.Keys == s.Keys + BoundBy(i.clause) && s.Keys !! BoundBy(i.clause)
  {
    match i.clause {
      case Named(braces) => LinkMembersGrow(w, s, SpecifiersIn(braces), i.path);
      case DefaultNamed(name, braces) =>
        LinkMembersGrow(w, LinkMember(w, s, name, i.path, "default").value, SpecifiersIn(braces), i.path);
      case _ =>
    }
  }

  /** Execution of the two statements of a default import. */
  function AfterDefault(w: World, d: Environment, name: string, path: string): Environment {
    var default := Get(w, path, "default");
    d[Temporary(name) := ModuleObject(path)][name := if IsTruthy(default) then default else ModuleObject(path)]
  }

  lemma DefaultExecuted(w: World, d: Environment, name: string, path: string)
    ensures name != Temporary(name)
    ensures var r := ExecuteAll(w, d, Intended(Default(name), path));
            if CanLoad(w, path) && name !in d && Temporary(name) !in d then r == Some(AfterDefault(w, d, name, path))
            else r.None?
  {
    assert |Temporary(name)| > |name|;
    var load, pick := Load(Temporary(name), path), OrModule(name);
    assert Intended(Default(name), path) == [load] + [pick];
    ExecuteJoined(w, d, [load], [pick]);
    OneExecuted(w, d, load);
    if Execute(w, d, load).Some? {
      var e := Execute(w, d, load).value;
      OneExecuted(w, e, pick);
      FallbackEvaluated(w, e, Temporary(name), path);
    }
  }

  lemma FallbackEvaluated(w: World, e: Environment, m: string, path: string)
    requires m in e && e[m] == ModuleObject(path)
    ensures var default := Get(w, path, "default");
            Evaluate(w, e, Or(Member(m, "default"), Variable(m)))
            == Some(if IsTruthy(default) then default else ModuleObject(path))
  {
    assert Evaluate(w, e, Member(m, "default")) == Some(Get(w, path, "default"));
    assert Evaluate(w, e, Variable(m)) == Some(ModuleObject(path));
  }

  lemma DefaultNamedExecuted(w: World, d: Environment, name: string, braces: Braces, path: string)
    ensures var r := ExecuteAll(w, d, Intended(DefaultNamed(name, braces), path));
            if CanLoad(w, path) && name !in d && Temporary(name) !in d
            then r == DeclareMembers(w, AfterDefault(w, d, name, path), NamesIn(braces), path) else r.None?
  {
    DefaultExecuted(w, d, name, path);
    var pick := PickNames(name, braces);
    ExecuteJoined(w, d, Intended(Default(name), path), [pick]);
    assert Intended(DefaultNamed(name, braces), path) == Intended(Default(name), path) + [pick];
    OneExecuted(w, AfterDefault(w, d, name, path), pick);
  }

  lemma OneExecuted(w: World, d: Environment, statement: Statement)
    ensures ExecuteAll(w, d, [statement]) == Execute(w, d, statement)
  {
    assert [statement][1..] == [];
  }

  function IntendedOf(i: Import, letters: char -> bool): seq<Statement>
    requires IsRewritable(i.clause, letters)
  {
    Intended(i.clause, i.path)
  }

  /** What executing the statements of one import declares. */
  lemma ExecuteGrows(w: World, d: Environment, i: Import, letters: char -> bool, ids: char -> bool)
    requires IsWellFormed(i.clause, i.layout, ids) && IsRewritable(i.clause, letters)
    requires ExecuteAll(w, d, IntendedOf(i, letters)).Some?
    ensures ExecuteAll(w, d, IntendedOf(i, letters)).value.Keys == d.Keys + BoundBy(i.clause) + TemporaryOf(i.clause)
    ensures d.Keys !! BoundBy(i.clause) !! TemporaryOf(i.clause)
  {
    match i.clause {
      case Default(name) => DefaultExecuted(w, d, name, i.path);
      case Namespace(name) => OneExecuted(w, d, Load(name, i.path));
      case Named(braces) => NamedGrows(w, d, braces, i.path, ids);
      case DefaultNamed(name, braces) => DefaultNamedGrows(w, d, name, braces, i.path, ids);
    }
  }

  lemma NamedGrows(w: World, d: Environment, braces: Braces, path: string, ids: char -> bool)
    requires AllSpecifiersWellFormed(SpecifiersIn(braces), ids) && NoneRenamed(SpecifiersIn(braces))
    requires ExecuteAll(w, d, Intended(Named(braces), path)).Some?
    ensures var bound := BoundNames(SpecifiersIn(braces));
            ExecuteAll(w, d, Intended(Named(braces), path)).value.Keys == d.Keys + bound && d.Keys !! bound
  {
    OneExecuted(w, d, Const(Pattern(NamesIn(braces)), AwaitImport(path)));
    DeclareMembersGrow(w, d, NamesIn(braces), path);
    PlainSpecifiers(braces, ids);
    PlainBindings(SpecifiersIn(braces), NamesIn(braces));
  }

  lemma DefaultNamedGrows(
    w: World, d: Environment, name: string, braces: Braces, path: string, ids: char -> bool)
    requires AllSpecifiersWellFormed(SpecifiersIn(braces), ids) && NoneRenamed(SpecifiersIn(braces))
    requires ExecuteAll(w, d, Intended(DefaultNamed(name, braces), path)).Some?
    ensures var bound := {name} + BoundNames(SpecifiersIn(braces));
            && ExecuteAll(w, d, Intended(DefaultNamed(name, braces), path)).value.Keys
               == d.Keys + bound + {Temporary(name)}
            && d.Keys !! bound !! {Temporary(name)}
  {
    DefaultExecuted(w, d, name, path);
    DefaultNamedExecuted(w, d, name, braces, path);
    DeclareMembersGrow(w, AfterDefault(w, d, name, path), NamesIn(braces), path);
    PlainSpecifiers(braces, ids);
    PlainBindings(SpecifiersIn(braces), NamesIn(braces));
  }

  lemma DefaultMirrored(w: World, s: Environment, d: Environment, name: string, path: string)
    requires s.Keys <= d.Keys && LinkMember(w, s, name, path, "default").Some?
    requires name !in d && Temporary(name) !in d && Temporary(name) != name
    ensures var s', d' := LinkMember(w, s, name, path, "default").value, AfterDefault(w, d, name, path);
            && s'.Keys == s.Keys + {name} && d'.Keys == d.Keys + {name, Temporary(name)}
            && (SameOn(s', d') <==> SameOn(s, d) && IsTruthy(Get(w, path, "default")))
  {
    var s', d' := LinkMember(w, s, name, path, "default").value, AfterDefault(w, d, name, path);
    assert forall n | n in s :: s'[n] == s[n] && d'[n] == d[n];
    assert s'[name] == Get(w, path, "default");
    assert SameOn(s', d') ==> d'[name] == s'[name];
  }

  lemma SameOnExtended(s: Environment, d: Environment, s': Environment, d': Environment)
    requires s.Keys <= d.Keys && s.Keys <= s'.Keys <= d'.Keys
    requires forall n | n in s :: s'[n] == s[n] && d'[n] == d[n]
    requires forall n | n in s' && n !in s :: d'[n] == s'[n]
    ensures SameOn(s', d') <==> SameOn(s, d)
  {
    if SameOn(s', d') {
      forall n | n in s ensures d[n] == s[n] { assert d'[n] == s'[n]; }
    }
  }

  lemma NamedMirrored(
    w: World, s: Environment, d: Environment, specifiers: seq<Specifier>, names: seq<string>, path: string)
    requires ArePlain(specifiers, names)
    requires s.Keys <= d.Keys && LinkMembers(w, s, specifiers, path).Some?
    requires (d.Keys - s.Keys) !! LinkMembers(w, s, specifiers, path).value.Keys
    ensures DeclareMembers(w, d, names, path).Some?
    ensures var s', d' := LinkMembers(w, s, specifiers, path).value, DeclareMembers(w, d, names, path).value;
            && s'.Keys == s.Keys + BoundNames(specifiers) && d'.Keys == d.Keys + BoundNames(specifiers)
            && (SameOn(s', d') <==> SameOn(s, d))
  {
    PlainBindings(specifiers, names);
    MembersMirrored(w, s, d, specifiers, names, path);
    SameOnExtended(s, d, LinkMembers(w, s, specifiers, path).value, DeclareMembers(w, d, names, path).value);
  }

  /** An import that the rewriting is meant for. */
  predicate IsPlainImport(w: World, i: Import, letters: char -> bool, ids: char -> bool) {
    IsWellFormed(i.clause, i.layout, ids) && IsRewritable(i.clause, letters) && !IsThenable(w, i.path)
  }

  /** One import: the rewriting runs and binds what the import binds, except that a falsy default
      export is replaced by its module. */
  lemma ImportMirrored(
    w: World, s: Environment, d: Environment, i: Import, letters: char -> bool, ids: char -> bool)
    requires IsPlainImport(w, i, letters, ids)
    requires s.Keys <= d.Keys && Link(w, s, i.clause, i.path).Some?
    requires (d.Keys - s.Keys + TemporaryOf(i.clause)) !! Link(w, s, i.clause, i.path).value.Keys
    requires d.Keys !! TemporaryOf(i.clause)
    ensures ExecuteAll(w, d, IntendedOf(i, letters)).Some?
    ensures var s', d' := Link(w, s, i.clause, i.path).value, ExecuteAll(w, d, IntendedOf(i, letters)).value;
            && s'.Keys == s.Keys + BoundBy(i.clause) && d'.Keys == d.Keys + BoundBy(i.clause) + TemporaryOf(i.clause)
            && (SameOn(s', d') <==> SameOn(s, d) && DefaultTruthy(w, i))
  {
    LinkGrows(w, s, i);
    match i.clause {
      case Default(name) =>
        DefaultExecuted(w, d, name, i.path);
        DefaultMirrored(w, s, d, name, i.path);
      case Namespace(name) =>
        OneExecuted(w, d, Load(name, i.path));
        SameOnExtended(s, d, s[name := ModuleObject(i.path)], d[name := ModuleObject(i.path)]);
      case Named(braces) =>
        OneExecuted(w, d, Const(Pattern(NamesIn(braces)), AwaitImport(i.path)));
        PlainSpecifiers(braces, ids);
        NamedMirrored(w, s, d, SpecifiersIn(braces), NamesIn(braces), i.path);
      case DefaultNamed(name, braces) =>
        PlainSpecifiers(braces, ids);
        DefaultNamedMirrored(w, s, d, name, braces, i);
    }
  }

  lemma DefaultNamedMirrored(w: World, s: Environment, d: Environment, name: string, braces: Braces, i: Import)
    requires i.clause == DefaultNamed(name, braces) && ArePlain(SpecifiersIn(braces), NamesIn(braces))
    requires s.Keys <= d.Keys && Link(w, s, i.clause, i.path).Some? && !IsThenable(w, i.path)
    requires (d.Keys - s.Keys + TemporaryOf(i.clause)) !! Link(w, s, i.clause, i.path).value.Keys
    requires d.Keys !! TemporaryOf(i.clause)
    ensures ExecuteAll(w, d, Intended(i.clause, i.path)).Some?
    ensures var s', d' := Link(w, s, i.clause, i.path).value, ExecuteAll(w, d, Intended(i.clause, i.path)).value;
            && s'.Keys == s.Keys + BoundBy(i.clause) && d'.Keys == d.Keys + BoundBy(i.clause) + TemporaryOf(i.clause)
            && (SameOn(s', d') <==> SameOn(s, d) && DefaultTruthy(w, i))
  {
    var path := i.path;
    LinkGrows(w, s, i);
    DefaultExecuted(w, d, name, path);
    DefaultNamedExecuted(w, d, name, braces, path);
    DefaultMirrored(w, s, d, name, path);
    var s1, d1 := LinkMember(w, s, name, path, "default").value, AfterDefault(w, d, name, path);
    assert d1.Keys - s1.Keys == d.Keys - s.Keys + {Temporary(name)} by {
      assert name !in d;
    }
    NamedMirrored(w, s1, d1, SpecifiersIn(braces), NamesIn(braces), path);
  }

  /** The temporaries in use belong to names that are bound already. */
  ghost predicate TemporariesOf(extra: set<string>, s: Environment) {
    forall t | t in extra :: exists n :: n in s && t == Temporary(n)
  }

  lemma TemporaryIsInjective(a: string, b: string)
    requires Temporary(a) == Temporary(b)
    ensures a == b
  {
    assert Temporary(a)[..|a|] == a && Temporary(b)[..|b|] == b;
  }

  predicate AllPlain(w: World, imports: seq<Import>, letters: char -> bool, ids: char -> bool) {
    forall k | 0 <= k < |imports| :: IsPlainImport(w, imports[k], letters, ids)
  }

  lemma AllPlainLater(w: World, imports: seq<Import>, letters: char -> bool, ids: char -> bool)
    requires AllPlain(w, imports, letters, ids) && imports != []
    ensures AllPlain(w, imports[1..], letters, ids) && IsPlainImport(w, imports[0], letters, ids)
    ensures AllRewritable(imports, letters) && AllRewritable(imports[1..], letters)
  {
    assert forall k | 0 <= k < |imports[1..]| :: imports[1..][k] == imports[k + 1];
  }

  /** The statements run from `d`, add the temporaries to what the imports bind, and agree with them
      exactly when `d` agrees with `s` and the defaults are truthy. */
  ghost predicate Mirrors(
    w: World, s: Environment, d: Environment, extra: set<string>, imports: seq<Import>, statements: seq<Statement>)
    requires LinkAll(w, s, imports).Some?
  {
    var all, got := LinkAll(w, s, imports).value, ExecuteAll(w, d, statements);
    && s.Keys <= all.Keys && s.Keys <= d.Keys
    && got.Some? && got.value.Keys == all.Keys + extra + Temporaries(imports)
    && (SameOn(all, got.value) <==> SameOn(s, d) && DefaultsTruthy(w, imports))
  }

  /** The static imports link from `s`, and the declared names are those of `s` and the temporaries of
      earlier imports. Unless a temporary is an imported name, the rewriting runs. */
  lemma {:induction false} ImportsMirrored(
    w: World, s: Environment, d: Environment, extra: set<string>, imports: seq<Import>, letters: char -> bool,
    ids: char -> bool)
    requires LinkAll(w, s, imports).Some? && AllPlain(w, imports, letters, ids)
    requires d.Keys == s.Keys + extra && TemporariesOf(extra, s)
    requires (extra + Temporaries(imports)) !! LinkAll(w, s, imports).value.Keys
    ensures AllRewritable(imports, letters)
    ensures Mirrors(w, s, d, extra, imports, IntendedAll(imports, letters))
    decreases imports
  {
    if imports != [] {
      var i, rest := imports[0], imports[1..];
      AllPlainLater(w, imports, letters, ids);
      FirstImportMirrored(w, s, d, extra, imports, letters, ids);
      var s', d' := Link(w, s, i.clause, i.path).value, ExecuteAll(w, d, IntendedOf(i, letters)).value;
      ImportsMirrored(w, s', d', extra + TemporaryOf(i.clause), rest, letters, ids);
      OneMoreMirrored(w, s, d, extra, imports, IntendedAll(rest, letters), letters);
    }
  }

  lemma OneMoreMirrored(
    w: World, s: Environment, d: Environment, extra: set<string>, imports: seq<Import>, statements: seq<Statement>,
    letters: char -> bool)
    requires imports != [] && LinkAll(w, s, imports).Some? && IsRewritable(imports[0].clause, letters)
    requires ExecuteAll(w, d, IntendedOf(imports[0], letters)).Some?
    requires var i := imports[0];
             var s', d' := Link(w, s, i.clause, i.path).value, ExecuteAll(w, d, IntendedOf(i, letters)).value;
             && s.Keys <= d.Keys && s'.Keys <= d'.Keys
             && Mirrors(w, s', d', extra + TemporaryOf(i.clause), imports[1..], statements)
             && (SameOn(s', d') <==> SameOn(s, d) && DefaultTruthy(w, i))
    ensures Mirrors(w, s, d, extra, imports, IntendedOf(imports[0], letters) + statements)
  {
    LinkGrows(w, s, imports[0]);
    ExecuteJoined(w, d, IntendedOf(imports[0], letters), statements);
    DefaultsTruthyCons(w, imports);
  }

  lemma FirstImportMirrored(
    w: World, s: Environment, d: Environment, extra: set<string>, imports: seq<Import>, letters: char -> bool,
    ids: char -> bool)
    requires imports != [] && LinkAll(w, s, imports).Some? && IsPlainImport(w, imports[0], letters, ids)
    requires d.Keys == s.Keys + extra && TemporariesOf(extra, s)
    requires (extra + Temporaries(imports)) !! LinkAll(w, s, imports).value.Keys
    ensures var i := imports[0];
            && Link(w, s, i.clause, i.path).Some? && ExecuteAll(w, d, IntendedOf(i, letters)).Some?
            && var s', d' := Link(w, s, i.clause, i.path).value, ExecuteAll(w, d, IntendedOf(i, letters)).value;
               && d'.Keys == s'.Keys + (extra + TemporaryOf(i.clause))
               && TemporariesOf(extra + TemporaryOf(i.clause), s')
               && LinkAll(w, s', imports[1..]) == LinkAll(w, s, imports)
               && (extra + TemporaryOf(i.clause) + Temporaries(imports[1..])) !! LinkAll(w, s, imports).value.Keys
               && (SameOn(s', d') <==> SameOn(s, d) && DefaultTruthy(w, i))
  {
    var i := imports[0];
    var s' := Link(w, s, i.clause, i.path).value;
    LinkGrows(w, s, i);
    LinkAllGrows(w, s', imports[1..]);
    NewTemporaryIsFree(s, extra, i.clause);
    ImportMirrored(w, s, d, i, letters, ids);
    TemporariesExtended(s, s', extra, i.clause);
  }

  lemma DefaultsTruthyCons(w: World, imports: seq<Import>)
    requires imports != []
    ensures DefaultsTruthy(w, imports) <==> DefaultTruthy(w, imports[0]) && DefaultsTruthy(w, imports[1..])
  {
    var rest := imports[1..];
    assert forall k | 0 <= k < |rest| :: rest[k] == imports[k + 1];
    assert forall k | 0 < k < |imports| :: imports[k] == rest[k - 1];
  }

  lemma TemporariesExtended(s: Environment, s': Environment, extra: set<string>, c: Clause)
    requires TemporariesOf(extra, s) && s'.Keys == s.Keys + BoundBy(c)
    ensures TemporariesOf(extra + TemporaryOf(c), s')
  {
    forall t | t in extra + TemporaryOf(c)
      ensures exists n :: n in s' && t == Temporary(n)
    {
      if t in extra {
        var n :| n in s && t == Temporary(n);
        assert n in s';
      } else {
        assert c.name in s' && t == Temporary(c.name);
      }
    }
  }

  lemma NewTemporaryIsFree(s: Environment, extra: set<string>, c: Clause)
    requires TemporariesOf(extra, s) && s.Keys !! BoundBy(c)
    ensures extra !! TemporaryOf(c)
  {
    if HasDefault(c) && Temporary(c.name) in extra {
      var n :| n in s && Temporary(c.name) == Temporary(n);
      TemporaryIsInjective(c.name, n);
    }
  }

  lemma {:induction false} LinkAllGrows(w: World, s: Environment, imports: seq<Import>)
    requires LinkAll(w, s, imports).Some?
    ensures LinkAll(w, s, imports).value.Keys == s.Keys + BoundByAll(imports) && s.Keys !! BoundByAll(imports)
    decreases imports
  {
    if imports != [] {
      LinkGrows(w, s, imports[0]);
      LinkAllGrows(w, Link(w, s, imports[0].clause, imports[0].path).value, imports[1..]);
    }
  }

  /** If the statements run, no name was declared twice. */
  lemma {:induction false} ExecutedNamesAreFree(
    w: World, d: Environment, imports: seq<Import>, letters: char -> bool, ids: char -> bool)
    requires AllImportsWellFormed(imports, ids) && AllRewritable(imports, letters)
    requires ExecuteAll(w, d, IntendedAll(imports, letters)).Some?
    ensures d.Keys !! BoundByAll(imports) !! Temporaries(imports)
    decreases imports
  {
    if imports != [] {
      var i, rest := imports[0], imports[1..];
      RewritableCons(imports, letters);
      WellFormedCons(imports, ids);
      ExecuteJoined(w, d, IntendedOf(i, letters), IntendedAll(rest, letters));
      ExecuteGrows(w, d, i, letters, ids);
      ExecutedNamesAreFree(w, ExecuteAll(w, d, IntendedOf(i, letters)).value, rest, letters, ids);
    }
  }

  /** Import rewriting keeps bindings. For any list of well-formed imports that link, from modules that are
      no thenables, the text that the string function writes runs exactly when every import can be
      rewritten and no imported name is the temporary of a default import; and then every imported name
      is bound to what the static import binds exactly when all default exports are truthy. */
  lemma RewritingKeepsBindings(w: World, imports: seq<Import>, letters: char -> bool, ids: char -> bool)
    requires AllImportsWellFormed(imports, ids) && LinkAll(w, map[], imports).Some? && NoneThenable(w, imports)
    ensures var bound := LinkAll(w, map[], imports).value;
            var executed := RunText(w, Emitted(imports, letters), ids);
            && (executed.Some? <==> AllRewritable(imports, letters) && Temporaries(imports) !! bound.Keys)
            && (executed.Some? ==>
                  && executed.value.Keys == bound.Keys + Temporaries(imports)
                  && (SameOn(bound, executed.value) <==> DefaultsTruthy(w, imports)))
  {
    var none: Environment := map[];
    EmittedIsRead(imports, letters, ids);
    LinkAllGrows(w, none, imports);
    if AllRewritable(imports, letters) {
      if ExecuteAll(w, none, IntendedAll(imports, letters)).Some? {
        ExecutedNamesAreFree(w, none, imports, letters, ids);
      }
      if Temporaries(imports) !! LinkAll(w, none, imports).value.Keys {
        ImportsMirrored(w, none, none, {}, imports, letters, ids);
      }
    }
  }

  // ---------------------------------------------------------------------------------------------
  // Imports that the rewriting breaks
  // ---------------------------------------------------------------------------------------------

  const ONE_SPACE := Layout("", " ", " ", " ")

  lemma OneEmitted(w: World, i: Import, letters: char -> bool, ids: char -> bool)
    requires IsWellFormed(i.clause, i.layout, ids) && '\'' !in i.path
    ensures LinkAll(w, map[], [i]) == Link(w, map[], i.clause, i.path)
    ensures Emitted([i], letters) == TransformStatement(ClauseText(i.clause, i.layout), i.path, letters)
    ensures ReadProgram(Emitted([i], letters), ids)
            == if IsRewritable(i.clause, letters) then Some(Intended(i.clause, i.path)) else None
  {
    assert [i][1..] == [] && Emitted([], letters) == "";
    EmittedIsRead([i], letters, ids);
    assert AllRewritable([i], letters) <==> IsRewritable(i.clause, letters);
    if IsRewritable(i.clause, letters) {
      assert IntendedAll([i], letters) == Intended(i.clause, i.path);
    }
  }

  /** One specifier in braces, with single spaces around `as`. */
  function Braced(specifier: Specifier, ids: char -> bool): (braces: Braces)
    requires specifier.IsWellFormed(ids)
    ensures SpecifiersIn(braces) == [specifier]
  {
    var item := Item("", specifier, " ", " ", "");
    assert ListText([], item.Text()) == item.Text();
    assert Listed([]) + [specifier] == [specifier];
    ListedSpecifiersAreRead([], item, "", ids);
    "{" + item.Text() + "}"
  }

  lemma OneMemberLinked(w: World, e: Environment, specifier: Specifier, path: string)
    requires path in w && specifier.Key() in w[path] && specifier.name !in e
    ensures LinkMembers(w, e, [specifier], path) == Some(e[specifier.name := w[path][specifier.Key()]])
  {
    assert [specifier][1..] == [];
  }

  /** An import that renames an export links but does not run when rewritten: `as` is copied into a pattern,
      where it is a syntax error. */
  lemma RenamingBreaksRewriting(
    w: World, key: string, name: string, path: string, letters: char -> bool, ids: char -> bool)
    requires IsIdentifier(key, ids) && IsIdentifier(name, ids) && '\'' !in path
    requires path in w && key in w[path]
    ensures var imports := [Import(Named(Braced(Renamed(key, name), ids)), ONE_SPACE, path)];
            && LinkAll(w, map[], imports) == Some(map[name := w[path][key]])
            && RunText(w, Emitted(imports, letters), ids).None?
  {
    var one := Import(Named(Braced(Renamed(key, name), ids)), ONE_SPACE, path);
    OneMemberLinked(w, map[], Renamed(key, name), path);
    OneEmitted(w, one, letters, ids);
    assert [Renamed(key, name)][0].Renamed?;
  }

  /** So does a default import next to a namespace import. */
  lemma DefaultNamespaceBreaksRewriting(
    w: World, name: string, space: string, path: string, letters: char -> bool, ids: char -> bool)
    requires IsIdentifier(name, ids) && IsIdentifier(space, ids) && name != space && '\'' !in path
    requires path in w && "default" in w[path]
    ensures var imports := [Import(DefaultNamespace(name, space), ONE_SPACE, path)];
            && LinkAll(w, map[], imports) == Some(map[name := w[path]["default"], space := ModuleObject(path)])
            && RunText(w, Emitted(imports, letters), ids).None?
  {
    var one := Import(DefaultNamespace(name, space), ONE_SPACE, path);
    OneEmitted(w, one, letters, ids);
  }

  /** A namespace import under any name with a dollar sign links but does not run when rewritten. */
  lemma DollarNamespaceBreaksRewriting(
    w: World, name: string, l: Layout, path: string, letters: char -> bool, ids: char -> bool)
    requires IsWellFormed(Namespace(name), l, ids) && '$' in name && path in w && '\'' !in path
    ensures var imports := [Import(Namespace(name), l, path)];
            && LinkAll(w, map[], imports) == Some(map[name := ModuleObject(path)])
            && "const *" <= Emitted(imports, letters)
            && RunText(w, Emitted(imports, letters), ids).None?
  {
    var one := Import(Namespace(name), l, path);
    assert !AllWord(name, letters);
    OneEmitted(w, one, letters, ids);
    UnmatchedNamespace(name, l, path, letters, ids);
    StarIsWritten(NamespaceClause(name, l), path);
  }

  lemma StarIsWritten(s: string, path: string)
    requires s != "" && s[0] == '*'
    ensures "const *" <= WrittenWithDefault(s, "", path)
  {
    var text := WrittenWithDefault(s, "", path);
    assert text[..6] == "const " && text[6] == s[0];
    assert text[..7] == text[..6] + [text[6]];
    assert "const *" == "const " + "*";
  }

  /** Next to the default import of any name, importing that name followed by `__mod` links but does not
      run when rewritten. */
  lemma ImportedTemporaryBreaksRewriting(
    w: World, name: string, path: string, letters: char -> bool, ids: char -> bool)
    requires IsIdentifier(name, ids) && IsIdentifier(Temporary(name), ids)
    requires '\'' !in path && !IsThenable(w, path)
    requires path in w && "default" in w[path] && Temporary(name) in w[path]
    ensures var imports := [Import(Default(name), ONE_SPACE, path),
                            Import(Named(Braced(Plain(Temporary(name)), ids)), ONE_SPACE, path)];
            LinkAll(w, map[], imports).Some? && RunText(w, Emitted(imports, letters), ids).None?
  {
    var one := Import(Default(name), ONE_SPACE, path);
    var two := Import(Named(Braced(Plain(Temporary(name)), ids)), ONE_SPACE, path);
    TemporaryIsLinked(w, one, two);
    RewritingKeepsBindings(w, [one, two], letters, ids);
  }

  lemma TemporaryIsLinked(w: World, one: Import, two: Import)
    requires one.clause.Default? && two.clause.Named? && one.path == two.path
    requires SpecifiersIn(two.clause.braces) == [Plain(Temporary(one.clause.name))]
    requires one.path in w && "default" in w[one.path] && Temporary(one.clause.name) in w[one.path]
    ensures LinkAll(w, map[], [one, two]).Some?
    ensures !(Temporaries([one, two]) !! LinkAll(w, map[], [one, two]).value.Keys)
  {
    var m, none: Environment := Temporary(one.clause.name), map[];
    var s := none[one.clause.name := w[one.path]["default"]];
    assert |m| > |one.clause.name|;
    OneMemberLinked(w, s, Plain(m), one.path);
    assert [one, two][1..] == [two] && [two][1..] == [];
    assert LinkAll(w, s, [two]) == Link(w, s, two.clause, one.path);
    assert m in LinkAll(w, none, [one, two]).value && m in Temporaries([one, two]);
  }

  /** Every other default export is what the rewritten import binds. */
  lemma OtherDefaultIsKept(w: World, name: string, path: string, letters: char -> bool, ids: char -> bool)
    requires IsIdentifier(name, ids) && '\'' !in path && !IsThenable(w, path)
    requires path in w && "default" in w[path] && !(w[path]["default"].Falsy? || w[path]["default"].Undefined?)
    ensures var imports := [Import(Default(name), ONE_SPACE, path)];
            RunText(w, Emitted(imports, letters), ids)
            == Some(map[Temporary(name) := ModuleObject(path), name := w[path]["default"]])
  {
    OneEmitted(w, Import(Default(name), ONE_SPACE, path), letters, ids);
    DefaultExecuted(w, map[], name, path);
  }

  /** A falsy default export is not what the rewritten import binds: it binds the module. */
  lemma FalsyDefaultIsReplaced(w: World, name: string, path: string, letters: char -> bool, ids: char -> bool)
    requires IsIdentifier(name, ids) && '\'' !in path && !IsThenable(w, path)
    requires path in w && "default" in w[path] && (w[path]["default"].Falsy? || w[path]["default"].Undefined?)
    ensures var imports := [Import(Default(name), ONE_SPACE, path)];
            && LinkAll(w, map[], imports) == Some(map[name := w[path]["default"]])
            && RunText(w, Emitted(imports, letters), ids)
               == Some(map[Temporary(name) := ModuleObject(path), name := ModuleObject(path)])
  {
    OneEmitted(w, Import(Default(name), ONE_SPACE, path), letters, ids);
    DefaultExecuted(w, map[], name, path);
  }
}
