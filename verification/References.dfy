/** Function names, function references and version references (`src/lambda/types.rs`,
`FunctionRegistry::validate_name`). */
module References {
  import opened Wrappers
  import opened Text
  import Utf8

  type FunctionId = nat

  datatype FunctionRef = Id(id: FunctionId) | Name(text: string)
  {
    /** The part before the first colon of a name reference. */
    function Base(): Option<string> {
      if Name? then Some(Split(text, ':')[0]) else None
    }

    /** The part between the first and the second colon of a name reference. */
    function Alias(): Option<string> {
      if Name? && |Split(text, ':')| > 1 then Some(Split(text, ':')[1]) else None
    }
  }

  datatype VersionRef = Latest | Number(n: U32) | Alias(name: string)

  // ---------------------------------------------------------------------------------------------
  // Names
  // ---------------------------------------------------------------------------------------------

  predicate IsAsciiAlphanumeric(c: char) {
    'a' <= c <= 'z' || 'A' <= c <= 'Z' || '0' <= c <= '9'
  }

  /** `char::is_alphanumeric`; the Unicode tables beyond ASCII are the parameter. */
  predicate IsAlphanumeric(c: char, beyondAscii: char -> bool) {
    IsAsciiAlphanumeric(c) || (c >= '\U{0080}' && beyondAscii(c))
  }

  function Utf8Length(s: string): nat {
    if s == [] then 0
    else (if s[0] < '\U{0080}' then 1 else if s[0] < '\U{0800}' then 2 else if s[0] as int < 0x10000 then 3 else 4)
         + Utf8Length(s[1..])
  }

  predicate IsValidName(name: string, beyondAscii: char -> bool) {
    && name != []
    && Utf8Length(name) <= 64
    && forall i | 0 <= i < |name| :: IsAlphanumeric(name[i], beyondAscii) || name[i] == '-' || name[i] == '_'
  }

  /** The limit counts the bytes of the encoded name. */
  lemma {:induction false} LengthCountsBytes(s: string)
    ensures Utf8Length(s) == |Utf8.EncodeText(s)|
  {
    if s != [] {
      LengthCountsBytes(s[1..]);
    }
  }

  /** A name of alphanumeric characters is valid as long as it takes no more than 64 bytes. */
  lemma LimitCountsBytes(s: string, beyondAscii: char -> bool)
    requires s != "" && forall i | 0 <= i < |s| :: IsAlphanumeric(s[i], beyondAscii)
    ensures IsValidName(s, beyondAscii) <==> |Utf8.EncodeText(s)| <= 64
  {
    LengthCountsBytes(s);
  }

  /** Of the characters of ASCII, exactly these make up names. */
  lemma AsciiNames(s: string, beyondAscii: char -> bool)
    requires forall i | 0 <= i < |s| :: s[i] < '\U{0080}'
    ensures IsValidName(s, beyondAscii)
            <==> 1 <= |s| <= 64
                 && forall c | c in s ::
                      c in "ABCDEFGHIJKLMNOPQRSTUVWXYZ" || c in "abcdefghijklmnopqrstuvwxyz" || c in "0123456789-_"
  {
    AsciiLength(s);
    forall c | c < '\U{0080}'
      ensures IsAsciiAlphanumeric(c) || c == '-' || c == '_'
              <==> c in "ABCDEFGHIJKLMNOPQRSTUVWXYZ" || c in "abcdefghijklmnopqrstuvwxyz" || c in "0123456789-_"
    {
      InAlphabet(c);
    }
  }

  lemma InAlphabet(c: char)
    ensures 'A' <= c <= 'Z' <==> c in "ABCDEFGHIJKLMNOPQRSTUVWXYZ"
    ensures 'a' <= c <= 'z' <==> c in "abcdefghijklmnopqrstuvwxyz"
    ensures '0' <= c <= '9' || c == '-' || c == '_' <==> c in "0123456789-_"
  {
    InUpperCase(c);
    InLowerCase(c);
    InOthers(c);
  }

  lemma InUpperCase(c: char)
    ensures 'A' <= c <= 'Z' <==> c in "ABCDEFGHIJKLMNOPQRSTUVWXYZ"
  {
    var letters := "ABCDEFGHIJKLMNOPQRSTUVWXYZ";
    if 'A' <= c <= 'Z' {
      assert letters[c as int - 'A' as int] == c;
    }
  }

  lemma InLowerCase(c: char)
    ensures 'a' <= c <= 'z' <==> c in "abcdefghijklmnopqrstuvwxyz"
  {
    var letters := "abcdefghijklmnopqrstuvwxyz";
    if 'a' <= c <= 'z' {
      assert letters[c as int - 'a' as int] == c;
    }
  }

  lemma InOthers(c: char)
    ensures '0' <= c <= '9' || c == '-' || c == '_' <==> c in "0123456789-_"
  {
    var others := "0123456789-_";
    if '0' <= c <= '9' {
      assert others[c as int - '0' as int] == c;
    }
    assert others[10] == '-' && others[11] == '_';
  }

  // ---------------------------------------------------------------------------------------------
  // `Uuid::parse_str`: the four textual forms of the uuid crate
  // ---------------------------------------------------------------------------------------------

  predicate IsHex(c: char) {
    '0' <= c <= '9' || 'a' <= c <= 'f' || 'A' <= c <= 'F'
  }

  predicate AllHex(s: string) {
    forall i | 0 <= i < |s| :: IsHex(s[i])
  }

  function HexValue(s: string): nat
    requires AllHex(s)
  {
    if s == [] then 0
    else
      var c := s[|s| - 1];
      var digit := if c <= '9' then c as int - '0' as int
                   else if c <= 'F' then c as int - 'A' as int + 10 else c as int - 'a' as int + 10;
      16 * HexValue(s[..|s| - 1]) + digit
  }

  function ParseHyphenated(s: string): Option<FunctionId>
    requires |s| == 36
  {
    var hex := s[..8] + s[9..13] + s[14..18] + s[19..23] + s[24..];
    if s[8] == '-' && s[13] == '-' && s[18] == '-' && s[23] == '-' && AllHex(hex) then Some(HexValue(hex))
    else None
  }

  function ParseUuid(s: string): Option<FunctionId> {
    if |s| == 32 && AllHex(s) then Some(HexValue(s))
    else if |s| == 36 then ParseHyphenated(s)
    else if |s| == 38 && s[0] == '{' && s[37] == '}' then ParseHyphenated(s[1..37])
    else if |s| == 45 && s[..9] == "urn:uuid:" then ParseHyphenated(s[9..])
    else None
  }

  function ParseRef(s: string): FunctionRef {
    match ParseUuid(s)
    case Some(id) => Id(id)
    case None => Name(s)
  }

  // ---------------------------------------------------------------------------------------------
  // Round trips of function references
  // ---------------------------------------------------------------------------------------------

  /** A valid name refers to the function of that name exactly when it does not happen to have a
      textual form of a UUID; both of the forms below are valid names. */
  lemma BareNameRoundTrip(name: string, beyondAscii: char -> bool)
    requires IsValidName(name, beyondAscii)
    ensures ParseRef(name).Base() == Some(name) && ParseRef(name).Alias() == None
            <==> ParseUuid(name).None?
    ensures ParseUuid(name).Some? ==> |name| == 32 || |name| == 36
  {
    assert ':' !in name;
    SplitWithout(name, ':');
    if |name| == 45 {
      assert name[3] == name[..9][3];
    }
  }

  /** The exception is not empty: every hexadecimal and every hyphenated UUID is a valid name. */
  lemma UuidTextsAreValidNames(s: string, beyondAscii: char -> bool)
    requires (|s| == 32 || |s| == 36) && ParseUuid(s).Some?
    ensures IsValidName(s, beyondAscii) && ParseRef(s).Id?
  {
    if |s| == 36 {
      HyphenatedCharacters(s);
    }
    AsciiLength(s);
  }

  lemma {:induction false} AsciiLength(s: string)
    requires forall i | 0 <= i < |s| :: s[i] < '\U{0080}'
    ensures Utf8Length(s) == |s|
  {
    if s != [] {
      AsciiLength(s[1..]);
    }
  }

  /** A valid name, a colon and an alias parse back to that pair exactly when the alias has no
      colon of its own. In particular such a text never reads as a UUID. */
  lemma NameAliasRoundTrip(name: string, alias: string, beyondAscii: char -> bool)
    requires IsValidName(name, beyondAscii)
    ensures ':' !in alias <==>
            var r := ParseRef(name + ":" + alias); r.Base() == Some(name) && r.Alias() == Some(alias)
  {
    var s := name + ":" + alias;
    var r := ParseRef(s);
    assert ':' !in name;
    assert ":" == [':'];
    SplitAtFirst(name, ':', alias);
    if ':' in alias {
      PiecesHaveNoSeparator(alias, ':');
      assert r.Name? ==> r.Alias() == Some(Split(alias, ':')[0]);
    } else {
      SplitWithout(alias, ':');
      NotAUuid(name, alias, beyondAscii);
    }
  }

  /** Of a text with more than one colon the first two parts are taken and the others are ignored, unless the
      text is the URN of a UUID. */
  lemma FurtherPartsAreIgnored(name: string, alias: string, rest: string)
    requires ':' !in name && ':' !in alias
    ensures var s := name + ":" + alias + ":" + rest;
            var r := ParseRef(s);
            r.Base() == Some(name) && r.Alias() == Some(alias) <==> ParseUuid(s).None?
  {
    var s := name + ":" + alias + ":" + rest;
    assert s == name + [':'] + (alias + [':'] + rest);
    SplitAtFirst(name, ':', alias + [':'] + rest);
    SplitAtFirst(alias, ':', rest);
  }

  lemma NotAUuid(name: string, alias: string, beyondAscii: char -> bool)
    requires IsValidName(name, beyondAscii) && ':' !in alias
    ensures ParseUuid(name + ":" + alias) == None
  {
    var s := name + ":" + alias;
    assert s[|name|] == ':' && s[0] == name[0];
    if |s| == 36 {
      if ParseHyphenated(s).Some? {
        HyphenatedCharacters(s);
      }
    } else if |s| == 45 {
      assert s[3] == s[..9][3] && s[8] == s[..9][8];
    }
  }

  lemma HyphenatedCharacters(s: string)
    requires |s| == 36 && ParseHyphenated(s).Some?
    ensures forall i | 0 <= i < 36 :: IsHex(s[i]) || s[i] == '-'
  {
    var hex := s[..8] + s[9..13] + s[14..18] + s[19..23] + s[24..];
    forall i | 0 <= i < 36
      ensures IsHex(s[i]) || s[i] == '-'
    {
      if i < 8 { assert s[i] == hex[i]; }
      else if 9 <= i < 13 { assert s[i] == hex[i - 1]; }
      else if 14 <= i < 18 { assert s[i] == hex[i - 2]; }
      else if 19 <= i < 23 { assert s[i] == hex[i - 3]; }
      else if 24 <= i { assert s[i] == hex[i - 4]; }
    }
  }

  // ---------------------------------------------------------------------------------------------
  // Round trip of UUIDs
  // ---------------------------------------------------------------------------------------------

  function Power16(n: nat): nat {
    if n == 0 then 1 else 16 * Power16(n - 1)
  }

  /** The last `width` hexadecimal digits of a number. */
  function HexText(n: nat, width: nat, isUpper: bool): (s: string)
    ensures |s| == width
    decreases width
  {
    if width == 0 then ""
    else HexText(n / 16, width - 1, isUpper)
         + [(if isUpper then "0123456789ABCDEF" else "0123456789abcdef")[n % 16]]
  }

  lemma {:induction false} HexRoundTrip(n: nat, width: nat, isUpper: bool)
    requires n < Power16(width)
    ensures var s := HexText(n, width, isUpper); AllHex(s) && HexValue(s) == n
    decreases width
  {
    if width > 0 {
      HexRoundTrip(n / 16, width - 1, isUpper);
      var s := HexText(n, width, isUpper);
      assert s[..|s| - 1] == HexText(n / 16, width - 1, isUpper);
      HexDigit(n % 16, isUpper);
    }
  }

  lemma HexDigit(d: nat, isUpper: bool)
    requires d < 16
    ensures var c := (if isUpper then "0123456789ABCDEF" else "0123456789abcdef")[d];
            IsHex(c) && d == if c <= '9' then c as int - '0' as int
                             else if c <= 'F' then c as int - 'A' as int + 10 else c as int - 'a' as int + 10
  {
  }

  /** The groups of 8, 4, 4, 4 and 12 digits. */
  function Hyphenated(hex: string): string
    requires |hex| == 32
  {
    hex[..8] + "-" + hex[8..12] + "-" + hex[12..16] + "-" + hex[16..20] + "-" + hex[20..]
  }

  lemma HyphenatedIsRead(hex: string)
    requires |hex| == 32 && AllHex(hex)
    ensures |Hyphenated(hex)| == 36 && ParseHyphenated(Hyphenated(hex)) == Some(HexValue(hex))
  {
    var s := Hyphenated(hex);
    assert s[..8] == hex[..8] && s[9..13] == hex[8..12] && s[14..18] == hex[12..16];
    assert s[19..23] == hex[16..20] && s[24..] == hex[20..];
    assert hex == s[..8] + s[9..13] + s[14..18] + s[19..23] + s[24..];
  }

  /** Each of the textual forms of a UUID, in small and in large letters, refers to the function with that id
      and no other. */
  lemma UuidRoundTrip(id: FunctionId, isUpper: bool)
    requires id < Power16(32)
    ensures var hex := HexText(id, 32, isUpper);
            && ParseRef(hex) == Id(id) && ParseRef(Hyphenated(hex)) == Id(id)
            && ParseRef("{" + Hyphenated(hex) + "}") == Id(id) && ParseRef("urn:uuid:" + Hyphenated(hex)) == Id(id)
  {
    var hex := HexText(id, 32, isUpper);
    HexRoundTrip(id, 32, isUpper);
    HyphenatedIsRead(hex);
    BracedIsRead(Hyphenated(hex));
    UrnIsRead(Hyphenated(hex));
  }

  lemma BracedIsRead(s: string)
    requires |s| == 36
    ensures ParseUuid("{" + s + "}") == ParseHyphenated(s)
  {
    var braced := "{" + s + "}";
    assert braced[1..37] == s && braced[0] == '{' && braced[37] == '}';
  }

  lemma UrnIsRead(s: string)
    requires |s| == 36
    ensures ParseUuid("urn:uuid:" + s) == ParseHyphenated(s)
  {
    var urn := "urn:uuid:" + s;
    assert urn[9..] == s && urn[..9] == "urn:uuid:";
  }

  /** Texts of the same length with the same value are spelled alike but for the size of letters. */
  lemma {:induction false} HexTextOfValue(s: string)
    requires AllHex(s)
    ensures HexValue(s) < Power16(|s|)
    ensures forall i | 0 <= i < |s| :: s[i] == HexText(HexValue(s), |s|, false)[i]
                                       || s[i] == HexText(HexValue(s), |s|, true)[i]
    decreases |s|
  {
    if s != "" {
      var front := s[..|s| - 1];
      HexTextOfValue(front);
      var digit := HexValue(s) - 16 * HexValue(front);
      assert 0 <= digit < 16 && HexValue(s) / 16 == HexValue(front) && HexValue(s) % 16 == digit;
      forall i | 0 <= i < |front|
        ensures s[i] == HexText(HexValue(s), |s|, false)[i] || s[i] == HexText(HexValue(s), |s|, true)[i]
      {
        assert s[i] == front[i];
      }
      HexDigitIs(s[|s| - 1], digit);
    }
  }

  lemma HexDigitIs(c: char, digit: nat)
    requires IsHex(c)
    requires digit == if c <= '9' then c as int - '0' as int
                      else if c <= 'F' then c as int - 'A' as int + 10 else c as int - 'a' as int + 10
    ensures digit < 16 && (c == "0123456789abcdef"[digit] || c == "0123456789ABCDEF"[digit])
  {
  }

  /** A text of the plain form refers to an id exactly when it spells that id. */
  lemma ReferredIdIsSpelled(s: string)
    requires |s| == 32 && ParseRef(s).Id?
    ensures var id := ParseRef(s).id;
            && id < Power16(32)
            && forall i | 0 <= i < 32 :: s[i] == HexText(id, 32, false)[i] || s[i] == HexText(id, 32, true)[i]
  {
    HexTextOfValue(s);
  }

  // ---------------------------------------------------------------------------------------------
  // Round trip of version references
  // ---------------------------------------------------------------------------------------------

  function PrintVersionRef(v: VersionRef): string {
    match v
    case Latest => "$LATEST"
    case Number(n) => Decimal(n)
    case Alias(a) => a
  }

  function ParseVersionRef(s: string): VersionRef {
    if s == "$LATEST" || s == "" then Latest
    else
      match ParseU32(s)
      case Some(n) => Number(n)
      case None => Alias(s)
  }

  /** Printing then reading is the identity except on aliases that read as something else. */
  lemma VersionRefRoundTrip(v: VersionRef)
    ensures ParseVersionRef(PrintVersionRef(v)) == v
            <==> !(v.Alias? && (v.name == "" || v.name == "$LATEST" || ParseU32(v.name).Some?))
  {
    if v.Number? {
      ParseU32OfDecimal(v.n);
      assert IsDigit(Decimal(v.n)[0]) && "$LATEST"[0] == '$';
    }
  }

  /** The texts that read as a version number are its decimal digits, with a plus sign and leading zeros or
      without. */
  lemma NumberIsReadIffSpelled(s: string, n: U32)
    ensures ParseVersionRef(s) == Number(n) <==> exists plus: bool, zeros: nat :: s == NumberText(plus, zeros, n)
  {
    ParseU32IffNumberText(s, n);
    if s == "$LATEST" {
      assert !IsDigit(s[0]) && s[0] != '+';
    }
  }

  /** Reading then printing: canonical texts are kept, and every text keeps its meaning. */
  lemma PrintedReferenceReadsTheSame(s: string)
    ensures ParseVersionRef(PrintVersionRef(ParseVersionRef(s))) == ParseVersionRef(s)
  {
    VersionRefRoundTrip(ParseVersionRef(s));
  }
}
