/** String operations that the source takes from its standard libraries. */
module Text {
  import opened Wrappers

  const U32_RANGE: nat := 0x1_0000_0000

  type U32 = n: nat | n < U32_RANGE

  const U64_RANGE: nat := 0x1_0000_0000_0000_0000

  type U64 = n: nat | n < U64_RANGE

  lemma Associative<T>(a: seq<T>, b: seq<T>, c: seq<T>)
    ensures a + b + c == a + (b + c)
  {
  }

  // ---------------------------------------------------------------------------------------------
  // Trimming and splitting
  // ---------------------------------------------------------------------------------------------

  /** Characters that are white space to both Rust and JavaScript. */
  predicate IsCommonSpace(c: char) {
    || '\U{0009}' <= c <= '\U{000d}'
    || c in [' ', '\U{00a0}', '\U{1680}', '\U{2028}', '\U{2029}', '\U{202f}', '\U{205f}', '\U{3000}']
    || '\U{2000}' <= c <= '\U{200a}'
  }

  /** Rust: the Unicode property White_Space. */
  predicate IsSpace(c: char) {
    IsCommonSpace(c) || c == '\U{0085}'
  }

  /** JavaScript: section 12.2 and section 12.3 of ECMA-262. */
  predicate IsJsSpace(c: char) {
    IsCommonSpace(c) || c == '\U{feff}'
  }

  /** The 25 characters of each table, one by one: they differ in the control character NEL, which Rust has,
      and in the byte order mark, which JavaScript has. */
  lemma SpacesAre(c: char)
    ensures var common := ['\t', '\n', '\U{b}', '\U{c}', '\r', ' ', '\U{a0}', '\U{1680}', '\U{2028}', '\U{2029}',
                           '\U{202f}', '\U{205f}', '\U{3000}'];
            var spaces := ['\U{2000}', '\U{2001}', '\U{2002}', '\U{2003}', '\U{2004}', '\U{2005}', '\U{2006}',
                           '\U{2007}', '\U{2008}', '\U{2009}', '\U{200a}'];
            && (IsSpace(c) <==> c in common || c in spaces || c == '\U{85}')
            && (IsJsSpace(c) <==> c in common || c in spaces || c == '\U{feff}')
  {
    var spaces := ['\U{2000}', '\U{2001}', '\U{2002}', '\U{2003}', '\U{2004}', '\U{2005}', '\U{2006}',
                   '\U{2007}', '\U{2008}', '\U{2009}', '\U{200a}'];
    if '\U{2000}' <= c <= '\U{200a}' {
      assert spaces[c as int - 0x2000] == c;
    }
  }

  function TrimStart(s: string, space: char -> bool): string {
    if s != [] && space(s[0]) then TrimStart(s[1..], space) else s
  }

  function TrimEnd(s: string, space: char -> bool): string {
    if s != [] && space(s[|s| - 1]) then TrimEnd(s[..|s| - 1], space) else s
  }

  function Trim(s: string, space: char -> bool): string {
    TrimEnd(TrimStart(s, space), space)
  }

  lemma TrimOfTight(s: string, space: char -> bool)
    requires s != [] ==> !space(s[0]) && !space(s[|s| - 1])
    ensures Trim(s, space) == s
  {
  }

  predicate AllAre(s: string, space: char -> bool) {
    forall i | 0 <= i < |s| :: space(s[i])
  }

  lemma {:induction false} TrimStartPadded(pad: string, s: string, space: char -> bool)
    requires AllAre(pad, space)
    ensures TrimStart(pad + s, space) == TrimStart(s, space)
  {
    if pad == "" {
      assert pad + s == s;
    } else {
      TrimStartPadded(pad[1..], s, space);
      assert (pad + s)[1..] == pad[1..] + s;
    }
  }

  lemma {:induction false} TrimEndPadded(s: string, pad: string, space: char -> bool)
    requires AllAre(pad, space)
    ensures TrimEnd(s + pad, space) == TrimEnd(s, space)
    decreases |pad|
  {
    if pad == "" {
      assert s + pad == s;
    } else {
      TrimEndPadded(s, pad[..|pad| - 1], space);
      assert (s + pad)[..|s + pad| - 1] == s + pad[..|pad| - 1];
    }
  }

  lemma {:induction false} TrimStartThenPadded(s: string, pad: string, space: char -> bool)
    requires AllAre(pad, space)
    ensures Trim(s + pad, space) == Trim(s, space)
  {
    if s == "" {
      assert s + pad == pad && pad + "" == pad;
      TrimStartPadded(pad, "", space);
    } else if space(s[0]) {
      TrimStartThenPadded(s[1..], pad, space);
      assert (s + pad)[1..] == s[1..] + pad;
    } else {
      TrimEndPadded(s, pad, space);
    }
  }

  /** White space around a text makes no difference. */
  lemma TrimPadded(before: string, s: string, after: string, space: char -> bool)
    requires AllAre(before, space) && AllAre(after, space)
    ensures Trim(before + s + after, space) == Trim(s, space)
  {
    TrimStartThenPadded(before + s, after, space);
    TrimStartPadded(before, s, space);
  }

  /** All pieces between separators; a text without separator is one piece. */
  function Split(s: string, sep: char): (pieces: seq<string>)
    ensures |pieces| >= 1
  {
    if s == [] then [""]
    else
      var rest := Split(s[1..], sep);
      if s[0] == sep then [""] + rest else [[s[0]] + rest[0]] + rest[1..]
  }

  lemma {:induction false} SplitAtFirst(before: string, sep: char, after: string)
    requires sep !in before
    ensures Split(before + [sep] + after, sep) == [before] + Split(after, sep)
  {
    var s := before + [sep] + after;
    if before == [] {
      assert s[1..] == after;
    } else {
      SplitAtFirst(before[1..], sep, after);
      assert s[1..] == before[1..] + [sep] + after;
      assert [before[0]] + before[1..] == before;
    }
  }

  lemma {:induction false} SplitWithout(s: string, sep: char)
    requires sep !in s
    ensures Split(s, sep) == [s]
  {
    if s != [] {
      SplitWithout(s[1..], sep);
      assert [s[0]] + s[1..] == s;
    }
  }

  lemma {:induction false} PiecesHaveNoSeparator(s: string, sep: char)
    ensures forall i | 0 <= i < |Split(s, sep)| :: sep !in Split(s, sep)[i]
  {
    if s != [] {
      PiecesHaveNoSeparator(s[1..], sep);
      var rest := Split(s[1..], sep);
      forall i | 0 <= i < |Split(s, sep)|
        ensures sep !in Split(s, sep)[i]
      {
        if s[0] == sep {
          assert i > 0 ==> Split(s, sep)[i] == rest[i - 1];
        } else {
          assert i > 0 ==> Split(s, sep)[i] == rest[i];
        }
      }
    }
  }

  // ---------------------------------------------------------------------------------------------
  // Decimal numbers
  // ---------------------------------------------------------------------------------------------

  predicate IsDigit(c: char) {
    '0' <= c <= '9'
  }

  predicate AllDigits(s: string) {
    forall i | 0 <= i < |s| :: IsDigit(s[i])
  }

  function Decimal(n: nat): (s: string)
    ensures s != [] && AllDigits(s)
    decreases n
  {
    if n < 10 then [('0' as int + n) as char]
    else Decimal(n / 10) + [('0' as int + n % 10) as char]
  }

  function DecimalValue(s: string): nat
    requires AllDigits(s)
  {
    if s == [] then 0 else 10 * DecimalValue(s[..|s| - 1]) + (s[|s| - 1] as int - '0' as int)
  }

  lemma {:induction false} DecimalRoundTrip(n: nat)
    ensures DecimalValue(Decimal(n)) == n
    decreases n
  {
    if n >= 10 {
      DecimalRoundTrip(n / 10);
      assert Decimal(n)[..|Decimal(n)| - 1] == Decimal(n / 10);
    } else {
      assert Decimal(n)[..0] == [];
    }
  }

  /** `str::parse::<u32>`: an optional plus sign, then at least one digit, no overflow. */
  function ParseU32(s: string): Option<U32> {
    var digits := if s != [] && s[0] == '+' then s[1..] else s;
    if digits == [] || !AllDigits(digits) || DecimalValue(digits) >= U32_RANGE then None
    else Some(DecimalValue(digits))
  }

  lemma ParseU32OfDecimal(n: U32)
    ensures ParseU32(Decimal(n)) == Some(n)
  {
    DecimalRoundTrip(n);
    assert IsDigit(Decimal(n)[0]);
  }

  function Zeros(k: nat): (s: string)
    ensures |s| == k && forall i | 0 <= i < k :: s[i] == '0'
  {
    seq(k, _ => '0')
  }

  lemma {:induction false} ZerosAddNothing(k: nat, s: string)
    requires AllDigits(s)
    ensures AllDigits(Zeros(k) + s) && DecimalValue(Zeros(k) + s) == DecimalValue(s)
    decreases k + |s|
  {
    var t := Zeros(k) + s;
    if s != "" {
      ZerosAddNothing(k, s[..|s| - 1]);
      assert t[..|t| - 1] == Zeros(k) + s[..|s| - 1];
    } else if k > 0 {
      ZerosAddNothing(k - 1, s);
      assert t[..|t| - 1] == Zeros(k - 1) + s;
    }
  }

  /** Digits are leading zeros in front of a decimal number. */
  lemma {:induction false} DigitsAreDecimal(s: string)
    requires AllDigits(s) && s != ""
    ensures var d := Decimal(DecimalValue(s)); |d| <= |s| && s == Zeros(|s| - |d|) + d
    decreases |s|
  {
    var front, last := s[..|s| - 1], s[|s| - 1] as int - '0' as int;
    assert s == front + [s[|s| - 1]];
    if front == "" {
      assert s == Decimal(last);
    } else {
      DigitsAreDecimal(front);
      var n := DecimalValue(front);
      assert DecimalValue(s) / 10 == n && DecimalValue(s) % 10 == last;
      if n == 0 {
        assert Decimal(n) == "0" && Decimal(last) == [s[|s| - 1]];
        assert front == Zeros(|front| - 1) + "0" == Zeros(|front|);
      } else {
        assert Decimal(DecimalValue(s)) == Decimal(n) + [s[|s| - 1]];
      }
    }
  }

  /** The texts of a number: a plus sign and leading zeros are free. */
  function NumberText(plus: bool, zeros: nat, n: nat): string {
    (if plus then "+" else "") + (Zeros(zeros) + Decimal(n))
  }

  /** A text is read as a number exactly when it is one of its texts; larger numbers are not read. */
  lemma ParseU32IffNumberText(s: string, n: nat)
    ensures ParseU32(s) == Some(n)
            <==> n < U32_RANGE && exists plus: bool, zeros: nat :: s == NumberText(plus, zeros, n)
  {
    if ParseU32(s) == Some(n) {
      var digits := if s[0] == '+' then s[1..] else s;
      DigitsAreDecimal(digits);
      assert s == NumberText(s[0] == '+', |digits| - |Decimal(n)|, n);
    }
    forall plus: bool, zeros: nat | n < U32_RANGE && s == NumberText(plus, zeros, n)
      ensures ParseU32(s) == Some(n)
    {
      NumberTextIsRead(plus, zeros, n);
    }
  }

  lemma NumberTextIsRead(plus: bool, zeros: nat, n: nat)
    ensures ParseU32(NumberText(plus, zeros, n)) == if n < U32_RANGE then Some(n) else None
  {
    var digits, s := Zeros(zeros) + Decimal(n), NumberText(plus, zeros, n);
    ZerosAddNothing(zeros, Decimal(n));
    DecimalRoundTrip(n);
    assert IsDigit(digits[0]);
    if plus {
      assert s[0] == '+' && s[1..] == digits;
    } else {
      assert s == digits;
    }
  }
}
