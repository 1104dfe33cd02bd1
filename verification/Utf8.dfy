/** UTF-8 (RFC 3629) and the lossy decoding that the stream readers apply to each chunk alone. */
module Utf8 {

  type Byte = b: nat | b < 256

  const REPLACEMENT: char := '\U{FFFD}'

  function Encode(c: char): (bytes: seq<Byte>)
    ensures 1 <= |bytes| <= 4
  {
    var n := c as int;
    if n < 0x80 then [n]
    else if n < 0x800 then [0xC0 + n / 64, 0x80 + n % 64]
    else if n < 0x10000 then [0xE0 + n / 4096, 0x80 + n / 64 % 64, 0x80 + n % 64]
    else [0xF0 + n / 262144, 0x80 + n / 4096 % 64, 0x80 + n / 64 % 64, 0x80 + n % 64]
  }

  function EncodeText(s: string): seq<Byte> {
    if s == [] then [] else Encode(s[0]) + EncodeText(s[1..])
  }

  /** A continuation byte; the other bytes start a character. */
  predicate IsTail(b: Byte) {
    0x80 <= b < 0xC0
  }

  predicate IsSecond(first: Byte, second: Byte) {
    if first == 0xE0 then 0xA0 <= second < 0xC0
    else if first == 0xED then 0x80 <= second < 0xA0
    else if first == 0xF0 then 0x90 <= second < 0xC0
    else if first == 0xF4 then 0x80 <= second < 0x90
    else IsTail(second)
  }

  function At(bytes: seq<Byte>, i: nat): Byte {
    if i < |bytes| then bytes[i] else 0
  }

  /** The first character, or a replacement for the longest prefix that could have become one. */
  function DecodeFirst(bytes: seq<Byte>): (r: (char, nat))
    requires bytes != []
    ensures 1 <= r.1 <= |bytes|
    ensures forall i | 1 <= i < r.1 :: IsTail(bytes[i])
  {
    var a, b, c, d := bytes[0], At(bytes, 1), At(bytes, 2), At(bytes, 3);
    if a < 0x80 then (a as char, 1)
    else if 0xC2 <= a < 0xE0 then
      if !IsTail(b) then (REPLACEMENT, 1) else (((a - 0xC0) * 64 + (b - 0x80)) as char, 2)
    else if 0xE0 <= a < 0xF0 then
      if !IsSecond(a, b) then (REPLACEMENT, 1)
      else if !IsTail(c) then (REPLACEMENT, 2)
      else (((a - 0xE0) * 4096 + (b - 0x80) * 64 + (c - 0x80)) as char, 3)
    else if 0xF0 <= a < 0xF5 then
      if !IsSecond(a, b) then (REPLACEMENT, 1)
      else if !IsTail(c) then (REPLACEMENT, 2)
      else if !IsTail(d) then (REPLACEMENT, 3)
      else (((a - 0xF0) * 262144 + (b - 0x80) * 4096 + (c - 0x80) * 64 + (d - 0x80)) as char, 4)
    else (REPLACEMENT, 1)
  }

  /** `String::from_utf8_lossy`. */
  function Lossy(bytes: seq<Byte>): string {
    if bytes == [] then ""
    else [DecodeFirst(bytes).0] + Lossy(bytes[DecodeFirst(bytes).1..])
  }

  function Joined<T>(parts: seq<seq<T>>): seq<T> {
    if parts == [] then [] else parts[0] + Joined(parts[1..])
  }

  /** The text the stream readers build up: every chunk is decoded alone. */
  function LossyChunks(chunks: seq<seq<Byte>>): string {
    if chunks == [] then "" else Lossy(chunks[0]) + LossyChunks(chunks[1..])
  }

  // ---------------------------------------------------------------------------------------------
  // Decoding inverts encoding
  // ---------------------------------------------------------------------------------------------

  lemma EncodedCharacterIsDecoded(c: char, rest: seq<Byte>)
    ensures DecodeFirst(Encode(c) + rest) == (c, |Encode(c)|)
  {
    var n := c as int;
    if n < 0x800 {
      ShortCharacterIsDecoded(c, rest);
    } else if n < 0x10000 {
      ThreeBytesAreDecoded(c, rest);
    } else {
      FourBytesAreDecoded(c, rest);
    }
  }

  lemma ShortCharacterIsDecoded(c: char, rest: seq<Byte>)
    requires c as int < 0x800
    ensures DecodeFirst(Encode(c) + rest) == (c, |Encode(c)|)
  {
    var s := Encode(c) + rest;
    assert forall i | 0 <= i < |Encode(c)| :: At(s, i) == Encode(c)[i];
  }

  lemma ThreeBytesAreDecoded(c: char, rest: seq<Byte>)
    requires 0x800 <= c as int < 0x10000
    ensures DecodeFirst(Encode(c) + rest) == (c, |Encode(c)|)
  {
    var n, s := c as int, Encode(c) + rest;
    assert forall i | 0 <= i < |Encode(c)| :: At(s, i) == Encode(c)[i];
    var a, b, d := n / 4096, n / 64 % 64, n % 64;
    assert n == a * 4096 + b * 64 + d;
    assert IsSecond(0xE0 + a, 0x80 + b);
  }

  lemma FourBytesAreDecoded(c: char, rest: seq<Byte>)
    requires 0x10000 <= c as int
    ensures DecodeFirst(Encode(c) + rest) == (c, |Encode(c)|)
  {
    var n := c as int;
    var b, d, e := n / 4096 % 64, n / 64 % 64, n % 64;
    FourDigits(n);
    FourDigitsAreDecoded(n / 262144, b, d, e, rest);
  }

  lemma FourDigits(n: nat)
    requires 0x10000 <= n < 0x110000
    ensures n == n / 262144 * 262144 + n / 4096 % 64 * 4096 + n / 64 % 64 * 64 + n % 64
    ensures IsSecond(0xF0 + n / 262144, 0x80 + n / 4096 % 64)
  {
    assert n / 4096 == n / 262144 * 64 + n / 4096 % 64;
    assert n / 64 == n / 4096 * 64 + n / 64 % 64;
  }

  lemma FourDigitsAreDecoded(a: nat, b: nat, d: nat, e: nat, rest: seq<Byte>)
    requires a < 5 && b < 64 && d < 64 && e < 64 && IsSecond(0xF0 + a, 0x80 + b)
    requires 0x10000 <= a * 262144 + b * 4096 + d * 64 + e < 0x110000
    ensures DecodeFirst([0xF0 + a, 0x80 + b, 0x80 + d, 0x80 + e] + rest)
            == ((a * 262144 + b * 4096 + d * 64 + e) as char, 4)
  {
    var s := [0xF0 + a, 0x80 + b, 0x80 + d, 0x80 + e] + rest;
    assert s[0] == 0xF0 + a && At(s, 1) == 0x80 + b && At(s, 2) == 0x80 + d && At(s, 3) == 0x80 + e;
  }

  lemma {:induction false} LossyOfEncoded(s: string, rest: seq<Byte>)
    ensures Lossy(EncodeText(s) + rest) == s + Lossy(rest)
  {
    if s == [] {
      assert EncodeText(s) + rest == rest;
    } else {
      LossyOfEncoded(s[1..], rest);
      EncodedCons(s, rest);
      LossyOfCharacter(s[0], EncodeText(s[1..]) + rest);
      ConsAppended(s, Lossy(rest));
    }
  }

  lemma EncodedCons(s: string, rest: seq<Byte>)
    requires s != []
    ensures EncodeText(s) + rest == Encode(s[0]) + (EncodeText(s[1..]) + rest)
  {
  }

  lemma ConsAppended<T>(s: seq<T>, rest: seq<T>)
    requires s != []
    ensures [s[0]] + (s[1..] + rest) == s + rest
  {
  }

  lemma LossyOfCharacter(c: char, rest: seq<Byte>)
    ensures Lossy(Encode(c) + rest) == [c] + Lossy(rest)
  {
    EncodedCharacterIsDecoded(c, rest);
    assert (Encode(c) + rest)[|Encode(c)|..] == rest;
  }

  /** A byte that is no character by itself, decoded alone. */
  lemma LoneByteIsReplaced(b: Byte)
    requires b >= 0x80
    ensures Lossy([b]) == [REPLACEMENT]
  {
    assert DecodeFirst([b]) == (REPLACEMENT, 1);
    assert [b][1..] == [];
  }

  // ---------------------------------------------------------------------------------------------
  // What is no encoding is replaced as section 3.9 of the Unicode standard recommends
  // ---------------------------------------------------------------------------------------------

  ghost predicate StartsWithCharacter(bytes: seq<Byte>) {
    exists c: char :: Encode(c) <= bytes
  }

  ghost predicate CanBecomeCharacter(bytes: seq<Byte>) {
    exists c: char :: bytes <= Encode(c)
  }

  /** The first bytes of an encoding tell its length and what may follow. */
  lemma EncodedShape(c: char)
    ensures var e := Encode(c);
            && (forall i | 1 <= i < |e| :: IsTail(e[i]))
            && (|e| == 1 <==> e[0] < 0x80) && (|e| == 2 <==> 0xC2 <= e[0] < 0xE0)
            && (|e| == 3 <==> 0xE0 <= e[0] < 0xF0) && (|e| == 4 <==> 0xF0 <= e[0] < 0xF5)
            && (|e| >= 2 ==> IsSecond(e[0], e[1]))
  {
    var n := c as int;
    if n >= 0x10000 {
      FourDigits(n);
    } else if n >= 0x800 {
      assert n == n / 4096 * 4096 + n / 64 % 64 * 64 + n % 64;
      assert n / 64 == n / 4096 * 64 + n / 64 % 64;
    }
  }

  lemma TwoOfThree(a: Byte, b: Byte)
    requires 0xE0 <= a < 0xF0 && IsSecond(a, b)
    ensures CanBecomeCharacter([a, b])
  {
    var n := (a - 0xE0) * 4096 + (b - 0x80) * 64;
    assert 0x800 <= n < 0x10000 && !(0xD800 <= n < 0xE000);
    assert n / 4096 == a - 0xE0 && n / 64 % 64 == b - 0x80;
    assert Encode(n as char)[..2] == [a, b];
  }

  lemma ThreeOfFour(a: Byte, b: Byte, c: Byte)
    requires 0xF0 <= a < 0xF5 && IsSecond(a, b) && IsTail(c)
    ensures CanBecomeCharacter([a, b, c])
  {
    var n := (a - 0xF0) * 262144 + (b - 0x80) * 4096 + (c - 0x80) * 64;
    assert 0x10000 <= n < 0x110000;
    var x: int, y: int, z: int := a - 0xF0, b - 0x80, c - 0x80;
    DigitsAre(x, y, z, 0);
    assert Encode(n as char)[..3] == [a, b, c];
  }

  lemma ShorterCanBecome(bytes: seq<Byte>, n: nat)
    requires CanBecomeCharacter(bytes) && n <= |bytes|
    ensures CanBecomeCharacter(bytes[..n])
  {
    var c: char :| bytes <= Encode(c);
    assert bytes[..n] <= Encode(c);
  }

  /** Bytes are decoded exactly when they start with an encoded character: no overlong forms, no surrogates,
      nothing above U+10FFFF. */
  lemma DecodedIffEncoded(bytes: seq<Byte>)
    requires bytes != []
    ensures var (c, n) := DecodeFirst(bytes);
            if StartsWithCharacter(bytes) then Encode(c) == bytes[..n] else c == REPLACEMENT && Encode(c) != bytes[..n]
  {
    var (c, n) := DecodeFirst(bytes);
    if StartsWithCharacter(bytes) {
      var c': char :| Encode(c') <= bytes;
      EncodedCharacterIsDecoded(c', bytes[|Encode(c')|..]);
      assert bytes == Encode(c') + bytes[|Encode(c')|..];
    } else {
      assert Encode(c) == bytes[..n] ==> Encode(c) <= bytes;
      if c != REPLACEMENT {
        NotReplacedIsEncoded(bytes);
      }
    }
  }

  lemma NotReplacedIsEncoded(bytes: seq<Byte>)
    requires bytes != [] && DecodeFirst(bytes).0 != REPLACEMENT
    ensures Encode(DecodeFirst(bytes).0) <= bytes
  {
    var (c, n) := DecodeFirst(bytes);
    if n == 4 {
      FourAreEncoded(bytes);
    } else if n == 3 {
      ThreeAreEncoded(bytes);
    } else if n == 2 {
      assert Encode(c) == [bytes[0], bytes[1]];
    }
  }

  lemma ThreeAreEncoded(bytes: seq<Byte>)
    requires bytes != [] && DecodeFirst(bytes).1 == 3 && DecodeFirst(bytes).0 != REPLACEMENT
    ensures Encode(DecodeFirst(bytes).0) <= bytes
  {
    var c, n := DecodeFirst(bytes).0, DecodeFirst(bytes).0 as int;
    assert n / 4096 == bytes[0] - 0xE0 && n / 64 % 64 == bytes[1] - 0x80 && n % 64 == bytes[2] - 0x80;
    assert Encode(c) == [bytes[0], bytes[1], bytes[2]];
  }

  lemma DigitsAre(a: nat, b: nat, d: nat, e: nat)
    requires b < 64 && d < 64 && e < 64
    ensures var n := a * 262144 + b * 4096 + d * 64 + e;
            n / 262144 == a && n / 4096 % 64 == b && n / 64 % 64 == d && n % 64 == e
  {
    var n := a * 262144 + b * 4096 + d * 64 + e;
    assert n / 64 == a * 4096 + b * 64 + d;
    assert n / 4096 == a * 64 + b;
  }

  lemma FourAreEncoded(bytes: seq<Byte>)
    requires bytes != [] && DecodeFirst(bytes).1 == 4
    ensures Encode(DecodeFirst(bytes).0) <= bytes
  {
    var a: int, b: int, d: int, e: int := bytes[0] - 0xF0, bytes[1] - 0x80, bytes[2] - 0x80, bytes[3] - 0x80;
    var c := DecodeFirst(bytes).0;
    assert c as int == a * 262144 + b * 4096 + d * 64 + e >= 0x10000;
    DigitsAre(a, b, d, e);
    assert Encode(c) == [bytes[0], bytes[1], bytes[2], bytes[3]];
  }

  /** Where no encoded character starts, one replacement stands for the longest prefix that can still become
      a character, or for a single byte if there is no such prefix. */
  lemma ReplacedIsLongestPrefix(bytes: seq<Byte>)
    requires bytes != [] && !StartsWithCharacter(bytes)
    ensures var n := DecodeFirst(bytes).1;
            && DecodeFirst(bytes).0 == REPLACEMENT
            && (n > 1 ==> CanBecomeCharacter(bytes[..n]))
            && (n < |bytes| ==> !CanBecomeCharacter(bytes[..n + 1]))
  {
    DecodedIffEncoded(bytes);
    ReplacedCanBecome(bytes);
    if DecodeFirst(bytes).1 < |bytes| {
      ReplacedIsMaximal(bytes);
    }
  }

  lemma ReplacedCanBecome(bytes: seq<Byte>)
    requires bytes != [] && DecodeFirst(bytes).0 == REPLACEMENT && Encode(REPLACEMENT) != bytes[..DecodeFirst(bytes).1]
    ensures var n := DecodeFirst(bytes).1; n > 1 ==> CanBecomeCharacter(bytes[..n])
  {
    var n := DecodeFirst(bytes).1;
    if n == 2 && bytes[0] < 0xF0 {
      TwoOfThree(bytes[0], bytes[1]);
      assert bytes[..2] == [bytes[0], bytes[1]];
    } else if n == 2 {
      ThreeOfFour(bytes[0], bytes[1], 0x80);
      ShorterCanBecome([bytes[0], bytes[1], 0x80], 2);
      assert bytes[..2] == [bytes[0], bytes[1], 0x80][..2];
    } else if n == 3 && bytes[0] >= 0xF0 {
      ThreeOfFour(bytes[0], bytes[1], bytes[2]);
      assert bytes[..3] == [bytes[0], bytes[1], bytes[2]];
    }
  }

  lemma ReplacedIsMaximal(bytes: seq<Byte>)
    requires bytes != [] && !StartsWithCharacter(bytes) && DecodeFirst(bytes).1 < |bytes|
    requires DecodeFirst(bytes).0 == REPLACEMENT
    ensures !CanBecomeCharacter(bytes[..DecodeFirst(bytes).1 + 1])
  {
    var n := DecodeFirst(bytes).1;
    forall c: char | bytes[..n + 1] <= Encode(c)
      ensures false
    {
      EncodedShape(c);
      assert forall i | 0 <= i <= n :: bytes[i] == Encode(c)[i];
    }
  }

  // ---------------------------------------------------------------------------------------------
  // Counting starting bytes
  // ---------------------------------------------------------------------------------------------

  function Starts(bytes: seq<Byte>): nat {
    if bytes == [] then 0 else (if IsTail(bytes[0]) then 0 else 1) + Starts(bytes[1..])
  }

  predicate StartsInside(chunk: seq<Byte>) {
    chunk != [] && IsTail(chunk[0])
  }

  lemma {:induction false} StartsOfJoin(a: seq<Byte>, b: seq<Byte>)
    ensures Starts(a + b) == Starts(a) + Starts(b)
  {
    if a == [] {
      assert a + b == b;
    } else {
      StartsOfJoin(a[1..], b);
      assert (a + b)[1..] == a[1..] + b;
    }
  }

  lemma {:induction false} TailsHaveNoStart(bytes: seq<Byte>)
    requires forall i | 0 <= i < |bytes| :: IsTail(bytes[i])
    ensures Starts(bytes) == 0
  {
    if bytes != [] {
      TailsHaveNoStart(bytes[1..]);
    }
  }

  lemma EncodedCharacterHasOneStart(c: char)
    ensures !IsTail(Encode(c)[0]) && forall i | 1 <= i < |Encode(c)| :: IsTail(Encode(c)[i])
    ensures Starts(Encode(c)) == 1
  {
    assert forall i | 1 <= i < |Encode(c)| :: IsTail(Encode(c)[i]);
    TailsHaveNoStart(Encode(c)[1..]);
  }

  lemma {:induction false} StartsOfEncoded(s: string)
    ensures Starts(EncodeText(s)) == |s|
  {
    if s != [] {
      EncodedCharacterHasOneStart(s[0]);
      StartsOfEncoded(s[1..]);
      StartsOfJoin(Encode(s[0]), EncodeText(s[1..]));
    }
  }

  /** Each starting byte yields a character of its own, and so does a tail in front. */
  lemma {:induction false} LossyIsAtLeastStarts(bytes: seq<Byte>)
    ensures |Lossy(bytes)| >= Starts(bytes) + (if StartsInside(bytes) then 1 else 0)
    decreases |bytes|
  {
    if bytes != [] {
      var n := DecodeFirst(bytes).1;
      LossyIsAtLeastStarts(bytes[n..]);
      assert bytes == bytes[..n] + bytes[n..];
      StartsOfJoin(bytes[..n], bytes[n..]);
      assert bytes[..n] == [bytes[0]] + bytes[1..n];
      TailsHaveNoStart(bytes[1..n]);
      StartsOfJoin([bytes[0]], bytes[1..n]);
    }
  }

  predicate OnBoundaries(chunks: seq<seq<Byte>>) {
    forall i | 0 <= i < |chunks| :: !StartsInside(chunks[i])
  }

  lemma {:induction false} LossyChunksAreAtLeastStarts(chunks: seq<seq<Byte>>)
    ensures |LossyChunks(chunks)| >= Starts(Joined(chunks)) + (if OnBoundaries(chunks) then 0 else 1)
  {
    if chunks != [] {
      LossyIsAtLeastStarts(chunks[0]);
      LossyChunksAreAtLeastStarts(chunks[1..]);
      StartsOfJoin(chunks[0], Joined(chunks[1..]));
      if OnBoundaries(chunks[1..]) && !StartsInside(chunks[0]) {
        assert OnBoundaries(chunks) by {
          forall i | 0 <= i < |chunks| ensures !StartsInside(chunks[i]) {
            assert i > 0 ==> chunks[i] == chunks[1..][i - 1];
          }
        }
      }
    }
  }

  // ---------------------------------------------------------------------------------------------
  // Cutting an encoded text
  // ---------------------------------------------------------------------------------------------

  lemma CutBehind<T>(a: seq<T>, b: seq<T>, k: nat)
    requires |a| <= k <= |a + b|
    ensures (a + b)[..k] == a + b[..k - |a|] && (a + b)[k..] == b[k - |a|..]
    ensures k < |a + b| ==> (a + b)[k] == b[k - |a|]
  {
  }

  lemma EncodedPrefix(s: string, i: nat)
    requires i < |s|
    ensures EncodeText(s[..i + 1]) == Encode(s[0]) + EncodeText(s[1..][..i]) && s[i + 1..] == s[1..][i..]
  {
    assert s[..i + 1][1..] == s[1..][..i];
  }

  /** A cut at `k` is in front of a starting byte, or at the end. */
  predicate IsBoundary(bytes: seq<Byte>, k: nat)
    requires k <= |bytes|
  {
    k < |bytes| ==> !IsTail(bytes[k])
  }

  /** No boundary falls inside the first character. */
  lemma BoundaryIsBehindFirst(s: string, k: nat)
    requires 0 < k <= |EncodeText(s)| && IsBoundary(EncodeText(s), k)
    ensures s != "" && k >= |Encode(s[0])|
  {
    EncodedCharacterHasOneStart(s[0]);
    assert forall i | 0 <= i < |Encode(s[0])| :: EncodeText(s)[i] == Encode(s[0])[i];
  }

  lemma BoundaryOfRest(a: seq<Byte>, b: seq<Byte>, k: nat)
    requires |a| <= k <= |a + b| && IsBoundary(a + b, k)
    ensures IsBoundary(b, k - |a|)
  {
    CutBehind(a, b, k);
  }

  /** The first `j` characters are the first `k` bytes. */
  predicate CutsAt(s: string, j: nat, k: nat)
    requires j <= |s| && k <= |EncodeText(s)|
  {
    EncodeText(s)[..k] == EncodeText(s[..j]) && EncodeText(s)[k..] == EncodeText(s[j..])
  }

  lemma CutJoined(s: string, i: nat, k: nat)
    requires s != "" && i < |s| && |Encode(s[0])| <= k <= |EncodeText(s)|
    requires CutsAt(s[1..], i, k - |Encode(s[0])|)
    ensures CutsAt(s, i + 1, k)
  {
    CutBehind(Encode(s[0]), EncodeText(s[1..]), k);
    EncodedPrefix(s, i);
  }

  /** A boundary falls between two characters. */
  lemma {:induction false} BoundaryCutsText(s: string, k: nat) returns (j: nat)
    requires k <= |EncodeText(s)| && IsBoundary(EncodeText(s), k)
    ensures j <= |s| && CutsAt(s, j, k)
    decreases |s|
  {
    if k == 0 {
      j := 0;
    } else {
      BoundaryIsBehindFirst(s, k);
      BoundaryOfRest(Encode(s[0]), EncodeText(s[1..]), k);
      var i := BoundaryCutsText(s[1..], k - |Encode(s[0])|);
      CutJoined(s, i, k);
      j := i + 1;
    }
  }

  lemma {:induction false} FirstByteOfJoin(chunks: seq<seq<Byte>>)
    requires OnBoundaries(chunks)
    ensures !StartsInside(Joined(chunks))
  {
    if chunks != [] {
      assert !StartsInside(chunks[0]);
      if chunks[0] == [] {
        assert forall i | 0 <= i < |chunks[1..]| :: chunks[1..][i] == chunks[i + 1];
        FirstByteOfJoin(chunks[1..]);
        assert Joined(chunks) == Joined(chunks[1..]);
      }
    }
  }

  lemma {:induction false} BoundaryChunksDecode(chunks: seq<seq<Byte>>, s: string)
    requires Joined(chunks) == EncodeText(s) && OnBoundaries(chunks)
    ensures LossyChunks(chunks) == s
    decreases |chunks|
  {
    if chunks == [] {
      assert s != [] ==> |EncodeText(s)| >= 1;
    } else {
      FirstChunkEndsOnBoundary(chunks);
      var j := BoundaryCutsText(s, |chunks[0]|);
      FirstChunkDecodes(chunks, s, j);
      OtherChunksOnBoundaries(chunks);
      BoundaryChunksDecode(chunks[1..], s[j..]);
      assert s == s[..j] + s[j..];
    }
  }

  lemma OtherChunksOnBoundaries(chunks: seq<seq<Byte>>)
    requires chunks != [] && OnBoundaries(chunks)
    ensures OnBoundaries(chunks[1..])
  {
    forall i | 0 <= i < |chunks[1..]|
      ensures !StartsInside(chunks[1..][i])
    {
      assert chunks[1..][i] == chunks[i + 1];
    }
  }

  lemma FirstChunkEndsOnBoundary(chunks: seq<seq<Byte>>)
    requires chunks != [] && OnBoundaries(chunks)
    ensures |chunks[0]| <= |Joined(chunks)| && IsBoundary(Joined(chunks), |chunks[0]|)
  {
    OtherChunksOnBoundaries(chunks);
    FirstByteOfJoin(chunks[1..]);
    CutBehind(chunks[0], Joined(chunks[1..]), |chunks[0]|);
  }

  lemma FirstChunkDecodes(chunks: seq<seq<Byte>>, s: string, j: nat)
    requires chunks != [] && Joined(chunks) == EncodeText(s) && |chunks[0]| <= |EncodeText(s)|
    requires j <= |s| && CutsAt(s, j, |chunks[0]|)
    ensures Lossy(chunks[0]) == s[..j] && Joined(chunks[1..]) == EncodeText(s[j..])
  {
    CutBehind(chunks[0], Joined(chunks[1..]), |chunks[0]|);
    assert chunks[0] + Joined(chunks[1..])[..0] == chunks[0];
    EncodedAlone(s[..j]);
  }

  lemma EncodedAlone(s: string)
    ensures Lossy(EncodeText(s)) == s
  {
    LossyOfEncoded(s, []);
    assert EncodeText(s) + [] == EncodeText(s) && s + Lossy([]) == s;
  }

  /** Decoding every chunk alone gives back the text exactly when no chunk starts inside a character;
      otherwise the result is longer than the text. This holds for every text and every way of
      cutting its encoding. */
  lemma ChunksDecodeIffCutOnBoundaries(chunks: seq<seq<Byte>>, s: string)
    requires Joined(chunks) == EncodeText(s)
    ensures LossyChunks(chunks) == s <==> OnBoundaries(chunks)
    ensures !OnBoundaries(chunks) ==> |LossyChunks(chunks)| > |s|
  {
    if OnBoundaries(chunks) {
      BoundaryChunksDecode(chunks, s);
    } else {
      LossyChunksAreAtLeastStarts(chunks);
      StartsOfEncoded(s);
    }
  }
}
