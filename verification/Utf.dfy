/**
  The transcoders behind `QString::fromUtf8`, `QString::toUtf8` and the UTF-16 converters, written
  from RFC 3629 (UTF-8, sections 3 and 4) and RFC 2781 (UTF-16, sections 2.1, 2.2 and 3.2).
  A QString is a sequence of 16-bit code units that need not be paired.
 */
module Utf {
  import opened Options

  type Byte = b: int | 0 <= b < 0x100
  type Unit = u: int | 0 <= u < 0x10000
  type Scalar = c: int | 0 <= c < 0xD800 || 0xE000 <= c < 0x110000

  const REPLACEMENT: Unit := 0xFFFD
  const BOM_UNIT: Unit := 0xFEFF
  /** What `QString::toUtf8` writes for a surrogate that has no partner. */
  const QUESTION_MARK: Byte := 0x3F

  // ---------- one scalar value ----------

  /** RFC 3629 section 3. */
  function EncodeScalar(c: Scalar): (s: seq<Byte>)
    ensures 1 <= |s| <= 4
  {
    if c < 0x80 then [c]
    else if c < 0x800 then [0xC0 + c / 0x40, 0x80 + c % 0x40]
    else if c < 0x10000 then [0xE0 + c / 0x1000, 0x80 + c / 0x40 % 0x40, 0x80 + c % 0x40]
    else [0xF0 + c / 0x40000, 0x80 + c / 0x1000 % 0x40, 0x80 + c / 0x40 % 0x40, 0x80 + c % 0x40]
  }

  predicate IsTail(b: Byte) {
    0x80 <= b < 0xC0
  }

  /** The scalar value spelled by the well-formed sequence `s` starts with (RFC 3629 section 4), if any. */
  function ReadScalar(s: seq<Byte>): Option<Scalar>
    requires s != []
  {
    var b: int := s[0];
    if b < 0x80 then Some(b)
    else if 0xC2 <= b < 0xE0 && |s| >= 2 && IsTail(s[1]) then
      Some(Join(b - 0xC0, s[1] - 0x80))
    else if 0xE0 <= b < 0xF0 && |s| >= 3 && IsTail(s[1]) && IsTail(s[2]) &&
            (b == 0xE0 ==> s[1] >= 0xA0) && (b == 0xED ==> s[1] < 0xA0) then
      Some(Join(Join(b - 0xE0, s[1] - 0x80), s[2] - 0x80))
    else if 0xF0 <= b < 0xF5 && |s| >= 4 && IsTail(s[1]) && IsTail(s[2]) && IsTail(s[3]) &&
            (b == 0xF0 ==> s[1] >= 0x90) && (b == 0xF4 ==> s[1] < 0x90) then
      Some(Join(Join(Join(b - 0xF0, s[1] - 0x80), s[2] - 0x80), s[3] - 0x80))
    else None
  }

  /** Appends six payload bits. */
  function Join(value: int, bits: int): (joined: int)
    requires 0 <= value && 0 <= bits < 0x40
    ensures joined / 0x40 == value && joined % 0x40 == bits
  {
    value * 0x40 + bits
  }

  /** What is read is exactly the encoding of the value returned: no overlong form, no surrogate. */
  lemma {:induction false} ReadIsEncoded(s: seq<Byte>)
    requires s != [] && ReadScalar(s).Some?
    ensures EncodeScalar(ReadScalar(s).value) <= s
  {
    var c := ReadScalar(s).value;
    if s[0] >= 0xE0 {
      assert c / 0x1000 == c / 0x40 / 0x40;
    }
    if s[0] >= 0xF0 {
      assert c / 0x40000 == c / 0x1000 / 0x40;
    }
  }

  /** The encoding of a scalar value is read back whatever follows it. */
  lemma {:induction false} EncodedIsRead(c: Scalar, rest: seq<Byte>)
    ensures ReadScalar(EncodeScalar(c) + rest) == Some(c)
  {
    var e := EncodeScalar(c);
    var s := e + rest;
    assert forall i | 0 <= i < |e| :: s[i] == e[i];
    if c >= 0x80 {
      assert c == Join(c / 0x40, c % 0x40);
    }
    if c >= 0x800 {
      assert c / 0x1000 == c / 0x40 / 0x40;
      assert c / 0x40 == Join(c / 0x1000, c / 0x40 % 0x40);
    }
    if c >= 0x10000 {
      assert c / 0x40000 == c / 0x1000 / 0x40;
      assert c / 0x1000 == Join(c / 0x40000, c / 0x1000 % 0x40);
    }
  }

  function Above(b: Byte, base: int): int {
    b as int - base
  }

  /**
    The bits of RFC 3629 section 3, shortest form first: the lead byte tells the length, the tail
    bytes are 80 to BF, and the payload bits in order are the value.
   */
  lemma EncodingBits(c: Scalar)
    ensures var e := EncodeScalar(c);
            && (c <= 0x7F <==> |e| == 1) && (0x80 <= c <= 0x7FF <==> |e| == 2)
            && (0x800 <= c <= 0xFFFF <==> |e| == 3) && (0x10000 <= c <==> |e| == 4)
            && (|e| == 1 ==> e[0] == c)
            && (|e| == 2 ==> 192 <= e[0] < 224 && c == 64 * Above(e[0], 192) + Above(e[1], 128))
            && (|e| == 3 ==> 224 <= e[0] < 240
                             && c == 4096 * Above(e[0], 224) + 64 * Above(e[1], 128) + Above(e[2], 128))
            && (|e| == 4 ==> 240 <= e[0] < 245
                             && c == 262144 * Above(e[0], 240) + 4096 * Above(e[1], 128)
                                     + 64 * Above(e[2], 128) + Above(e[3], 128))
            && forall i | 1 <= i < |e| :: 128 <= e[i] < 192
  {
    if c >= 0x800 {
      assert c / 0x1000 == c / 0x40 / 0x40;
    }
    if c >= 0x10000 {
      assert c / 0x40000 == c / 0x1000 / 0x40;
    }
  }

  // ---------- code units ----------

  predicate IsHigh(u: Unit) {
    0xD800 <= u < 0xDC00
  }

  predicate IsLow(u: Unit) {
    0xDC00 <= u < 0xE000
  }

  /** RFC 2781 section 2.1. */
  function ScalarUnits(c: Scalar): (u: seq<Unit>)
    ensures 1 <= |u| <= 2
  {
    if c < 0x10000 then [c]
    else [0xD800 + (c - 0x10000) / 0x400, 0xDC00 + (c - 0x10000) % 0x400]
  }

  /** RFC 2781 section 2.2. */
  function PairScalar(high: Unit, low: Unit): Scalar
    requires IsHigh(high) && IsLow(low)
  {
    0x10000 + (high - 0xD800) * 0x400 + (low - 0xDC00)
  }

  predicate StartsWithPair(u: seq<Unit>) {
    |u| >= 2 && IsHigh(u[0]) && IsLow(u[1])
  }

  predicate StartsWithLoneSurrogate(u: seq<Unit>) {
    u != [] && !StartsWithPair(u) && (IsHigh(u[0]) || IsLow(u[0]))
  }

  /** Every surrogate stands in a high-low pair. */
  predicate Paired(u: seq<Unit>) {
    u == [] || (!StartsWithLoneSurrogate(u) && Paired(if StartsWithPair(u) then u[2..] else u[1..]))
  }

  /** `u` with every unpaired surrogate replaced by a question mark. */
  function Cleaned(u: seq<Unit>): (r: seq<Unit>)
    ensures |r| == |u|
  {
    if u == [] then []
    else if StartsWithPair(u) then u[..2] + Cleaned(u[2..])
    else (if StartsWithLoneSurrogate(u) then [QUESTION_MARK] else u[..1]) + Cleaned(u[1..])
  }

  lemma {:induction false} CleanedIsIdentityOnPaired(u: seq<Unit>)
    ensures Cleaned(u) == u <==> Paired(u)
  {
    if u == [] {
    } else if StartsWithPair(u) {
      CleanedIsIdentityOnPaired(u[2..]);
      assert u == u[..2] + u[2..];
      assert Cleaned(u)[2..] == Cleaned(u[2..]);
    } else {
      CleanedIsIdentityOnPaired(u[1..]);
      assert u == u[..1] + u[1..];
      assert Cleaned(u)[1..] == Cleaned(u[1..]);
      assert StartsWithLoneSurrogate(u) ==> Cleaned(u)[0] != u[0];
    }
  }

  // ---------- whole strings ----------

  predicate WellFormed(s: seq<Byte>)
    decreases |s|
  {
    s == [] ||
    (ReadScalar(s).Some? &&
     var n := |EncodeScalar(ReadScalar(s).value)|;
     n <= |s| && WellFormed(s[n..]))
  }

  /** `QString::fromUtf8` without the byte order mark rule: each byte that starts no sequence is U+FFFD. */
  function Utf8ToUnits(s: seq<Byte>): (u: seq<Unit>)
    decreases |s|
  {
    if s == [] then []
    else match ReadScalar(s)
      case None => [REPLACEMENT] + Utf8ToUnits(s[1..])
      case Some(c) =>
        ReadIsEncoded(s);
        ScalarUnits(c) + Utf8ToUnits(s[|EncodeScalar(c)|..])
  }

  /** `QString::toUtf8`. */
  function UnitsToUtf8(u: seq<Unit>): (s: seq<Byte>) {
    if u == [] then []
    else if StartsWithPair(u) then EncodeScalar(PairScalar(u[0], u[1])) + UnitsToUtf8(u[2..])
    else if StartsWithLoneSurrogate(u) then [QUESTION_MARK] + UnitsToUtf8(u[1..])
    else EncodeScalar(u[0]) + UnitsToUtf8(u[1..])
  }

  /** The first scalar value `toUtf8` writes for a non-empty string, and the units after it. */
  function HeadScalar(u: seq<Unit>): Scalar
    requires u != []
  {
    if StartsWithPair(u) then PairScalar(u[0], u[1])
    else if StartsWithLoneSurrogate(u) then QUESTION_MARK
    else u[0]
  }

  function TailUnits(u: seq<Unit>): seq<Unit>
    requires u != []
  {
    if StartsWithPair(u) then u[2..] else u[1..]
  }

  lemma ToUtf8Unfolds(u: seq<Unit>)
    requires u != []
    ensures UnitsToUtf8(u) == EncodeScalar(HeadScalar(u)) + UnitsToUtf8(TailUnits(u))
    ensures Cleaned(u) == ScalarUnits(HeadScalar(u)) + Cleaned(TailUnits(u))
  {
    if StartsWithPair(u) {
      PairIsRead(u[0], u[1]);
      assert u[..2] == [u[0], u[1]];
    } else {
      assert u[..1] == [u[0]];
    }
  }

  lemma PairIsRead(high: Unit, low: Unit)
    requires IsHigh(high) && IsLow(low)
    ensures ScalarUnits(PairScalar(high, low)) == [high, low]
  {
  }

  /** `toUtf8` always writes well-formed UTF-8. */
  lemma {:induction false} ToUtf8IsWellFormed(u: seq<Unit>)
    ensures WellFormed(UnitsToUtf8(u))
  {
    if u != [] {
      var c, rest := HeadScalar(u), UnitsToUtf8(TailUnits(u));
      ToUtf8Unfolds(u);
      ToUtf8IsWellFormed(TailUnits(u));
      EncodedIsRead(c, rest);
      assert (EncodeScalar(c) + rest)[|EncodeScalar(c)|..] == rest;
    }
  }

  /** Reading back what `toUtf8` wrote loses only the unpaired surrogates. */
  lemma {:induction false} FromUtf8InvertsToUtf8(u: seq<Unit>)
    ensures Utf8ToUnits(UnitsToUtf8(u)) == Cleaned(u)
  {
    if u != [] {
      var c, rest := HeadScalar(u), UnitsToUtf8(TailUnits(u));
      ToUtf8Unfolds(u);
      FromUtf8InvertsToUtf8(TailUnits(u));
      EncodedIsRead(c, rest);
      assert (EncodeScalar(c) + rest)[|EncodeScalar(c)|..] == rest;
    }
  }

  lemma ToUtf8OfScalar(c: Scalar, rest: seq<Unit>)
    ensures UnitsToUtf8(ScalarUnits(c) + rest) == EncodeScalar(c) + UnitsToUtf8(rest)
  {
    var u := ScalarUnits(c) + rest;
    assert u[|ScalarUnits(c)|..] == rest;
    if c >= 0x10000 {
      assert StartsWithPair(u) && PairScalar(u[0], u[1]) == c;
    }
  }

  /** Well-formed UTF-8, and nothing else, survives the way through a QString. */
  lemma {:induction false} ToUtf8InvertsFromUtf8(s: seq<Byte>)
    ensures UnitsToUtf8(Utf8ToUnits(s)) == s <==> WellFormed(s)
    decreases |s|
  {
    if WellFormed(s) {
      if s != [] {
        ToUtf8InvertsFromUtf8(s[|EncodeScalar(ReadScalar(s).value)|..]);
        HeadSurvives(s);
      }
    } else {
      ToUtf8IsWellFormed(Utf8ToUnits(s));
    }
  }

  lemma HeadSurvives(s: seq<Byte>)
    requires WellFormed(s) && s != []
    requires var rest := s[|EncodeScalar(ReadScalar(s).value)|..]; UnitsToUtf8(Utf8ToUnits(rest)) == rest
    ensures UnitsToUtf8(Utf8ToUnits(s)) == s
  {
    var c := ReadScalar(s).value;
    var n := |EncodeScalar(c)|;
    ReadIsEncoded(s);
    ToUtf8OfScalar(c, Utf8ToUnits(s[n..]));
    assert s == s[..n] + s[n..];
  }

  /** Units that decode from well-formed UTF-8 are paired; malformed input shows as U+FFFD. */
  lemma {:induction false} FromUtf8IsPaired(s: seq<Byte>)
    ensures Paired(Utf8ToUnits(s))
    ensures !WellFormed(s) ==> REPLACEMENT in Utf8ToUnits(s)
    decreases |s|
  {
    if s != [] {
      var head, rest := [REPLACEMENT], s[1..];
      if ReadScalar(s).Some? {
        ReadIsEncoded(s);
        head := ScalarUnits(ReadScalar(s).value);
        rest := s[|EncodeScalar(ReadScalar(s).value)|..];
      }
      FromUtf8IsPaired(rest);
      assert Utf8ToUnits(s) == head + Utf8ToUnits(rest);
      assert Utf8ToUnits(s)[|head|..] == Utf8ToUnits(rest);
    }
  }

  /** The scalar values of a well-formed text. */
  function Scalars(s: seq<Byte>): seq<Scalar>
    requires WellFormed(s)
    decreases |s|
  {
    if s == [] then []
    else
      var c := ReadScalar(s).value;
      [c] + Scalars(s[|EncodeScalar(c)|..])
  }

  lemma ScalarsCons(c: Scalar, rest: seq<Byte>)
    requires WellFormed(rest)
    ensures WellFormed(EncodeScalar(c) + rest) && Scalars(EncodeScalar(c) + rest) == [c] + Scalars(rest)
  {
    EncodedIsRead(c, rest);
    assert (EncodeScalar(c) + rest)[|EncodeScalar(c)|..] == rest;
  }

  function EncodeScalars(cs: seq<Scalar>): seq<Byte> {
    if cs == [] then [] else EncodeScalar(cs[0]) + EncodeScalars(cs[1..])
  }

  /** A text is well-formed when it is the encodings of some scalar values, and then of those it is read as. */
  lemma {:induction false} WellFormedIsEncoded(s: seq<Byte>)
    ensures WellFormed(s) ==> EncodeScalars(Scalars(s)) == s
    decreases |s|
  {
    if WellFormed(s) && s != [] {
      WellFormedIsEncoded(s[|EncodeScalar(ReadScalar(s).value)|..]);
      HeadIsEncoded(s);
    }
  }

  lemma HeadIsEncoded(s: seq<Byte>)
    requires WellFormed(s) && s != []
    requires var rest := s[|EncodeScalar(ReadScalar(s).value)|..]; EncodeScalars(Scalars(rest)) == rest
    ensures EncodeScalars(Scalars(s)) == s
  {
    var c := ReadScalar(s).value;
    var n := |EncodeScalar(c)|;
    ReadIsEncoded(s);
    assert s == s[..n] + s[n..];
    ScalarsCons(c, s[n..]);
    EncodeCons(c, Scalars(s[n..]));
  }

  lemma EncodeCons(c: Scalar, cs: seq<Scalar>)
    ensures EncodeScalars([c] + cs) == EncodeScalar(c) + EncodeScalars(cs)
  {
    assert ([c] + cs)[1..] == cs;
  }

  lemma {:induction false} EncodedIsWellFormed(cs: seq<Scalar>)
    ensures WellFormed(EncodeScalars(cs)) && Scalars(EncodeScalars(cs)) == cs
  {
    if cs != [] {
      EncodedIsWellFormed(cs[1..]);
      ScalarsCons(cs[0], EncodeScalars(cs[1..]));
    }
  }

  /** The reference for a string of units, with the numbers of RFC 2781 section 2.2; a lone surrogate shows as `?`. */
  function CharactersOf(u: seq<Unit>): seq<int> {
    if u == [] then []
    else if |u| >= 2 && 0xD800 <= u[0] <= 0xDBFF && 0xDC00 <= u[1] <= 0xDFFF then
      [0x10000 + 1024 * (u[0] - 0xD800) + (u[1] - 0xDC00)] + CharactersOf(u[2..])
    else if 0xD800 <= u[0] <= 0xDFFF then [63] + CharactersOf(u[1..])
    else [u[0] as int] + CharactersOf(u[1..])
  }

  /** `toUtf8` writes the characters the units stand for. */
  lemma {:induction false} ToUtf8Characters(u: seq<Unit>)
    ensures WellFormed(UnitsToUtf8(u)) && Scalars(UnitsToUtf8(u)) == CharactersOf(u)
  {
    if u != [] {
      ToUtf8Characters(TailUnits(u));
      HeadCharacter(u, UnitsToUtf8(TailUnits(u)));
    }
  }

  lemma HeadCharacter(u: seq<Unit>, rest: seq<Byte>)
    requires u != [] && rest == UnitsToUtf8(TailUnits(u))
    requires WellFormed(rest) && Scalars(rest) == CharactersOf(TailUnits(u))
    ensures WellFormed(UnitsToUtf8(u)) && Scalars(UnitsToUtf8(u)) == CharactersOf(u)
  {
    ToUtf8Unfolds(u);
    ScalarsCons(HeadScalar(u), rest);
    CharactersUnfold(u);
  }

  lemma CharactersUnfold(u: seq<Unit>)
    requires u != []
    ensures CharactersOf(u) == [HeadScalar(u) as int] + CharactersOf(TailUnits(u))
  {
  }

  /** `fromUtf8` reads the characters of a well-formed text, and shows a byte that starts none as U+FFFD. */
  lemma {:induction false} FromUtf8Characters(s: seq<Byte>)
    ensures WellFormed(s) ==> CharactersOf(Utf8ToUnits(s)) == Scalars(s)
    ensures s != [] && (forall c: Scalar :: !(EncodeScalar(c) <= s)) ==>
              Utf8ToUnits(s) == [0xFFFD] + Utf8ToUnits(s[1..])
  {
    if WellFormed(s) {
      ToUtf8InvertsFromUtf8(s);
      ToUtf8Characters(Utf8ToUnits(s));
    }
    if s != [] && ReadScalar(s).Some? {
      ReadIsEncoded(s);
    }
  }

  // ---------- serialised UTF-16 (RFC 2781 section 3.2) ----------

  function UnitBytes(u: Unit, big: bool): (s: seq<Byte>)
    ensures |s| == 2
  {
    if big then [u / 0x100, u % 0x100] else [u % 0x100, u / 0x100]
  }

  function BytesUnit(first: Byte, second: Byte, big: bool): Unit {
    if big then first * 0x100 + second else second * 0x100 + first
  }

  function UnitsToBytes(u: seq<Unit>, big: bool): (s: seq<Byte>)
    ensures |s| == 2 * |u|
  {
    if u == [] then [] else UnitBytes(u[0], big) + UnitsToBytes(u[1..], big)
  }

  /** The converter keeps a trailing odd byte back, so it never becomes a character. */
  function BytesToUnits(s: seq<Byte>, big: bool): (u: seq<Unit>)
    ensures |u| == |s| / 2
  {
    if |s| < 2 then [] else [BytesUnit(s[0], s[1], big)] + BytesToUnits(s[2..], big)
  }

  /** The reference for serialised units: the low byte first, or the high byte first. */
  function LowByteFirst(s: seq<Byte>): (u: seq<Unit>) {
    seq(|s| / 2, i requires 0 <= i < |s| / 2 => s[2 * i] as int + 256 * s[2 * i + 1] as int)
  }

  function HighByteFirst(s: seq<Byte>): (u: seq<Unit>) {
    seq(|s| / 2, i requires 0 <= i < |s| / 2 => 256 * s[2 * i] as int + s[2 * i + 1] as int)
  }

  /** Little-endian is the low byte first, big-endian the high byte first. */
  lemma {:induction false} ByteOrder(s: seq<Byte>)
    ensures BytesToUnits(s, false) == LowByteFirst(s) && BytesToUnits(s, true) == HighByteFirst(s)
  {
    if |s| >= 2 {
      ByteOrder(s[2..]);
      assert LowByteFirst(s) == [s[0] as int + 256 * s[1] as int] + LowByteFirst(s[2..]);
      assert HighByteFirst(s) == [256 * s[0] as int + s[1] as int] + HighByteFirst(s[2..]);
    }
  }

  lemma {:induction false} UnitsSurviveBytes(u: seq<Unit>, big: bool)
    ensures BytesToUnits(UnitsToBytes(u, big), big) == u
    ensures (if big then HighByteFirst(UnitsToBytes(u, big)) else LowByteFirst(UnitsToBytes(u, big))) == u
  {
    UnitsComeBack(u, big);
    ByteOrder(UnitsToBytes(u, big));
  }

  lemma {:induction false} UnitsComeBack(u: seq<Unit>, big: bool)
    ensures BytesToUnits(UnitsToBytes(u, big), big) == u
  {
    if u != [] {
      UnitsComeBack(u[1..], big);
      assert UnitsToBytes(u, big)[2..] == UnitsToBytes(u[1..], big);
    }
  }

  lemma {:induction false} BytesSurviveUnits(s: seq<Byte>, big: bool)
    ensures UnitsToBytes(BytesToUnits(s, big), big) == s <==> |s| % 2 == 0
  {
    if |s| >= 2 {
      var head, tail := s[..2], UnitsToBytes(BytesToUnits(s[2..], big), big);
      BytesSurviveUnits(s[2..], big);
      FirstUnitSurvives(s, big);
      assert s == head + s[2..];
      assert head + tail == s <==> tail == s[2..] by {
        assert (head + tail)[2..] == tail;
      }
    }
  }

  lemma FirstUnitSurvives(s: seq<Byte>, big: bool)
    requires |s| >= 2
    ensures UnitsToBytes(BytesToUnits(s, big), big) == s[..2] + UnitsToBytes(BytesToUnits(s[2..], big), big)
  {
    UnitSurvives(s[0], s[1], big);
    var u := BytesToUnits(s, big);
    assert u == [BytesUnit(s[0], s[1], big)] + BytesToUnits(s[2..], big);
    assert u[1..] == BytesToUnits(s[2..], big);
    assert s[..2] == [s[0], s[1]];
  }

  lemma UnitSurvives(first: Byte, second: Byte, big: bool)
    ensures UnitBytes(BytesUnit(first, second, big), big) == [first, second]
  {
  }
}
