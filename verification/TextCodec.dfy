/**
  `Document::detectEncoding`, `decodeToUtf8` and `encodeFromUtf8`, and what opening, saving and
  reopening a file with them keeps.
 */
module TextCodec {
  import opened Options
  import opened Utf

  datatype TextEncoding = Utf8 | Utf8Bom | Utf16LE | Utf16BE | Latin1

  const UTF8_BOM: seq<Byte> := [0xEF, 0xBB, 0xBF]
  const UTF16LE_BOM: seq<Byte> := [0xFF, 0xFE]
  const UTF16BE_BOM: seq<Byte> := [0xFE, 0xFF]

  function WithoutPrefix(raw: seq<Byte>, prefix: seq<Byte>): seq<Byte> {
    if prefix <= raw then raw[|prefix|..] else raw
  }

  /** Both Qt decoders drop one leading U+FEFF. */
  function WithoutBomUnit(u: seq<Unit>): (r: seq<Unit>)
    ensures |r| <= |u|
  {
    if u != [] && u[0] == BOM_UNIT then u[1..] else u
  }

  /** `QString::fromUtf8`. */
  function FromUtf8(s: seq<Byte>): seq<Unit> {
    Utf8ToUnits(WithoutPrefix(s, UTF8_BOM))
  }

  function FromLatin1(raw: seq<Byte>): (u: seq<Unit>)
    ensures |u| == |raw|
  {
    seq(|raw|, i requires 0 <= i < |raw| => raw[i])
  }

  /** `QString::toLatin1`, used only once every unit is known to fit in a byte. */
  function ToLatin1(u: seq<Unit>): seq<Byte>
    requires FitsLatin1(u)
  {
    seq(|u|, i requires 0 <= i < |u| => u[i])
  }

  predicate FitsLatin1(u: seq<Unit>) {
    forall i | 0 <= i < |u| :: u[i] <= 0xFF
  }

  predicate IsUtf16(e: TextEncoding) {
    e.Utf16LE? || e.Utf16BE?
  }

  function Utf16Bom(big: bool): seq<Byte> {
    if big then UTF16BE_BOM else UTF16LE_BOM
  }

  // ---------- the three operations ----------

  function DetectEncoding(raw: seq<Byte>): TextEncoding {
    if UTF8_BOM <= raw then Utf8Bom
    else if UTF16LE_BOM <= raw then Utf16LE
    else if UTF16BE_BOM <= raw then Utf16BE
    else if WellFormed(raw) then Utf8
    else Latin1
  }

  function DecodeToUtf8(raw: seq<Byte>, e: TextEncoding): seq<Byte> {
    match e
    case Utf8 => raw
    case Utf8Bom => WithoutPrefix(raw, UTF8_BOM)
    case Utf16LE => DecodeUtf16(raw, false)
    case Utf16BE => DecodeUtf16(raw, true)
    case Latin1 => UnitsToUtf8(FromLatin1(raw))
  }

  function DecodeUtf16(raw: seq<Byte>, big: bool): seq<Byte> {
    UnitsToUtf8(WithoutBomUnit(BytesToUnits(WithoutPrefix(raw, Utf16Bom(big)), big)))
  }

  function EncodeFromUtf8(text: seq<Byte>, e: TextEncoding): Option<seq<Byte>> {
    match e
    case Utf8 => Some(text)
    case Utf8Bom => Some(UTF8_BOM + text)
    case Utf16LE => Some(EncodeUtf16(text, false))
    case Utf16BE => Some(EncodeUtf16(text, true))
    case Latin1 => EncodeLatin1(FromUtf8(text))
  }

  function EncodeUtf16(text: seq<Byte>, big: bool): seq<Byte> {
    Utf16Bom(big) + UnitsToBytes(FromUtf8(text), big)
  }

  function EncodeLatin1(u: seq<Unit>): Option<seq<Byte>> {
    if FitsLatin1(u) then Some(ToLatin1(u)) else None
  }

  /** The scan over the characters that refuses the first one beyond U+00FF. */
  method ScanLatin1(u: seq<Unit>) returns (encoded: Option<seq<Byte>>)
    ensures encoded == EncodeLatin1(u)
  {
    for i := 0 to |u|
      invariant FitsLatin1(u[..i])
    {
      if u[i] > 0xFF {
        return None;
      }
      assert u[..i + 1] == u[..i] + [u[i]];
    }
    assert u[..|u|] == u;
    return Some(ToLatin1(u));
  }

  method Encode(text: seq<Byte>, e: TextEncoding) returns (encoded: Option<seq<Byte>>)
    ensures encoded == EncodeFromUtf8(text, e)
    ensures WellFormed(text) && IsUtf16(e) ==> encoded.Some? && SpellsUtf16(encoded.value, text, e.Utf16BE?)
  {
    if WellFormed(text) {
      Utf16Encodes(text);
    }
    if e.Latin1? {
      encoded := ScanLatin1(FromUtf8(text));
    } else {
      encoded := EncodeFromUtf8(text, e);
    }
  }

  // ---------- the byte order mark in its three spellings ----------

  lemma BomIsEncodedBomUnit()
    ensures EncodeScalar(BOM_UNIT) == UTF8_BOM
  {
  }

  /** A text carries the UTF-8 mark exactly when its first character is U+FEFF. */
  lemma BomPrefixOfToUtf8(u: seq<Unit>)
    ensures UTF8_BOM <= UnitsToUtf8(u) <==> u != [] && u[0] == BOM_UNIT
  {
    if u != [] {
      BomIsEncodedBomUnit();
      var s := UnitsToUtf8(u);
      ToUtf8Unfolds(u);
      EncodedIsRead(HeadScalar(u), UnitsToUtf8(TailUnits(u)));
      if UTF8_BOM <= s {
        EncodedIsRead(BOM_UNIT, s[3..]);
        assert s == UTF8_BOM + s[3..];
      }
    }
  }

  lemma WellFormedWithoutBom(s: seq<Byte>)
    requires WellFormed(s)
    ensures WellFormed(WithoutPrefix(s, UTF8_BOM))
  {
    if UTF8_BOM <= s {
      BomIsEncodedBomUnit();
      assert s == UTF8_BOM + s[3..];
      EncodedIsRead(BOM_UNIT, s[3..]);
    }
  }

  /** Reading a QString's own UTF-8 drops a leading U+FEFF and the unpaired surrogates, nothing else. */
  lemma {:induction false} FromUtf8OfToUtf8(u: seq<Unit>)
    ensures FromUtf8(UnitsToUtf8(u)) == WithoutBomUnit(Cleaned(u))
  {
    FromUtf8InvertsToUtf8(u);
    BomPrefixOfToUtf8(u);
    if u != [] && u[0] == BOM_UNIT {
      BomIsEncodedBomUnit();
      FromUtf8InvertsToUtf8(u[1..]);
      assert UnitsToUtf8(u)[3..] == UnitsToUtf8(u[1..]);
    }
  }

  lemma Latin1UnitsAreClean(raw: seq<Byte>)
    ensures Cleaned(FromLatin1(raw)) == FromLatin1(raw)
  {
    CleanedIsIdentityOnPaired(FromLatin1(raw));
    SmallUnitsArePaired(FromLatin1(raw));
  }

  lemma {:induction false} SmallUnitsArePaired(u: seq<Unit>)
    requires FitsLatin1(u)
    ensures Paired(u)
  {
    if u != [] {
      SmallUnitsArePaired(u[1..]);
    }
  }

  lemma Latin1Survives(raw: seq<Byte>)
    ensures FromUtf8(DecodeToUtf8(raw, Latin1)) == FromLatin1(raw)
    ensures EncodeLatin1(FromLatin1(raw)) == Some(raw)
  {
    FromUtf8OfToUtf8(FromLatin1(raw));
    Latin1UnitsAreClean(raw);
    assert ToLatin1(FromLatin1(raw)) == raw;
  }

  // ---------- what the encodings mean ----------

  /** Detection by the marks themselves; without a mark, well-formed UTF-8 or else Latin-1. */
  lemma DetectionByMark(raw: seq<Byte>)
    ensures DetectEncoding(raw) == Utf8Bom <==> |raw| >= 3 && raw[0] == 0xEF && raw[1] == 0xBB && raw[2] == 0xBF
    ensures DetectEncoding(raw) == Utf16LE <==> |raw| >= 2 && raw[0] == 0xFF && raw[1] == 0xFE
    ensures DetectEncoding(raw) == Utf16BE <==> |raw| >= 2 && raw[0] == 0xFE && raw[1] == 0xFF
    ensures DetectEncoding(raw) == Utf8 ==> WellFormed(raw)
    ensures DetectEncoding(raw) == Latin1 ==> !WellFormed(raw)
  {
  }

  /** The characters of UTF-16 units in a file, of which one leading U+FEFF is a mark. */
  function WithoutMark(u: seq<Unit>): seq<Unit> {
    if u != [] && u[0] == 0xFEFF then u[1..] else u
  }

  /** The bytes behind a two-byte mark, all of them when the mark is not there. */
  function Payload(raw: seq<Byte>, first: Byte, second: Byte): seq<Byte> {
    if |raw| >= 2 && raw[0] == first && raw[1] == second then raw[2..] else raw
  }

  /** Decoding UTF-16 gives the characters of the payload in the byte order of the encoding, mark or no mark. */
  lemma Utf16LittleDecodes(raw: seq<Byte>)
    ensures WellFormed(DecodeToUtf8(raw, Utf16LE))
    ensures Scalars(DecodeToUtf8(raw, Utf16LE))
            == CharactersOf(WithoutMark(LowByteFirst(Payload(raw, 0xFF, 0xFE))))
  {
    var units := LowByteFirst(Payload(raw, 0xFF, 0xFE));
    ByteOrder(Payload(raw, 0xFF, 0xFE));
    UnmarkedPayload(raw, units);
    ToUtf8Characters(WithoutMark(units));
  }

  lemma Utf16BigDecodes(raw: seq<Byte>)
    ensures WellFormed(DecodeToUtf8(raw, Utf16BE))
    ensures Scalars(DecodeToUtf8(raw, Utf16BE))
            == CharactersOf(WithoutMark(HighByteFirst(Payload(raw, 0xFE, 0xFF))))
  {
    var units := HighByteFirst(Payload(raw, 0xFE, 0xFF));
    ByteOrder(Payload(raw, 0xFE, 0xFF));
    UnmarkedPayload(raw, units);
    ToUtf8Characters(WithoutMark(units));
  }

  lemma UnmarkedPayload(raw: seq<Byte>, u: seq<Unit>)
    ensures WithoutPrefix(raw, UTF16LE_BOM) == Payload(raw, 0xFF, 0xFE)
    ensures WithoutPrefix(raw, UTF16BE_BOM) == Payload(raw, 0xFE, 0xFF)
    ensures WithoutBomUnit(u) == WithoutMark(u)
  {
  }

  /** The bytes are the mark and the characters of `text`, less a leading U+FEFF, in that byte order. */
  predicate SpellsUtf16(bytes: seq<Byte>, text: seq<Byte>, big: bool) {
    var body := WithoutPrefix(text, [0xEF, 0xBB, 0xBF]);
    && WellFormed(body) && |bytes| >= 2
    && (big ==> bytes[0] == 0xFE && bytes[1] == 0xFF && CharactersOf(HighByteFirst(bytes[2..])) == Scalars(body))
    && (!big ==> bytes[0] == 0xFF && bytes[1] == 0xFE && CharactersOf(LowByteFirst(bytes[2..])) == Scalars(body))
  }

  /** Encoding as UTF-16 writes the mark and then the text's characters, less a leading U+FEFF, in that byte order. */
  lemma Utf16Encodes(text: seq<Byte>)
    requires WellFormed(text)
    ensures SpellsUtf16(EncodeFromUtf8(text, Utf16LE).value, text, false)
    ensures SpellsUtf16(EncodeFromUtf8(text, Utf16BE).value, text, true)
  {
    var body := WithoutPrefix(text, UTF8_BOM);
    WellFormedWithoutBom(text);
    FromUtf8Characters(body);
    EncodedUnits(text, false);
    EncodedUnits(text, true);
  }

  lemma EncodedUnits(text: seq<Byte>, big: bool)
    ensures var bytes := EncodeUtf16(text, big);
            && bytes[..2] == Utf16Bom(big)
            && (if big then HighByteFirst(bytes[2..]) else LowByteFirst(bytes[2..])) == FromUtf8(text)
  {
    var bytes := EncodeUtf16(text, big);
    assert bytes[2..] == UnitsToBytes(FromUtf8(text), big);
    UnitsSurviveBytes(FromUtf8(text), big);
    ByteOrder(bytes[2..]);
  }

  /** UTF-8 with a mark is the mark's three bytes and the text; UTF-8 without is the text. */
  lemma Utf8Encodes(text: seq<Byte>)
    ensures EncodeFromUtf8(text, Utf8) == Some(text) && DecodeToUtf8(text, Utf8) == text
    ensures EncodeFromUtf8(text, Utf8Bom) == Some([0xEF, 0xBB, 0xBF] + text)
    ensures DecodeToUtf8([0xEF, 0xBB, 0xBF] + text, Utf8Bom) == text
    ensures !([0xEF, 0xBB, 0xBF] <= text) ==> DecodeToUtf8(text, Utf8Bom) == text
  {
    assert ([0xEF, 0xBB, 0xBF] + text)[3..] == text;
  }

  predicate SameNumbers(cs: seq<Scalar>, bytes: seq<Byte>) {
    |cs| == |bytes| && forall i | 0 <= i < |cs| :: cs[i] == bytes[i]
  }

  /** Latin-1 bytes are the scalar values themselves, both ways. */
  lemma Latin1Numbers(raw: seq<Byte>, text: seq<Byte>)
    ensures WellFormed(DecodeToUtf8(raw, Latin1)) && SameNumbers(Scalars(DecodeToUtf8(raw, Latin1)), raw)
    ensures EncodeFromUtf8(text, Latin1).Some? ==>
              var body := WithoutPrefix(text, [0xEF, 0xBB, 0xBF]);
              WellFormed(body) && SameNumbers(Scalars(body), EncodeFromUtf8(text, Latin1).value)
  {
    ToUtf8Characters(FromLatin1(raw));
    SmallCharacters(FromLatin1(raw));
    if EncodeFromUtf8(text, Latin1).Some? {
      var u := FromUtf8(text);
      Latin1Refusal(text);
      FromUtf8Characters(WithoutPrefix(text, UTF8_BOM));
      SmallCharacters(u);
    }
  }

  lemma {:induction false} SmallCharacters(u: seq<Unit>)
    requires FitsLatin1(u)
    ensures |CharactersOf(u)| == |u| && forall i | 0 <= i < |u| :: CharactersOf(u)[i] == u[i]
  {
    if u != [] {
      SmallCharacters(u[1..]);
    }
  }

  // ---------- opening a file and saving it unchanged ----------

  /** The payload behind a UTF-16 mark is whole, paired, and has no second mark. */
  predicate IntactUtf16(payload: seq<Byte>, big: bool) {
    |payload| % 2 == 0 &&
    var u := BytesToUnits(payload, big);
    Paired(u) && (u == [] || u[0] != BOM_UNIT)
  }

  lemma Utf16Rewrites(payload: seq<Byte>, big: bool)
    ensures EncodeUtf16(DecodeUtf16(Utf16Bom(big) + payload, big), big) == Utf16Bom(big) + payload
            <==> IntactUtf16(payload, big)
  {
    var bom := Utf16Bom(big);
    var u := BytesToUnits(payload, big);
    assert (bom + payload)[2..] == payload;
    FromUtf8OfToUtf8(WithoutBomUnit(u));
    var back := FromUtf8(UnitsToUtf8(WithoutBomUnit(u)));
    assert (bom + UnitsToBytes(back, big))[2..] == UnitsToBytes(back, big);
    CleanedIsIdentityOnPaired(u);
    BytesSurviveUnits(payload, big);
    if UnitsToBytes(back, big) == payload {
      UnitsSurviveBytes(back, big);
    }
  }

  /**
    Saving a file as it was opened rewrites its bytes, except a UTF-16 file that is damaged or
    carries a second byte order mark, and such a file is always changed.
   */
  lemma {:induction false} SaveUnchanged(raw: seq<Byte>)
    ensures var e := DetectEncoding(raw);
            EncodeFromUtf8(DecodeToUtf8(raw, e), e) == Some(raw)
            <==> (IsUtf16(e) ==> IntactUtf16(raw[2..], e.Utf16BE?))
  {
    match DetectEncoding(raw)
    case Utf8 =>
    case Utf8Bom => assert raw == UTF8_BOM + raw[3..];
    case Utf16LE => assert raw == UTF16LE_BOM + raw[2..]; Utf16Rewrites(raw[2..], false);
    case Utf16BE => assert raw == UTF16BE_BOM + raw[2..]; Utf16Rewrites(raw[2..], true);
    case Latin1 => Latin1Survives(raw);
  }

  // ---------- saving a text and opening the file again ----------

  /** What a reload shows after `text` was saved as `bytes`. */
  function Reloaded(bytes: seq<Byte>): seq<Byte> {
    DecodeToUtf8(bytes, DetectEncoding(bytes))
  }

  lemma {:induction false} Utf16Reload(text: seq<Byte>, big: bool)
    ensures DecodeUtf16(EncodeUtf16(text, big), big) == text
            <==> WellFormed(text) && !(UTF8_BOM <= text)
  {
    var bom, u := Utf16Bom(big), FromUtf8(text);
    assert (bom + UnitsToBytes(u, big))[2..] == UnitsToBytes(u, big);
    UnitsSurviveBytes(u, big);
    ToUtf8IsWellFormed(WithoutBomUnit(u));
    if WellFormed(text) {
      WellFormedWithoutBom(text);
      ToUtf8InvertsFromUtf8(WithoutPrefix(text, UTF8_BOM));
      BomPrefixOfToUtf8(u);
      if u != [] && u[0] == BOM_UNIT {
        ToUtf8Unfolds(u);
      }
    }
  }

  /**
    The four Unicode encodings: a reload detects the encoding that was saved and shows the same
    text, for exactly the texts below. Only UTF-8 with BOM carries every text.
   */
  lemma {:induction false} SaveThenReload(text: seq<Byte>, e: TextEncoding)
    requires !e.Latin1?
    ensures EncodeFromUtf8(text, e).Some?
    ensures var bytes := EncodeFromUtf8(text, e).value;
            DetectEncoding(bytes) == e && Reloaded(bytes) == text
            <==> e.Utf8Bom? || (WellFormed(text) && !(UTF8_BOM <= text))
  {
    match e
    case Utf8 =>
      if WellFormed(text) && text != [] {
        ReadIsEncoded(text);
      }
    case Utf8Bom => assert (UTF8_BOM + text)[3..] == text;
    case Utf16LE =>
      Utf16Reload(text, false);
      assert EncodeUtf16(text, false)[0] == 0xFF;
    case Utf16BE =>
      Utf16Reload(text, true);
      assert EncodeUtf16(text, true)[0] == 0xFE;
  }

  predicate NoneBeyondLatin1(cs: seq<Scalar>) {
    forall i | 0 <= i < |cs| :: cs[i] <= 0xFF
  }

  lemma {:induction false} FitsLatin1ByScalars(s: seq<Byte>)
    requires WellFormed(s)
    ensures FitsLatin1(Utf8ToUnits(s)) <==> NoneBeyondLatin1(Scalars(s))
    decreases |s|
  {
    if s != [] {
      var c := ReadScalar(s).value;
      var rest := s[|EncodeScalar(c)|..];
      FitsLatin1ByScalars(rest);
      FitsLatin1Concat(ScalarUnits(c), Utf8ToUnits(rest));
      NoneBeyondLatin1Cons(c, Scalars(rest));
      assert FitsLatin1(ScalarUnits(c)) <==> c <= 0xFF by {
        assert c > 0xFF ==> ScalarUnits(c)[0] > 0xFF;
      }
    }
  }

  lemma NoneBeyondLatin1Cons(c: Scalar, cs: seq<Scalar>)
    ensures NoneBeyondLatin1([c] + cs) <==> c <= 0xFF && NoneBeyondLatin1(cs)
  {
    assert ([c] + cs)[0] == c;
    assert forall i | 0 <= i < |cs| :: ([c] + cs)[i + 1] == cs[i];
  }

  lemma FitsLatin1Concat(u: seq<Unit>, v: seq<Unit>)
    ensures FitsLatin1(u + v) <==> FitsLatin1(u) && FitsLatin1(v)
  {
    assert forall i | 0 <= i < |u| :: (u + v)[i] == u[i];
    assert forall i | 0 <= i < |v| :: (u + v)[i + |u|] == v[i];
  }

  /** Latin-1 is refused exactly for malformed text and for characters beyond U+00FF. */
  lemma Latin1Refusal(text: seq<Byte>)
    ensures EncodeFromUtf8(text, Latin1).Some? <==>
            var body := WithoutPrefix(text, UTF8_BOM);
            WellFormed(body) && NoneBeyondLatin1(Scalars(body))
  {
    var body := WithoutPrefix(text, UTF8_BOM);
    FromUtf8IsPaired(body);
    if WellFormed(body) {
      FitsLatin1ByScalars(body);
    }
  }

  /** When Latin-1 accepts a text, decoding as Latin-1 gives it back, less a leading mark. */
  lemma Latin1Inverts(text: seq<Byte>)
    requires EncodeFromUtf8(text, Latin1).Some?
    ensures DecodeToUtf8(EncodeFromUtf8(text, Latin1).value, Latin1) == WithoutPrefix(text, UTF8_BOM)
  {
    var body := WithoutPrefix(text, UTF8_BOM);
    var u := Utf8ToUnits(body);
    assert FromLatin1(ToLatin1(u)) == u;
    FromUtf8IsPaired(body);
    ToUtf8InvertsFromUtf8(body);
  }

  predicate Ascii(s: seq<Byte>) {
    forall i | 0 <= i < |s| :: s[i] < 0x80
  }

  lemma {:induction false} AsciiIsItsOwnUtf8(u: seq<Unit>)
    requires FitsLatin1(u)
    ensures |UnitsToUtf8(u)| >= |u|
    ensures UnitsToUtf8(u) == ToLatin1(u) <==> Ascii(ToLatin1(u))
    ensures |UnitsToUtf8(u)| == |u| ==> Ascii(ToLatin1(u))
  {
    if u != [] {
      AsciiIsItsOwnUtf8(u[1..]);
      var head, tail := EncodeScalar(u[0]), UnitsToUtf8(u[1..]);
      assert UnitsToUtf8(u) == head + tail;
      assert ToLatin1(u) == [u[0]] + ToLatin1(u[1..]);
      AsciiCons(u[0], ToLatin1(u[1..]));
      if u[0] < 0x80 {
        assert head == [u[0]];
        assert UnitsToUtf8(u)[1..] == tail && ToLatin1(u)[1..] == ToLatin1(u[1..]);
      } else {
        assert |head| == 2;
      }
    }
  }

  lemma AsciiCons(b: Byte, s: seq<Byte>)
    ensures Ascii([b] + s) <==> b < 0x80 && Ascii(s)
  {
    assert ([b] + s)[0] == b;
    assert forall i | 0 <= i < |s| :: ([b] + s)[i + 1] == s[i];
  }

  /** A reload that takes a Latin-1 file for UTF-16 halves the characters. */
  lemma Utf16MisreadIsShort(bytes: seq<Byte>, big: bool)
    requires Utf16Bom(big) <= bytes
    ensures |Utf8ToUnits(DecodeUtf16(bytes, big))| < |bytes|
  {
    var u := WithoutBomUnit(BytesToUnits(bytes[2..], big));
    FromUtf8InvertsToUtf8(u);
  }

  /**
    Latin-1 is not marked in the file, so a reload has to guess. It shows the saved text exactly
    when the guess is Latin-1 again or the bytes are ASCII, and no leading mark was dropped.
   */
  lemma {:induction false} Latin1Reload(text: seq<Byte>)
    requires EncodeFromUtf8(text, Latin1).Some?
    ensures var bytes := EncodeFromUtf8(text, Latin1).value;
            Reloaded(bytes) == text <==>
            !(UTF8_BOM <= text) && (DetectEncoding(bytes) == Latin1 || Ascii(bytes))
  {
    var body := WithoutPrefix(text, UTF8_BOM);
    var u := Utf8ToUnits(body);
    var bytes := ToLatin1(u);
    Latin1Inverts(text);
    assert FromLatin1(bytes) == u;
    AsciiIsItsOwnUtf8(u);
    match DetectEncoding(bytes)
    case Utf8 =>
    case Utf8Bom => assert bytes[0] == 0xEF;
    case Latin1 =>
    case _ =>
      Utf16MisreadIsShort(bytes, DetectEncoding(bytes).Utf16BE?);
      assert bytes[0] >= 0xFE;
      MarkAddsOneUnit(text);
  }

  lemma MarkAddsOneUnit(text: seq<Byte>)
    ensures |Utf8ToUnits(text)| >= |FromUtf8(text)|
  {
    if UTF8_BOM <= text {
      BomIsEncodedBomUnit();
      assert text == UTF8_BOM + text[3..];
      EncodedIsRead(BOM_UNIT, text[3..]);
    }
  }
}
