/**
 The text a snapshot file holds: the payload in hexadecimal, its checksum, and the JSON envelope
 around them, which must be exactly the text the saver would have written.
 */
module SnapshotEnvelope {
  import opened Wrappers
  import opened MachineWords
  import opened BitwiseXor
  import opened ByteCodec
  import opened EnvelopeText

  const MAX_PAYLOAD := 128 * 1024 * 1024

  // ---------------------------------------------------------------------------
  // Hexadecimal
  // ---------------------------------------------------------------------------

  function Digit(n: nat): char
    requires n < 16
  {
    if n < 10 then (n + '0' as int) as char else (n - 10 + 'a' as int) as char
  }

  function HexDigit(c: char): Option<nat> {
    if '0' <= c <= '9' then Some(c as int - '0' as int)
    else if 'a' <= c <= 'f' then Some(c as int - 'a' as int + 10)
    else if 'A' <= c <= 'F' then Some(c as int - 'A' as int + 10)
    else None
  }

  function HexEncode(bytes: Bytes): string {
    if bytes == [] then "" else [Digit(bytes[0] / 16), Digit(bytes[0] % 16)] + HexEncode(bytes[1..])
  }

  function HexPairs(text: string): Option<Bytes>
    requires |text| % 2 == 0
  {
    if text == "" then Some([])
    else
      var high :- HexDigit(text[0]);
      var low :- HexDigit(text[1]);
      var rest :- HexPairs(text[2..]);
      Some([16 * high + low] + rest)
  }

  function HexDecode(text: string): Option<Bytes> {
    if |text| % 2 != 0 || |text| / 2 > MAX_PAYLOAD then None else HexPairs(text)
  }

  function Lower(c: char): char {
    if 'A' <= c <= 'F' then 'a' + (c - 'A') else c
  }

  function LowerCase(text: string): string {
    seq(|text|, i requires 0 <= i < |text| => Lower(text[i]))
  }

  predicate IsHexText(text: string) {
    forall i :: 0 <= i < |text| ==> HexDigit(text[i]).Some?
  }

  lemma DigitsReadBack()
    ensures forall n: nat | n < 16 :: HexDigit(Digit(n)) == Some(n) && Lower(Digit(n)) == Digit(n)
    ensures forall c | HexDigit(c).Some? :: HexDigit(c).value < 16 && Digit(HexDigit(c).value) == Lower(c)
  {
    forall n: nat | n < 16 ensures HexDigit(Digit(n)) == Some(n) && Lower(Digit(n)) == Digit(n) {
    }
    forall c | HexDigit(c).Some? ensures HexDigit(c).value < 16 && Digit(HexDigit(c).value) == Lower(c) {
      DigitOfCharacter(c);
    }
  }

  lemma DigitOfCharacter(c: char)
    requires HexDigit(c).Some?
    ensures HexDigit(c).value < 16 && Digit(HexDigit(c).value) == Lower(c)
  {
  }

  lemma HexStep(bytes: Bytes)
    requires bytes != []
    ensures |HexEncode(bytes)| == 2 + |HexEncode(bytes[1..])|
    ensures HexEncode(bytes)[0] == Digit(bytes[0] / 16) && HexEncode(bytes)[1] == Digit(bytes[0] % 16)
    ensures HexEncode(bytes)[2..] == HexEncode(bytes[1..])
    ensures forall i :: 2 <= i < |HexEncode(bytes)| ==> HexEncode(bytes)[i] == HexEncode(bytes[1..])[i - 2]
  {
  }

  lemma {:induction false} HexEncodeShape(bytes: Bytes)
    ensures |HexEncode(bytes)| == 2 * |bytes| && IsHexText(HexEncode(bytes))
    ensures LowerCase(HexEncode(bytes)) == HexEncode(bytes)
  {
    DigitsReadBack();
    hide HexDigit, Digit, Lower;
    if bytes != [] {
      HexEncodeShape(bytes[1..]);
      HexStep(bytes);
    }
  }

  lemma {:induction false} HexPairsReadBack(bytes: Bytes)
    ensures |HexEncode(bytes)| % 2 == 0 && HexPairs(HexEncode(bytes)) == Some(bytes)
  {
    HexEncodeShape(bytes);
    DigitsReadBack();
    hide HexDigit, Digit, Lower;
    if bytes != [] {
      HexPairsReadBack(bytes[1..]);
      HexStep(bytes);
      assert bytes == [bytes[0]] + bytes[1..];
    }
  }

  lemma SplitByte(high: nat, low: nat)
    requires high < 16 && low < 16
    ensures (16 * high + low) / 16 == high && (16 * high + low) % 16 == low
  {
  }

  lemma {:induction false} HexPairsAreLowerCased(text: string)
    requires |text| % 2 == 0 && HexPairs(text).Some?
    ensures HexEncode(HexPairs(text).value) == LowerCase(text) && |HexPairs(text).value| == |text| / 2
    ensures IsHexText(text)
  {
    DigitsReadBack();
    hide HexDigit, Digit, Lower;
    if text != "" {
      HexPairsAreLowerCased(text[2..]);
      var high, low := HexDigit(text[0]).value, HexDigit(text[1]).value;
      var bytes := HexPairs(text).value;
      SplitByte(high, low);
      HexStep(bytes);
      assert bytes[1..] == HexPairs(text[2..]).value;
      assert LowerCase(text) == [Lower(text[0]), Lower(text[1])] + LowerCase(text[2..]);
      assert forall i :: 2 <= i < |text| ==> text[i] == text[2..][i - 2];
    }
  }

  lemma {:induction false} HexPairsIgnoresCase(text: string)
    requires |text| % 2 == 0
    ensures |LowerCase(text)| % 2 == 0 && HexPairs(LowerCase(text)) == HexPairs(text)
  {
    if text != "" {
      HexPairsIgnoresCase(text[2..]);
      assert LowerCase(text)[2..] == LowerCase(text[2..]);
    }
  }

  /** A text decodes to `bytes` exactly when, but for letter case, it is their encoding. */
  lemma HexDecodesIff(text: string, bytes: Bytes)
    ensures HexDecode(text) == Some(bytes) <==> LowerCase(text) == HexEncode(bytes) && |bytes| <= MAX_PAYLOAD
  {
    HexEncodeShape(bytes);
    if HexDecode(text) == Some(bytes) {
      HexPairsAreLowerCased(text);
    }
    if LowerCase(text) == HexEncode(bytes) && |bytes| <= MAX_PAYLOAD {
      assert |text| == |LowerCase(text)|;
      HexPairsReadBack(bytes);
      HexPairsIgnoresCase(text);
    }
  }

  lemma HexEncodeIsInjective(a: Bytes, b: Bytes)
    requires HexEncode(a) == HexEncode(b)
    ensures a == b
  {
    HexPairsReadBack(a);
    HexPairsReadBack(b);
  }

  // ---------------------------------------------------------------------------
  // Checksum
  // ---------------------------------------------------------------------------

  const OFFSET_BASIS: u64 := 1469598103934665603
  const PRIME: u64 := 1099511628211
  /** The multiplicative inverse of the prime modulo 2^64. */
  const PRIME_INVERSE: u64 := 14886173955864302971

  function Absorb(value: u64, b: byte): u64 {
    XorFits(value, b);
    Mul64(Xor(value, b), PRIME)
  }

  lemma XorFits(value: u64, b: byte)
    ensures Xor(value, b) < TWO64
  {
    Pow2Of64();
    XorBound(value, b, 64);
  }

  function ChecksumFrom(value: u64, bytes: Bytes): u64
    decreases |bytes|
  {
    if bytes == [] then value else ChecksumFrom(Absorb(value, bytes[0]), bytes[1..])
  }

  function Checksum(bytes: Bytes): u64 {
    ChecksumFrom(OFFSET_BASIS, bytes)
  }

  lemma InverseUndoes(x: nat, p: nat, inverse: nat, k: nat, modulus: nat)
    requires x < modulus && p * inverse == 1 + k * modulus
    ensures (x * p % modulus) * inverse % modulus == x
  {
    var q, r := x * p / modulus, x * p % modulus;
    assert x * p == q * modulus + r;
    assert r * inverse == x * (p * inverse) - q * inverse * modulus;
    assert x * (1 + k * modulus) == x + x * k * modulus;
    DivModUnique(r * inverse, modulus, x * k - q * inverse, x);
  }

  /** Multiplying by an odd constant modulo 2^64 loses nothing. */
  lemma PrimeMultiplyUndone(x: u64)
    ensures Mul64(Mul64(x, PRIME), PRIME_INVERSE) == x
  {
    InverseUndoes(x, PRIME, PRIME_INVERSE, PRIME * PRIME_INVERSE / TWO64, TWO64);
  }

  lemma AbsorbIsInjective(v: u64, w: u64, a: byte, b: byte)
    requires Absorb(v, a) == Absorb(w, b)
    ensures a == b ==> v == w
    ensures v == w ==> a == b
  {
    XorFits(v, a);
    XorFits(w, b);
    PrimeMultiplyUndone(Xor(v, a));
    PrimeMultiplyUndone(Xor(w, b));
    if a == b {
      XorTwice(v, a);
      XorTwice(w, a);
    }
    if v == w {
      XorInjective(v, a, b);
    }
  }

  lemma {:induction false} ChecksumKeepsDifferences(v: u64, w: u64, bytes: Bytes)
    requires v != w
    ensures ChecksumFrom(v, bytes) != ChecksumFrom(w, bytes)
    decreases |bytes|
  {
    hide Absorb;
    if bytes != [] {
      if Absorb(v, bytes[0]) == Absorb(w, bytes[0]) {
        AbsorbIsInjective(v, w, bytes[0], bytes[0]);
      }
      ChecksumKeepsDifferences(Absorb(v, bytes[0]), Absorb(w, bytes[0]), bytes[1..]);
    }
  }

  lemma {:induction false} DamageFrom(v: u64, bytes: Bytes, i: nat, b: byte)
    requires i < |bytes| && bytes[i] != b
    ensures ChecksumFrom(v, bytes[i := b]) != ChecksumFrom(v, bytes)
    decreases |bytes|
  {
    hide Absorb;
    var damaged := bytes[i := b];
    if i == 0 {
      if Absorb(v, bytes[0]) == Absorb(v, b) {
        AbsorbIsInjective(v, v, bytes[0], b);
      }
      assert damaged[1..] == bytes[1..];
      ChecksumKeepsDifferences(Absorb(v, bytes[0]), Absorb(v, b), bytes[1..]);
    } else {
      DamageFrom(Absorb(v, bytes[0]), bytes[1..], i - 1, b);
      assert damaged[1..] == bytes[1..][i - 1 := b];
    }
  }

  /** Changing exactly one byte, wherever it is, changes the checksum. */
  lemma OneDamagedByteIsCaught(bytes: Bytes, i: nat, b: byte)
    requires i < |bytes| && bytes[i] != b
    ensures Checksum(bytes[i := b]) != Checksum(bytes)
  {
    DamageFrom(OFFSET_BASIS, bytes, i, b);
  }

  /** Sixteen hexadecimal digits, most significant first. */
  function HexWord(value: nat, width: nat): string {
    if width == 0 then "" else HexWord(value / 16, width - 1) + [Digit(value % 16)]
  }

  function Hex64(value: u64): string {
    HexWord(value, 16)
  }

  function WordOf(text: string): Option<nat> {
    if text == "" then Some(0)
    else
      var digit :- HexDigit(text[|text| - 1]);
      var high :- WordOf(text[..|text| - 1]);
      Some(16 * high + digit)
  }

  lemma FourBits(width: nat)
    ensures Pow2(4 * (width + 1)) == 16 * Pow2(4 * width)
  {
    assert Pow2(4) == 16;
    Pow2Sum(4, 4 * width);
  }

  lemma Sixteenth(value: nat, bound: nat)
    requires value < 16 * bound
    ensures value / 16 < bound && 16 * (value / 16) + value % 16 == value
  {
  }

  lemma OneMoreDigit(text: string, high: nat, digit: nat)
    requires IsHexText(text) && WordOf(text) == Some(high) && digit < 16
    ensures IsHexText(text + [Digit(digit)]) && WordOf(text + [Digit(digit)]) == Some(16 * high + digit)
  {
    DigitsReadBack();
    hide HexDigit, Digit, Lower;
    assert (text + [Digit(digit)])[..|text|] == text;
  }

  lemma {:induction false} HexWordReadsBack(value: nat, width: nat)
    requires value < Pow2(4 * width)
    ensures |HexWord(value, width)| == width && IsHexText(HexWord(value, width))
    ensures WordOf(HexWord(value, width)) == Some(value)
  {
    if width > 0 {
      FourBits(width - 1);
      hide Pow2, HexDigit, Digit, Lower, WordOf, IsHexText;
      Sixteenth(value, Pow2(4 * (width - 1)));
      HexWordReadsBack(value / 16, width - 1);
      OneMoreDigit(HexWord(value / 16, width - 1), value / 16, value % 16);
    }
  }

  lemma Hex64IsInjective(v: u64, w: u64)
    ensures |Hex64(v)| == 16 && IsHexText(Hex64(v))
    ensures Hex64(v) == Hex64(w) ==> v == w
  {
    Pow2Of64();
    HexWordReadsBack(v, 16);
    HexWordReadsBack(w, 16);
  }

  // ---------------------------------------------------------------------------
  // The envelope
  // ---------------------------------------------------------------------------

  const SCHEMA := "tradebot.backtest-state"
  const SNAPSHOT_VERSION: u64 := 13
  const ENCODING := "hex-v1"

  datatype Envelope = Envelope(schema: string, version: u64, encoding: string, checksum: string, payload: string)

  function FirstFields(e: Envelope): seq<string> {
    ["{\n  ", "schema", ": ", e.schema, ",\n  ", "version", ": " + Decimal(e.version) + ",\n  "]
  }

  function LastFields(e: Envelope): seq<string> {
    ["payloadEncoding", ": ", e.encoding, ",\n  ", "payloadChecksum", ": ", e.checksum, ",\n  ",
     "payload", ": ", e.payload, "\n}\n"]
  }

  function Segments(e: Envelope): (segments: seq<string>)
    ensures |segments| == 19
  {
    FirstFields(e) + LastFields(e)
  }

  /** The only accepted text for these fields: one field a line, in this order, strings in quotation marks. */
  function Canonical(e: Envelope): string {
    Quoted(Segments(e))
  }

  function ParseEnvelope(json: string): Option<Envelope> {
    var schema :- JsonString(json, "schema");
    var version :- JsonVersion(json);
    var encoding :- JsonString(json, "payloadEncoding");
    var checksum :- JsonString(json, "payloadChecksum");
    var payload :- JsonString(json, "payload");
    Some(Envelope(schema, version, encoding, checksum, payload))
  }

  datatype LoadError = SizeLimit | Malformed | NotCanonical | UnsupportedSchema | UnsupportedVersion
    | UnsupportedEncoding | Corrupt | InvalidPayload | LacksExtendedState | InvalidState | ConfigurationMismatch

  function LoadBytes(json: string): Result<Bytes, LoadError> {
    if |json| > MAX_PAYLOAD * 2 + 4096 then Err(SizeLimit)
    else
      match ParseEnvelope(json)
      case None => Err(Malformed)
      case Some(e) =>
        if json != Canonical(e) then Err(NotCanonical)
        else if e.schema != SCHEMA then Err(UnsupportedSchema)
        else if e.version != SNAPSHOT_VERSION then Err(UnsupportedVersion)
        else if e.encoding != ENCODING then Err(UnsupportedEncoding)
        else
          match HexDecode(e.payload)
          case None => Err(Corrupt)
          case Some(bytes) => if Hex64(Checksum(bytes)) != e.checksum then Err(Corrupt) else Ok(bytes)
  }

  /** The envelope of the current version around a payload text. */
  function CurrentEnvelope(checksum: string, payload: string): Envelope {
    Envelope(SCHEMA, SNAPSHOT_VERSION, ENCODING, checksum, payload)
  }

  function FileText(bytes: Bytes): string {
    Canonical(CurrentEnvelope(Hex64(Checksum(bytes)), HexEncode(bytes)))
  }

  predicate IsKey(s: string) {
    s == "schema" || s == "version" || s == "payloadEncoding" || s == "payloadChecksum" || s == "payload"
  }

  lemma HexIsNoKey(text: string)
    requires IsHexText(text)
    ensures Unquoted(text) && !IsKey(text)
  {
    assert HexDigit('s') == None && HexDigit('v') == None && HexDigit('p') == None && HexDigit(QUOTE) == None;
    hide HexDigit;
    if |text| > 0 {
      assert HexDigit(text[0]).Some?;
    }
    forall i | 0 <= i < |text| ensures text[i] != QUOTE {
      assert HexDigit(text[i]).Some?;
    }
  }

  ghost predicate HexFields(e: Envelope) {
    e.schema == SCHEMA && e.encoding == ENCODING && IsHexText(e.checksum) && IsHexText(e.payload)
  }

  lemma FieldsAreUnquoted(e: Envelope)
    requires HexFields(e)
    ensures |FirstFields(e)| == 7 && forall i | 0 <= i < 7 :: Unquoted(FirstFields(e)[i])
    ensures |LastFields(e)| == 12 && forall i | 0 <= i < 12 :: Unquoted(LastFields(e)[i])
  {
    HexIsNoKey(e.checksum);
    HexIsNoKey(e.payload);
    hide IsHexText, Decimal;
    assert Unquoted(": " + Decimal(e.version) + ",\n  ") by {
      DecimalReadsBack(e.version);
    }
  }

  lemma FirstKeys(e: Envelope)
    requires HexFields(e)
    ensures var first := FirstFields(e);
            && |first| == 7 && first[1] == "schema" && first[5] == "version"
            && (forall i | 0 <= i < 7 :: IsKey(first[i]) ==> i == 1 || i == 5)
  {
    hide IsHexText, Decimal;
    var first := FirstFields(e);
    assert first[6][0] == ':';
  }

  lemma LastKeys(e: Envelope)
    requires HexFields(e)
    ensures var last := LastFields(e);
            && |last| == 12 && last[0] == "payloadEncoding" && last[4] == "payloadChecksum" && last[8] == "payload"
            && (forall i | 0 <= i < 12 :: IsKey(last[i]) ==> i == 0 || i == 4 || i == 8)
  {
    HexIsNoKey(e.checksum);
    HexIsNoKey(e.payload);
    hide IsHexText;
  }

  lemma SegmentsAreUnquoted(e: Envelope)
    requires HexFields(e)
    ensures forall i | 0 <= i < 19 :: Unquoted(Segments(e)[i])
  {
    FieldsAreUnquoted(e);
    hide Unquoted, IsKey, FirstFields, LastFields;
  }

  /** The keys stand at five places and nowhere else. */
  lemma KeysStand(e: Envelope)
    requires HexFields(e)
    ensures var segments := Segments(e);
            && segments[1] == "schema" && segments[5] == "version" && segments[7] == "payloadEncoding"
            && segments[11] == "payloadChecksum" && segments[15] == "payload"
            && (forall i :: 0 <= i < 19 && IsKey(segments[i]) ==> i == 1 || i == 5 || i == 7 || i == 11 || i == 15)
  {
    FirstKeys(e);
    LastKeys(e);
    hide Unquoted, IsKey, FirstFields, LastFields;
  }

  lemma KeysAreOnly(e: Envelope)
    requires HexFields(e)
    ensures OnlyAt(Segments(e), "schema", 1) && OnlyAt(Segments(e), "version", 5)
    ensures OnlyAt(Segments(e), "payloadEncoding", 7) && OnlyAt(Segments(e), "payloadChecksum", 11)
    ensures OnlyAt(Segments(e), "payload", 15)
  {
    KeysStand(e);
    assert IsKey("schema") && IsKey("version") && IsKey("payloadEncoding") && IsKey("payloadChecksum")
        && IsKey("payload");
    assert "schema" != "version" && "schema" != "payload" && |"payloadEncoding"| == |"payloadChecksum"| == 15;
    assert "version" != "payload" && "payloadEncoding"[7] != "payloadChecksum"[7];
    assert |Segments(e)| == 19;
    hide Segments, IsKey;
  }

  lemma ValuesStand(e: Envelope)
    ensures var segments := Segments(e);
            && segments[2] == segments[8] == segments[12] == segments[16] == ": "
            && segments[3] == e.schema && segments[6] == ": " + Decimal(e.version) + ",\n  "
            && segments[9] == e.encoding && segments[13] == e.checksum && segments[17] == e.payload
  {
    hide Decimal;
  }

  /** The loader's searches find every field of the text the saver writes. */
  lemma CanonicalParses(e: Envelope)
    requires HexFields(e)
    ensures ParseEnvelope(Canonical(e)) == Some(e)
  {
    SegmentsAreUnquoted(e);
    KeysAreOnly(e);
    ValuesStand(e);
    assert |Segments(e)| == 19;
    assert Unquoted("schema") && Unquoted("payloadEncoding") && Unquoted("payloadChecksum") && Unquoted("payload");
    hide Segments, OnlyAt, Unquoted, Quoted, JsonString, JsonVersion, Decimal, HexFields;
    ReadsStringField(Segments(e), "schema", 1);
    ReadsVersionField(Segments(e), 5, e.version);
    ReadsStringField(Segments(e), "payloadEncoding", 7);
    ReadsStringField(Segments(e), "payloadChecksum", 11);
    ReadsStringField(Segments(e), "payload", 15);
  }

  lemma {:induction false} QuotedLength(segments: seq<string>, n: nat)
    requires forall i :: 0 <= i < |segments| ==> |segments[i]| <= n
    ensures |Quoted(segments)| <= |segments| * (n + 1)
  {
    if |segments| > 1 {
      QuotedLength(segments[1..], n);
    }
  }

  lemma CanonicalLength(checksum: string, payload: string)
    requires |checksum| == 16
    ensures |Canonical(CurrentEnvelope(checksum, payload))| <= |payload| + 4096
  {
    var e := CurrentEnvelope(checksum, payload);
    var segments := Segments(e);
    QuotedSplits(segments, 17);
    ValuesStand(e);
    assert segments[17..] == [payload, "\n}\n"];
    assert Quoted([payload, "\n}\n"]) == payload + ("\"" + Quoted(["\n}\n"])) by {
      assert [payload, "\n}\n"][1..] == ["\n}\n"];
    }
    assert |Quoted(segments[17..])| == |payload| + 4;
    assert Decimal(13) == "13";
    assert segments[..17] == FirstFields(e) + LastFields(e)[..10];
    QuotedLength(segments[..17], 30);
  }

  /**
   A file is accepted exactly when it is the current envelope around some hexadecimal text of the
   payload and that payload's own checksum.
   */
  lemma AcceptedIff(json: string, bytes: Bytes)
    ensures LoadBytes(json) == Ok(bytes) <==>
              exists text :: HexDecode(text) == Some(bytes)
                          && json == Canonical(CurrentEnvelope(Hex64(Checksum(bytes)), text))
  {
    hide HexDecode, ParseEnvelope, Canonical, Checksum, Hex64;
    if LoadBytes(json) == Ok(bytes) {
      var e := ParseEnvelope(json).value;
      assert e == CurrentEnvelope(Hex64(Checksum(bytes)), e.payload);
    }
    if text :| HexDecode(text) == Some(bytes) && json == Canonical(CurrentEnvelope(Hex64(Checksum(bytes)), text)) {
      EnvelopeLoads(bytes, text, bytes);
    }
  }

  /** What loading makes of the current envelope when the checksum and the payload text need not match. */
  lemma EnvelopeLoads(summed: Bytes, text: string, bytes: Bytes)
    requires HexDecode(text) == Some(bytes)
    ensures LoadBytes(Canonical(CurrentEnvelope(Hex64(Checksum(summed)), text))) ==
              if Checksum(bytes) == Checksum(summed) then Ok(bytes) else Err(Corrupt)
  {
    var e := CurrentEnvelope(Hex64(Checksum(summed)), text);
    assert IsHexText(text) && |text| <= 2 * MAX_PAYLOAD by {
      HexPairsAreLowerCased(text);
    }
    Hex64IsInjective(Checksum(bytes), Checksum(summed));
    Hex64IsInjective(Checksum(summed), Checksum(bytes));
    hide HexDecode, ParseEnvelope, Canonical, Checksum, Hex64, IsHexText;
    CanonicalParses(e);
    CanonicalLength(e.checksum, text);
  }

  /** Hexadecimal and the envelope lose nothing. */
  lemma SavedFileLoads(bytes: Bytes)
    ensures LoadBytes(FileText(bytes)) == Ok(bytes) <==> |bytes| <= MAX_PAYLOAD
  {
    HexDecodesIff(HexEncode(bytes), bytes);
    HexEncodeShape(bytes);
    if |bytes| <= MAX_PAYLOAD {
      hide HexDecode, Checksum, Canonical;
      EnvelopeLoads(bytes, HexEncode(bytes), bytes);
    } else if LoadBytes(FileText(bytes)) == Ok(bytes) {
      AcceptedIff(FileText(bytes), bytes);
      var text :| HexDecode(text) == Some(bytes) && FileText(bytes) ==
          Canonical(CurrentEnvelope(Hex64(Checksum(bytes)), text));
      HexDecodesIff(text, bytes);
    }
  }

  /** A payload that differs from the saved one in exactly one byte is refused, however it is spelt. */
  lemma DamagedByteIsRefused(bytes: Bytes, i: nat, b: byte, text: string)
    requires i < |bytes| && b != bytes[i] && HexDecode(text) == Some(bytes[i := b])
    ensures LoadBytes(Canonical(CurrentEnvelope(Hex64(Checksum(bytes)), text))) == Err(Corrupt)
  {
    OneDamagedByteIsCaught(bytes, i, b);
    hide HexDecode, Checksum, Canonical;
    EnvelopeLoads(bytes, text, bytes[i := b]);
  }

  lemma {:induction false} HexAt(bytes: Bytes, k: nat)
    requires k < |bytes|
    ensures 2 * k + 1 < |HexEncode(bytes)|
    ensures HexEncode(bytes)[2 * k] == Digit(bytes[k] / 16) && HexEncode(bytes)[2 * k + 1] == Digit(bytes[k] % 16)
  {
    hide Digit;
    HexStep(bytes);
    if k > 0 {
      HexAt(bytes[1..], k - 1);
    }
  }

  lemma SameDigitsSameByte(a: Bytes, b: Bytes, k: nat)
    requires k < |a| == |b|
    requires |HexEncode(a)| == |HexEncode(b)| == 2 * |a|
    requires HexEncode(a)[2 * k] == HexEncode(b)[2 * k] && HexEncode(a)[2 * k + 1] == HexEncode(b)[2 * k + 1]
    ensures a[k] == b[k]
  {
    HexAt(a, k);
    HexAt(b, k);
    DigitsReadBack();
    hide Digit, HexDigit;
    var high, low := a[k] / 16, a[k] % 16;
    assert HexDigit(Digit(high)) == Some(high) && HexDigit(Digit(low)) == Some(low);
    assert HexDigit(Digit(b[k] / 16)) == Some(b[k] / 16) && HexDigit(Digit(b[k] % 16)) == Some(b[k] % 16);
  }

  /** Changing one character of the payload text leaves the bytes alone or changes exactly one of them. */
  lemma OneCharacterOneByte(bytes: Bytes, j: nat, c: char, other: Bytes)
    requires j < |HexEncode(bytes)| && HexDecode(HexEncode(bytes)[j := c]) == Some(other)
    ensures j / 2 < |bytes| && |other| == |bytes| && other == bytes[j / 2 := other[j / 2]]
    ensures other == bytes <==> Lower(c) == HexEncode(bytes)[j]
  {
    HexDecodesIff(HexEncode(bytes)[j := c], other);
    HexEncodeShape(bytes);
    HexEncodeShape(other);
    var text, changed := HexEncode(bytes), HexEncode(other);
    assert changed == LowerCase(text[j := c]);
    hide HexEncode, Lower, HexDigit, HexDecode;
    assert LowerCase(text)[j] == text[j] == Lower(text[j]);
    forall i | 0 <= i < |text| && i != j ensures changed[i] == text[i] {
      assert LowerCase(text)[i] == Lower(text[i]);
    }
    assert changed[j] == Lower(c);
    forall k | 0 <= k < |bytes| && k != j / 2 ensures other[k] == bytes[k] {
      SameDigitsSameByte(other, bytes, k);
    }
    if Lower(c) == text[j] {
      SameDigitsSameByte(other, bytes, j / 2);
      assert other == bytes;
    }
  }

  /** The constant texts around the checksum and the payload. */
  lemma CanonicalShape(checksum: string, payload: string)
    ensures var e := CurrentEnvelope("", "");
            var head, middle := Quoted(Segments(e)[..13]) + "\"", "\"" + Quoted(Segments(e)[14..17]) + "\"";
            Canonical(CurrentEnvelope(checksum, payload)) == head + checksum + middle + payload + "\"\n}\n"
  {
    var e := CurrentEnvelope(checksum, payload);
    var s, t := Segments(e), Segments(CurrentEnvelope("", ""));
    assert s[..13] == t[..13] && s[14..17] == t[14..17];
    assert s[17..] == [payload, "\n}\n"] && s[13] == checksum;
    hide Segments;
    QuotedSplits(s, 13);
    var back := s[13..];
    assert back[1..] == s[14..] && back[0] == checksum;
    assert Quoted(back) == checksum + ("\"" + Quoted(s[14..]));
    QuotedSplits(s[14..], 3);
    assert s[14..][..3] == s[14..17] && s[14..][3..] == s[17..];
    assert Quoted(s[17..]) == payload + ("\"" + "\n}\n") by {
      assert s[17..][1..] == ["\n}\n"];
    }
    hide Quoted;
    var a, b := Quoted(t[..13]), Quoted(t[14..17]);
    Regroup(a, checksum, b, payload, "\"", "\n}\n");
    assert "\"" + "\n}\n" == "\"\n}\n";
  }

  lemma Regroup(a: string, c: string, b: string, p: string, quote: string, end: string)
    ensures a + quote + (c + (quote + (b + quote + (p + (quote + end)))))
         == (a + quote) + c + (quote + b + quote) + p + (quote + end)
  {
  }

  lemma PayloadIsDetermined(checksum: string, other: string, payload: string, text: string)
    requires |checksum| == |other|
    requires Canonical(CurrentEnvelope(checksum, payload)) == Canonical(CurrentEnvelope(other, text))
    ensures checksum == other && payload == text
  {
    CanonicalShape(checksum, payload);
    CanonicalShape(other, text);
    hide Canonical, Quoted;
    var e := CurrentEnvelope("", "");
    hide Segments;
    var head, middle := Quoted(Segments(e)[..13]) + "\"", "\"" + Quoted(Segments(e)[14..17]) + "\"";
    SameParts(head, checksum, other, middle, payload, text, "\"\n}\n");
  }

  lemma SameParts(a: string, c: string, d: string, b: string, p: string, q: string, end: string)
    requires |c| == |d| && a + c + b + p + end == a + d + b + q + end
    ensures c == d && p == q
  {
    var x, y := a + c + b + p + end, a + d + b + q + end;
    assert |p| == |q|;
    assert x[|a|..|a| + |c|] == c && y[|a|..|a| + |c|] == d;
    var k := |a| + |c| + |b|;
    assert x[k..k + |p|] == p && y[k..k + |p|] == q;
  }

  /**
   Changing one character of the payload text in a saved file, to anything at all, makes the file
   unloadable, unless only the case of a hexadecimal digit changed.
   */
  lemma OneDamagedCharacter(bytes: Bytes, j: nat, c: char)
    requires |bytes| <= MAX_PAYLOAD && j < |HexEncode(bytes)|
    ensures var loaded := LoadBytes(Canonical(CurrentEnvelope(Hex64(Checksum(bytes)), HexEncode(bytes)[j := c])));
            if Lower(c) == HexEncode(bytes)[j] then loaded == Ok(bytes) else loaded.Err?
  {
    var text := HexEncode(bytes)[j := c];
    var file := Canonical(CurrentEnvelope(Hex64(Checksum(bytes)), text));
    hide HexDecode, Canonical, Checksum, HexEncode, Lower, Hex64, LoadBytes;
    HexEncodeShape(bytes);
    if Lower(c) == HexEncode(bytes)[j] {
      assert LowerCase(text) == HexEncode(bytes) by {
        LowerOneCharacter(HexEncode(bytes), j, c);
      }
      HexDecodesIff(text, bytes);
      EnvelopeLoads(bytes, text, bytes);
    } else if LoadBytes(file).Ok? {
      var other := LoadBytes(file).value;
      AcceptedIff(file, other);
      var spelt :| HexDecode(spelt) == Some(other) && file ==
          Canonical(CurrentEnvelope(Hex64(Checksum(other)), spelt));
      Hex64IsInjective(Checksum(bytes), Checksum(other));
      Hex64IsInjective(Checksum(other), Checksum(bytes));
      PayloadIsDetermined(Hex64(Checksum(bytes)), Hex64(Checksum(other)), text, spelt);
      OneCharacterOneByte(bytes, j, c, other);
      OneDamagedByteIsCaught(bytes, j / 2, other[j / 2]);
    }
  }

  lemma LowerOneCharacter(text: string, j: nat, c: char)
    requires j < |text| && LowerCase(text) == text && Lower(c) == text[j]
    ensures LowerCase(text[j := c]) == text
  {
    hide Lower;
    forall i | 0 <= i < |text| ensures LowerCase(text[j := c])[i] == text[i] {
      assert LowerCase(text)[i] == Lower(text[i]);
    }
  }
}
