/** Base64 with the URL-safe alphabet and no padding, section 5 of RFC 4648. */
module Base64Url {
  import opened MachineWords

  /** The alphabet of table 2 in section 5 of RFC 4648. */
  function Symbol(n: nat): char
    requires n < 64
  {
    if n < 26 then (n + 'A' as int) as char
    else if n < 52 then (n - 26 + 'a' as int) as char
    else if n < 62 then (n - 52 + '0' as int) as char
    else if n == 62 then '-'
    else '_'
  }

  predicate IsSymbol(c: char) {
    'A' <= c <= 'Z' || 'a' <= c <= 'z' || '0' <= c <= '9' || c == '-' || c == '_'
  }

  lemma SymbolIsInjective(m: nat, n: nat)
    requires m < 64 && n < 64 && Symbol(m) == Symbol(n)
    ensures m == n
  {
  }

  lemma SymbolsAreSymbols()
    ensures forall n: nat | n < 64 :: IsSymbol(Symbol(n))
  {
  }

  /** Three bytes as one 24-bit block. */
  function Block(a: byte, b: byte, c: byte): nat {
    a * 0x1_0000 + b * 0x100 + c
  }

  /** The `k`-th group of six bits of a block, from the top. */
  function Sextet(block: nat, k: nat): (s: nat)
    requires k < 4
    ensures s < 64
  {
    block / [0x4_0000, 0x1000, 0x40, 1][k] % 64
  }

  function Encode(bytes: seq<byte>): string {
    if |bytes| == 0 then ""
    else if |bytes| == 1 then
      var block := Block(bytes[0], 0, 0);
      [Symbol(Sextet(block, 0)), Symbol(Sextet(block, 1))]
    else if |bytes| == 2 then
      var block := Block(bytes[0], bytes[1], 0);
      [Symbol(Sextet(block, 0)), Symbol(Sextet(block, 1)), Symbol(Sextet(block, 2))]
    else
      var block := Block(bytes[0], bytes[1], bytes[2]);
      [Symbol(Sextet(block, 0)), Symbol(Sextet(block, 1)), Symbol(Sextet(block, 2)), Symbol(Sextet(block, 3))]
      + Encode(bytes[3..])
  }

  function EncodedLength(n: nat): nat {
    n / 3 * 4 + if n % 3 == 0 then 0 else n % 3 + 1
  }

  /** Every group of three bytes becomes four symbols; one or two bytes left over become two or three. */
  lemma {:induction false} EncodeShape(bytes: seq<byte>)
    ensures |Encode(bytes)| == EncodedLength(|bytes|)
    ensures forall i :: 0 <= i < |Encode(bytes)| ==> IsSymbol(Encode(bytes)[i])
  {
    SymbolsAreSymbols();
    hide Symbol, IsSymbol, Sextet;
    if |bytes| >= 3 {
      EncodeShape(bytes[3..]);
    }
  }

  lemma SextetsRebuild(x: nat)
    requires x < 0x100_0000
    ensures x == Sextet(x, 0) * 0x4_0000 + Sextet(x, 1) * 0x1000 + Sextet(x, 2) * 0x40 + Sextet(x, 3)
  {
    DivDiv(x, 0x40, 0x40);
    DivDiv(x, 0x1000, 0x40);
    var q1, q2, q3 := x / 0x40, x / 0x1000, x / 0x4_0000;
    assert x == 0x40 * q1 + x % 0x40;
    assert q1 == 0x40 * q2 + q1 % 0x40;
    assert q2 == 0x40 * q3 + q2 % 0x40;
    assert q3 < 0x40;
  }

  lemma SextetsDetermineBlock(x: nat, y: nat)
    requires x < 0x100_0000 && y < 0x100_0000
    requires forall k: nat | k < 4 :: Sextet(x, k) == Sextet(y, k)
    ensures x == y
  {
    SextetsRebuild(x);
    SextetsRebuild(y);
    assert Sextet(x, 0) == Sextet(y, 0) && Sextet(x, 1) == Sextet(y, 1);
    assert Sextet(x, 2) == Sextet(y, 2) && Sextet(x, 3) == Sextet(y, 3);
  }

  lemma BlockIsInjective(a: byte, b: byte, c: byte, d: byte, e: byte, f: byte)
    requires Block(a, b, c) == Block(d, e, f)
    ensures a == d && b == e && c == f
  {
  }

  /** With fewer bytes the low bits of the block are zero, so the first symbols determine it. */
  lemma ShortBlocks(a: byte, b: byte)
    ensures Sextet(Block(a, 0, 0), 2) == 0 && Sextet(Block(a, 0, 0), 3) == 0 && Sextet(Block(a, b, 0), 3) == 0
  {
    DivModUnique(Block(a, 0, 0), 0x40, a * 0x400, 0);
    DivModUnique(a * 0x400, 0x40, a * 0x10, 0);
    DivModUnique(Block(a, b, 0), 0x40, a * 0x400 + b * 4, 0);
  }

  lemma SameSymbolsSameBlock(x: nat, y: nat)
    requires x < 0x100_0000 && y < 0x100_0000
    requires forall k: nat | k < 4 :: Symbol(Sextet(x, k)) == Symbol(Sextet(y, k))
    ensures x == y
  {
    forall k: nat | k < 4 ensures Sextet(x, k) == Sextet(y, k) {
      SymbolIsInjective(Sextet(x, k), Sextet(y, k));
    }
    hide Sextet;
    SextetsDetermineBlock(x, y);
  }

  lemma FourSymbols(a: byte, b: byte, c: byte, d: byte, e: byte, f: byte)
    requires forall k: nat | k < 4 :: Symbol(Sextet(Block(a, b, c), k)) == Symbol(Sextet(Block(d, e, f), k))
    ensures a == d && b == e && c == f
  {
    hide Symbol, Sextet;
    SameSymbolsSameBlock(Block(a, b, c), Block(d, e, f));
    BlockIsInjective(a, b, c, d, e, f);
  }

  /** Different byte strings of one length have different encodings. */
  lemma {:induction false} EncodeIsInjective(x: seq<byte>, y: seq<byte>)
    requires |x| == |y| && Encode(x) == Encode(y)
    ensures x == y
  {
    hide Symbol, Sextet, Block;
    var s, t := Encode(x), Encode(y);
    if |x| == 1 {
      ShortBlocks(x[0], 0);
      ShortBlocks(y[0], 0);
      assert s[0] == t[0] && s[1] == t[1];
      FourSymbols(x[0], 0, 0, y[0], 0, 0);
    } else if |x| == 2 {
      ShortBlocks(x[0], x[1]);
      ShortBlocks(y[0], y[1]);
      assert s[0] == t[0] && s[1] == t[1] && s[2] == t[2];
      FourSymbols(x[0], x[1], 0, y[0], y[1], 0);
    } else if |x| > 2 {
      assert s[0] == t[0] && s[1] == t[1] && s[2] == t[2] && s[3] == t[3];
      FourSymbols(x[0], x[1], x[2], y[0], y[1], y[2]);
      assert s[4..] == Encode(x[3..]) && t[4..] == Encode(y[3..]);
      EncodeIsInjective(x[3..], y[3..]);
      assert x == [x[0], x[1], x[2]] + x[3..] && y == [y[0], y[1], y[2]] + y[3..];
    }
  }

  // ---------------------------------------------------------------------------
  // Reading an encoding back
  // ---------------------------------------------------------------------------

  const CAPITALS := "ABCDEFGHIJKLMNOPQRSTUVWXYZ"
  const SMALL_LETTERS := "abcdefghijklmnopqrstuvwxyz"
  const ALPHABET := CAPITALS + SMALL_LETTERS + "0123456789-_"

  lemma LettersInOrder(n: nat)
    requires n < 26
    ensures CAPITALS[n] as int == 'A' as int + n && SMALL_LETTERS[n] as int == 'a' as int + n
  {
  }

  /** Each symbol is the character at its value's place in the alphabet. */
  lemma SymbolIsInAlphabet(n: nat)
    requires n < 64
    ensures |ALPHABET| == 64 && Symbol(n) == ALPHABET[n]
  {
    if n < 26 {
      LettersInOrder(n);
    } else if n < 52 {
      LettersInOrder(n - 26);
    } else {
      assert ALPHABET[n] == "0123456789-_"[n - 52];
    }
  }

  /** The value of a symbol: its place in the alphabet. */
  function ValueOf(c: char): int {
    if 'A' <= c <= 'Z' then c as int - 'A' as int
    else if 'a' <= c <= 'z' then c as int - 'a' as int + 26
    else if '0' <= c <= '9' then c as int - '0' as int + 52
    else if c == '-' then 62
    else 63
  }

  /** The number whose digits to base 64 are the symbols, behind the digits of `above`. */
  function ReadSymbols(above: int, text: string): int
    decreases |text|
  {
    if text == "" then above else ReadSymbols(above * 64 + ValueOf(text[0]), text[1..])
  }

  /** The number whose digits to base 256 are the bytes, behind the digits of `above`. */
  function ReadBytes(above: int, bytes: seq<byte>): int
    decreases |bytes|
  {
    if bytes == [] then above
    else
      var low: int := bytes[0];
      ReadBytes(above * 256 + low, bytes[1..])
  }

  lemma SymbolHasValue(n: nat)
    requires n < 64
    ensures ValueOf(Symbol(n)) == n
  {
  }

  lemma FourSymbolsRead(above: int, block: nat, rest: string)
    requires block < 0x100_0000
    ensures var symbols := [Symbol(Sextet(block, 0)), Symbol(Sextet(block, 1)), Symbol(Sextet(block, 2)),
                            Symbol(Sextet(block, 3))];
            ReadSymbols(above, symbols + rest) == ReadSymbols(above * 0x100_0000 + block, rest)
  {
    var a, b, c, d := Sextet(block, 0), Sextet(block, 1), Sextet(block, 2), Sextet(block, 3);
    SextetsRebuild(block);
    SymbolHasValue(a);
    SymbolHasValue(b);
    SymbolHasValue(c);
    SymbolHasValue(d);
    hide Symbol, Sextet, ValueOf;
    var text := [Symbol(a), Symbol(b), Symbol(c), Symbol(d)] + rest;
    assert text[1..] == [Symbol(b), Symbol(c), Symbol(d)] + rest;
    assert text[1..][1..] == [Symbol(c), Symbol(d)] + rest;
    assert text[1..][1..][1..] == [Symbol(d)] + rest;
    assert text[1..][1..][1..][1..] == rest;
    assert ReadSymbols(above, text) == ReadSymbols(above * 64 + a, text[1..]);
    assert ReadSymbols(above * 64 + a, text[1..]) == ReadSymbols((above * 64 + a) * 64 + b, text[1..][1..]);
  }

  lemma ThreeBytesRead(above: int, bytes: seq<byte>)
    requires |bytes| >= 3
    ensures ReadBytes(above, bytes) == ReadBytes(above * 0x100_0000 + Block(bytes[0], bytes[1], bytes[2]), bytes[3..])
  {
    assert bytes[1..][1..][1..] == bytes[3..];
    assert ReadBytes(above, bytes) == ReadBytes(above * 256 + bytes[0], bytes[1..]);
  }

  lemma ThreeSymbolsRead(above: int, a: char, b: char, c: char)
    ensures ReadSymbols(above, [a, b]) == (above * 64 + ValueOf(a)) * 64 + ValueOf(b)
    ensures ReadSymbols(above, [a, b, c]) == ((above * 64 + ValueOf(a)) * 64 + ValueOf(b)) * 64 + ValueOf(c)
  {
    hide ValueOf;
    OneSymbolRead(above * 64 + ValueOf(a), b);
    OneSymbolRead((above * 64 + ValueOf(a)) * 64 + ValueOf(b), c);
    assert [a, b][1..] == [b] && [a, b, c][1..] == [b, c] && [b, c][1..] == [c];
    assert ReadSymbols(above, [a, b]) == ReadSymbols(above * 64 + ValueOf(a), [b]);
    assert ReadSymbols(above, [a, b, c]) == ReadSymbols(above * 64 + ValueOf(a), [b, c]);
  }

  lemma OneSymbolRead(above: int, a: char)
    ensures ReadSymbols(above, [a]) == above * 64 + ValueOf(a)
  {
    assert [a][1..] == "";
  }

  lemma ShortSums(above: int, a: int, b: int, x: int, y: int, z: int)
    requires a * 0x1_0000 + b * 0x100 == x * 0x4_0000 + y * 0x1000 + z * 0x40
    ensures ((above * 64 + x) * 64 + y) * 64 + z == ((above * 256 + a) * 256 + b) * 4
    ensures b == 0 && z == 0 ==> (above * 64 + x) * 64 + y == (above * 256 + a) * 16
  {
  }

  lemma ShortBytesRead(above: int, a: byte, b: byte)
    ensures ReadBytes(above, [a]) == above * 256 + a
    ensures ReadBytes(above, [a, b]) == (above * 256 + a) * 256 + b
  {
    assert [a][1..] == [] && [a, b][1..] == [b] && [b][1..] == [];
    assert ReadBytes(above * 256 + a, [b]) == (above * 256 + a) * 256 + b;
  }

  /** The symbols of one or two bytes left over, and the numbers they stand for. */
  lemma ShortSymbols(a: byte, b: byte) returns (x: nat, y: nat, z: nat)
    ensures x < 64 && y < 64 && z < 64 && Encode([a, b]) == [Symbol(x), Symbol(y), Symbol(z)]
    ensures Block(a, b, 0) == x * 0x4_0000 + y * 0x1000 + z * 0x40
    ensures b == 0 ==> z == 0 && Encode([a]) == [Symbol(x), Symbol(y)]
  {
    var block := Block(a, b, 0);
    SextetsRebuild(block);
    ShortBlocks(a, b);
    hide Symbol, Block;
    x, y, z := Sextet(block, 0), Sextet(block, 1), Sextet(block, 2);
    hide Sextet;
  }

  lemma OneByteReads(above: int, a: byte)
    ensures ReadSymbols(above, Encode([a])) == ReadBytes(above, [a]) * 16
  {
    hide Symbol, ValueOf, Encode, ReadSymbols, ReadBytes;
    var x, y, z := ShortSymbols(a, 0);
    ShortSums(above, a, 0, x, y, 0);
    SymbolHasValue(x);
    SymbolHasValue(y);
    ThreeSymbolsRead(above, Symbol(x), Symbol(y), ' ');
    ShortBytesRead(above, a, 0);
  }

  lemma TwoBytesRead(above: int, a: byte, b: byte)
    ensures ReadSymbols(above, Encode([a, b])) == ReadBytes(above, [a, b]) * 4
  {
    hide Symbol, ValueOf, Encode, ReadSymbols, ReadBytes;
    var x, y, z := ShortSymbols(a, b);
    ShortSums(above, a, b, x, y, z);
    SymbolHasValue(x);
    SymbolHasValue(y);
    SymbolHasValue(z);
    ThreeSymbolsRead(above, Symbol(x), Symbol(y), Symbol(z));
    ShortBytesRead(above, a, b);
  }

  /** What the zero bits behind the last byte multiply the number by. */
  function Padding(length: nat): int {
    if length % 3 == 0 then 1 else if length % 3 == 1 then 16 else 4
  }

  lemma PaddingPeriod(length: nat)
    requires length >= 3
    ensures Padding(length) == Padding(length - 3)
  {
  }

  lemma EncodeGroup(bytes: seq<byte>)
    requires |bytes| >= 3
    ensures var block := Block(bytes[0], bytes[1], bytes[2]);
            Encode(bytes) == [Symbol(Sextet(block, 0)), Symbol(Sextet(block, 1)), Symbol(Sextet(block, 2)),
                              Symbol(Sextet(block, 3))] + Encode(bytes[3..])
  {
    hide Symbol, Sextet, Block;
  }

  lemma BlockFits(a: byte, b: byte, c: byte)
    ensures Block(a, b, c) < 0x100_0000
  {
  }

  lemma GroupRead(above: int, bytes: seq<byte>)
    requires |bytes| >= 3
    ensures var next := above * 0x100_0000 + Block(bytes[0], bytes[1], bytes[2]);
            && ReadSymbols(above, Encode(bytes)) == ReadSymbols(next, Encode(bytes[3..]))
            && ReadBytes(above, bytes) == ReadBytes(next, bytes[3..])
            && Padding(|bytes|) == Padding(|bytes[3..]|)
  {
    hide *;
    PaddingPeriod(|bytes|);
    BlockFits(bytes[0], bytes[1], bytes[2]);
    ThreeBytesRead(above, bytes);
    EncodeGroup(bytes);
    FourSymbolsRead(above, Block(bytes[0], bytes[1], bytes[2]), Encode(bytes[3..]));
  }

  /**
   An encoding reads back: as digits to base 64 its symbols are the number whose digits to base 256
   are the bytes, with four zero bits behind it when one byte was left over and two when two were.
   */
  lemma {:induction false} EncodingReadsBack(above: int, bytes: seq<byte>)
    ensures ReadSymbols(above, Encode(bytes)) == ReadBytes(above, bytes) * Padding(|bytes|)
    decreases |bytes|
  {
    if |bytes| == 0 {
    } else if |bytes| == 1 {
      OneByteReads(above, bytes[0]);
      hide Encode, ReadSymbols, ReadBytes;
      assert bytes == [bytes[0]];
    } else if |bytes| == 2 {
      TwoBytesRead(above, bytes[0], bytes[1]);
      hide Encode, ReadSymbols, ReadBytes;
      assert bytes == [bytes[0], bytes[1]];
    } else {
      hide Encode, ReadSymbols, ReadBytes, Padding, Block;
      GroupRead(above, bytes);
      EncodingReadsBack(above * 0x100_0000 + Block(bytes[0], bytes[1], bytes[2]), bytes[3..]);
    }
  }
}
