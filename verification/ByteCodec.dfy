/**
 The primitive fields of the snapshot format. `PutX(v, rest)` is the encoding of `v` followed by
 `rest`; `GetX(bytes)` takes one value off the front and leaves the rest. Numbers are
 little-endian, strings and lists are preceded by their length.
 */
module ByteCodec {
  import opened Wrappers
  import opened MachineWords
  import opened SortedKeys

  const MAX_ITEMS := 1_000_000
  const MAX_STRING := 1_048_576
  const TWO31 := 0x8000_0000

  type u32 = x: int | 0 <= x < TWO32
  type i32 = x: int | -TWO31 <= x < TWO31

  /** A double-precision number as the 64 bits that store it. */
  type Double = u64

  type Bytes = seq<byte>

  datatype Parsed<+T> = Parsed(value: T, rest: Bytes)

  /** The exponent bits are not all ones: the number is neither infinite nor a NaN. */
  predicate IsFinite(bits: Double) {
    bits / 0x10_0000_0000_0000 % 2048 != 2047
  }

  // ---------------------------------------------------------------------------
  // Integers
  // ---------------------------------------------------------------------------

  function Pow256(n: nat): (p: nat)
    ensures p > 0
  {
    if n == 0 then 1 else 256 * Pow256(n - 1)
  }

  function PutInt(width: nat, v: nat, rest: Bytes): Bytes {
    if width == 0 then rest else [v % 256] + PutInt(width - 1, v / 256, rest)
  }

  function IntAt(width: nat, bytes: Bytes): nat
    requires |bytes| >= width
  {
    if width == 0 then 0 else Above(bytes[0], IntAt(width - 1, bytes[1..]))
  }

  /** The number with lowest byte `low` and the bytes of `high` above it. */
  function Above(low: byte, high: nat): nat {
    low + 256 * high
  }

  lemma AboveSplits(low: byte, high: nat)
    ensures Above(low, high) % 256 == low && Above(low, high) / 256 == high
  {
  }

  lemma AboveFits(low: byte, high: nat, bound: nat)
    requires high < bound
    ensures Above(low, high) < 256 * bound
  {
  }

  lemma {:induction false} IntPutThenGet(width: nat, v: nat, rest: Bytes)
    requires v < Pow256(width)
    ensures |PutInt(width, v, rest)| == width + |rest|
    ensures IntAt(width, PutInt(width, v, rest)) == v
    ensures PutInt(width, v, rest)[width..] == rest
  {
    if width > 0 {
      IntPutThenGet(width - 1, v / 256, rest);
      var all := PutInt(width, v, rest);
      assert all[1..] == PutInt(width - 1, v / 256, rest);
      assert all[width..] == all[1..][width - 1..];
    }
  }

  lemma {:induction false} IntGetThenPut(width: nat, bytes: Bytes)
    requires |bytes| >= width
    ensures IntAt(width, bytes) < Pow256(width)
    ensures PutInt(width, IntAt(width, bytes), bytes[width..]) == bytes
  {
    if width > 0 {
      IntGetThenPut(width - 1, bytes[1..]);
      AboveSplits(bytes[0], IntAt(width - 1, bytes[1..]));
      hide Above;
      assert bytes[1..][width - 1..] == bytes[width..];
      assert bytes == [bytes[0]] + bytes[1..];
      AboveFits(bytes[0], IntAt(width - 1, bytes[1..]), Pow256(width - 1));
    }
  }

  lemma Widths()
    ensures Pow256(1) == 256 && Pow256(4) == TWO32 && Pow256(8) == TWO64
  {
    assert Pow256(2) == 0x1_0000;
    assert Pow256(3) == 0x100_0000;
    assert Pow256(4) == TWO32;
    assert Pow256(5) == 0x100 * TWO32;
    assert Pow256(6) == 0x1_0000 * TWO32;
    assert Pow256(7) == 0x100_0000 * TWO32;
  }

  // ---------------------------------------------------------------------------
  // Fields
  // ---------------------------------------------------------------------------

  function PutU8(v: byte, rest: Bytes): Bytes {
    [v] + rest
  }

  function GetU8(bytes: Bytes): Option<Parsed<byte>> {
    if bytes == [] then None else Some(Parsed(bytes[0], bytes[1..]))
  }

  function PutU32(v: u32, rest: Bytes): Bytes {
    PutInt(4, v, rest)
  }

  function GetU32(bytes: Bytes): Option<Parsed<u32>> {
    if |bytes| < 4 then None
    else
      Widths();
      IntGetThenPut(4, bytes);
      Some(Parsed(IntAt(4, bytes), bytes[4..]))
  }

  function PutU64(v: u64, rest: Bytes): Bytes {
    PutInt(8, v, rest)
  }

  function GetU64(bytes: Bytes): Option<Parsed<u64>> {
    if |bytes| < 8 then None
    else
      Widths();
      IntGetThenPut(8, bytes);
      Some(Parsed(IntAt(8, bytes), bytes[8..]))
  }

  /** The two's complement bits of a signed number. */
  function BitsOf(v: i64): u64 {
    if v < 0 then v + TWO64 else v
  }

  function SignedOf(bits: u64): i64 {
    if bits < TWO63 then bits else bits - TWO64
  }

  function PutI64(v: i64, rest: Bytes): Bytes {
    PutU64(BitsOf(v), rest)
  }

  function GetI64(bytes: Bytes): Option<Parsed<i64>> {
    var bits :- GetU64(bytes);
    Some(Parsed(SignedOf(bits.value), bits.rest))
  }

  function BitsOf32(v: i32): u32 {
    if v < 0 then v + TWO32 else v
  }

  function SignedOf32(bits: u32): i32 {
    if bits < TWO31 then bits else bits - TWO32
  }

  function PutI32(v: i32, rest: Bytes): Bytes {
    PutU32(BitsOf32(v), rest)
  }

  function GetI32(bytes: Bytes): Option<Parsed<i32>> {
    var bits :- GetU32(bytes);
    Some(Parsed(SignedOf32(bits.value), bits.rest))
  }

  function PutBool(v: bool, rest: Bytes): Bytes {
    PutU8(if v then 1 else 0, rest)
  }

  function GetBool(bytes: Bytes): Option<Parsed<bool>> {
    var v :- GetU8(bytes);
    if v.value > 1 then None else Some(Parsed(v.value != 0, v.rest))
  }

  function PutNumber(v: Double, rest: Bytes): Bytes {
    PutU64(v, rest)
  }

  function GetNumber(bytes: Bytes): Option<Parsed<Double>> {
    var v :- GetU64(bytes);
    if IsFinite(v.value) then Some(v) else None
  }

  /** A length as a 64-bit word; no container in memory exceeds it. */
  function SizeWord(n: nat): u64 {
    if n < TWO64 then n else MAX_U64
  }

  /** The bytes of a string; a character of the source is one byte. */
  function TextBytes(s: string): Bytes {
    seq(|s|, i requires 0 <= i < |s| => s[i] as int % 256)
  }

  function BytesText(bytes: Bytes): string {
    seq(|bytes|, i requires 0 <= i < |bytes| => bytes[i] as char)
  }

  predicate IsText(s: string) {
    |s| <= MAX_STRING && forall i :: 0 <= i < |s| ==> s[i] as int < 256
  }

  function PutText(s: string, rest: Bytes): Bytes {
    PutU64(SizeWord(|s|), TextBytes(s) + rest)
  }

  function GetText(bytes: Bytes): Option<Parsed<string>> {
    var size :- GetU64(bytes);
    if size.value > MAX_STRING || size.value > |size.rest| then None
    else Some(Parsed(BytesText(size.rest[..size.value]), size.rest[size.value..]))
  }

  function PutCount(n: nat, rest: Bytes): Bytes {
    PutU64(SizeWord(n), rest)
  }

  function GetCount(bytes: Bytes): Option<Parsed<nat>> {
    var n :- GetU64(bytes);
    if n.value > MAX_ITEMS then None else Some(n)
  }

  // ---------------------------------------------------------------------------
  // Every field can be read back, and nothing else is accepted
  // ---------------------------------------------------------------------------

  lemma U8ReadsBack(v: byte, rest: Bytes)
    ensures GetU8(PutU8(v, rest)) == Some(Parsed(v, rest))
  {
    assert ([v] + rest)[1..] == rest;
  }

  lemma U8IsCanonical(bytes: Bytes)
    requires GetU8(bytes).Some?
    ensures var p := GetU8(bytes).value; PutU8(p.value, p.rest) == bytes
  {
    assert bytes == [bytes[0]] + bytes[1..];
  }

  lemma U32ReadsBack(v: u32, rest: Bytes)
    ensures GetU32(PutU32(v, rest)) == Some(Parsed(v, rest))
  {
    Widths();
    IntPutThenGet(4, v, rest);
  }

  lemma U32IsCanonical(bytes: Bytes)
    requires GetU32(bytes).Some?
    ensures var p := GetU32(bytes).value; PutU32(p.value, p.rest) == bytes
  {
    Widths();
    IntGetThenPut(4, bytes);
  }

  lemma U64ReadsBack(v: u64, rest: Bytes)
    ensures GetU64(PutU64(v, rest)) == Some(Parsed(v, rest))
  {
    Widths();
    IntPutThenGet(8, v, rest);
  }

  lemma U64IsCanonical(bytes: Bytes)
    requires GetU64(bytes).Some?
    ensures var p := GetU64(bytes).value; PutU64(p.value, p.rest) == bytes
  {
    Widths();
    IntGetThenPut(8, bytes);
  }

  lemma SignedReadsBack(v: i64, rest: Bytes)
    ensures GetI64(PutI64(v, rest)) == Some(Parsed(v, rest))
  {
    hide GetU64, PutU64;
    U64ReadsBack(BitsOf(v), rest);
  }

  lemma SignedIsCanonical(bytes: Bytes)
    requires GetI64(bytes).Some?
    ensures var p := GetI64(bytes).value; PutI64(p.value, p.rest) == bytes
  {
    hide GetU64, PutU64;
    U64IsCanonical(bytes);
  }

  lemma Signed32ReadsBack(v: i32, rest: Bytes)
    ensures GetI32(PutI32(v, rest)) == Some(Parsed(v, rest))
  {
    hide GetU32, PutU32;
    U32ReadsBack(BitsOf32(v), rest);
  }

  lemma Signed32IsCanonical(bytes: Bytes)
    requires GetI32(bytes).Some?
    ensures var p := GetI32(bytes).value; PutI32(p.value, p.rest) == bytes
  {
    hide GetU32, PutU32, BitsOf32, SignedOf32;
    U32IsCanonical(bytes);
    SignedBits32(GetU32(bytes).value.value);
  }

  lemma SignedBits32(bits: u32)
    ensures BitsOf32(SignedOf32(bits)) == bits
  {
  }

  lemma BoolReadsBack(v: bool, rest: Bytes)
    ensures GetBool(PutBool(v, rest)) == Some(Parsed(v, rest))
  {
    hide GetU8, PutU8;
    U8ReadsBack(if v then 1 else 0, rest);
  }

  lemma BoolIsCanonical(bytes: Bytes)
    requires GetBool(bytes).Some?
    ensures var p := GetBool(bytes).value; PutBool(p.value, p.rest) == bytes
  {
    hide GetU8, PutU8;
    U8IsCanonical(bytes);
  }

  lemma NumberReadsBack(v: Double, rest: Bytes)
    ensures GetNumber(PutNumber(v, rest)) == if IsFinite(v) then Some(Parsed(v, rest)) else None
  {
    hide GetU64, PutU64, IsFinite;
    U64ReadsBack(v, rest);
  }

  lemma NumberIsCanonical(bytes: Bytes)
    requires GetNumber(bytes).Some?
    ensures var p := GetNumber(bytes).value; IsFinite(p.value) && PutNumber(p.value, p.rest) == bytes
  {
    hide GetU64, PutU64, IsFinite;
    U64IsCanonical(bytes);
  }

  lemma TextReadsBack(s: string, rest: Bytes)
    requires IsText(s)
    ensures GetText(PutText(s, rest)) == Some(Parsed(s, rest))
  {
    hide GetU64, PutU64, TextBytes, BytesText, IsText;
    assert |s| <= MAX_STRING && BytesText(TextBytes(s)) == s && |TextBytes(s)| == |s| by {
      TextOfBytes(s);
    }
    var after := TextBytes(s) + rest;
    U64ReadsBack(|s|, after);
    assert after[..|s|] == TextBytes(s) && after[|s|..] == rest;
  }

  lemma TextOfBytes(s: string)
    requires IsText(s)
    ensures |s| <= MAX_STRING && BytesText(TextBytes(s)) == s && |TextBytes(s)| == |s|
  {
  }

  lemma TextIsCanonical(bytes: Bytes)
    requires GetText(bytes).Some?
    ensures var p := GetText(bytes).value; IsText(p.value) && PutText(p.value, p.rest) == bytes
  {
    hide GetU64, PutU64, PutText, IsText;
    U64IsCanonical(bytes);
    var size := GetU64(bytes).value;
    var text, after := size.rest[..size.value], size.rest[size.value..];
    TextFromBytes(text, after);
    assert text + after == size.rest;
  }

  lemma TextFromBytes(text: Bytes, after: Bytes)
    requires |text| <= MAX_STRING
    ensures IsText(BytesText(text)) && PutText(BytesText(text), after) == PutU64(|text|, text + after)
  {
    hide PutU64;
    assert TextBytes(BytesText(text)) == text;
  }

  lemma CountReadsBack(n: nat, rest: Bytes)
    requires n <= MAX_ITEMS
    ensures GetCount(PutCount(n, rest)) == Some(Parsed(n, rest))
  {
    hide GetU64, PutU64;
    U64ReadsBack(n, rest);
  }

  lemma CountIsCanonical(bytes: Bytes)
    requires GetCount(bytes).Some?
    ensures var p := GetCount(bytes).value; p.value <= MAX_ITEMS && PutCount(p.value, p.rest) == bytes
  {
    hide GetU64, PutU64;
    U64IsCanonical(bytes);
  }

  /** Reading undoes writing, for every value the reader's limits allow and whatever follows it. */
  ghost predicate FieldsReadBack() {
    && (forall v: byte, rest :: GetU8(PutU8(v, rest)) == Some(Parsed(v, rest)))
    && (forall v: u32, rest :: GetU32(PutU32(v, rest)) == Some(Parsed(v, rest)))
    && (forall v: u64, rest :: GetU64(PutU64(v, rest)) == Some(Parsed(v, rest)))
    && (forall v: i64, rest :: GetI64(PutI64(v, rest)) == Some(Parsed(v, rest)))
    && (forall v: i32, rest :: GetI32(PutI32(v, rest)) == Some(Parsed(v, rest)))
    && (forall v: bool, rest :: GetBool(PutBool(v, rest)) == Some(Parsed(v, rest)))
    && (forall v: Double, rest :: GetNumber(PutNumber(v, rest)) == if IsFinite(v) then Some(Parsed(v, rest)) else None)
    && (forall s: string, rest | IsText(s) :: GetText(PutText(s, rest)) == Some(Parsed(s, rest)))
    && (forall n: nat, rest | n <= MAX_ITEMS :: GetCount(PutCount(n, rest)) == Some(Parsed(n, rest)))
  }

  /** Writing undoes reading: bytes that are accepted at all are the encoding of the value read. */
  ghost predicate FieldsAreCanonical() {
    && (forall bytes :: GetU8(bytes).Some? ==> var p := GetU8(bytes).value; PutU8(p.value, p.rest) == bytes)
    && (forall bytes :: GetU32(bytes).Some? ==> var p := GetU32(bytes).value; PutU32(p.value, p.rest) == bytes)
    && (forall bytes :: GetU64(bytes).Some? ==> var p := GetU64(bytes).value; PutU64(p.value, p.rest) == bytes)
    && (forall bytes :: GetI64(bytes).Some? ==> var p := GetI64(bytes).value; PutI64(p.value, p.rest) == bytes)
    && (forall bytes :: GetI32(bytes).Some? ==> var p := GetI32(bytes).value; PutI32(p.value, p.rest) == bytes)
    && (forall bytes :: GetBool(bytes).Some? ==> var p := GetBool(bytes).value; PutBool(p.value, p.rest) == bytes)
    && (forall bytes :: GetNumber(bytes).Some? ==>
           var p := GetNumber(bytes).value; IsFinite(p.value) && PutNumber(p.value, p.rest) == bytes)
    && (forall bytes :: GetText(bytes).Some? ==>
           var p := GetText(bytes).value; IsText(p.value) && PutText(p.value, p.rest) == bytes)
    && (forall bytes :: GetCount(bytes).Some? ==>
           var p := GetCount(bytes).value; p.value <= MAX_ITEMS && PutCount(p.value, p.rest) == bytes)
  }

  lemma FieldsAgree()
    ensures FieldsReadBack() && FieldsAreCanonical()
  {
    hide GetU8, PutU8, GetU32, PutU32, GetU64, PutU64, GetI64, PutI64, GetI32, PutI32, GetBool, PutBool;
    hide GetNumber, PutNumber;
    hide GetText, PutText, GetCount, PutCount, IsText, IsFinite;
    forall v: byte, rest ensures GetU8(PutU8(v, rest)) == Some(Parsed(v, rest)) {
      U8ReadsBack(v, rest);
    }
    forall bytes | GetU8(bytes).Some? ensures var p := GetU8(bytes).value; PutU8(p.value, p.rest) == bytes {
      U8IsCanonical(bytes);
    }
    forall v: u32, rest ensures GetU32(PutU32(v, rest)) == Some(Parsed(v, rest)) {
      U32ReadsBack(v, rest);
    }
    forall bytes | GetU32(bytes).Some? ensures var p := GetU32(bytes).value; PutU32(p.value, p.rest) == bytes {
      U32IsCanonical(bytes);
    }
    forall v: u64, rest ensures GetU64(PutU64(v, rest)) == Some(Parsed(v, rest)) {
      U64ReadsBack(v, rest);
    }
    forall bytes | GetU64(bytes).Some? ensures var p := GetU64(bytes).value; PutU64(p.value, p.rest) == bytes {
      U64IsCanonical(bytes);
    }
    forall v: i64, rest ensures GetI64(PutI64(v, rest)) == Some(Parsed(v, rest)) {
      SignedReadsBack(v, rest);
    }
    forall bytes | GetI64(bytes).Some? ensures var p := GetI64(bytes).value; PutI64(p.value, p.rest) == bytes {
      SignedIsCanonical(bytes);
    }
    forall v: i32, rest ensures GetI32(PutI32(v, rest)) == Some(Parsed(v, rest)) {
      Signed32ReadsBack(v, rest);
    }
    forall bytes | GetI32(bytes).Some? ensures var p := GetI32(bytes).value; PutI32(p.value, p.rest) == bytes {
      Signed32IsCanonical(bytes);
    }
    forall v: bool, rest ensures GetBool(PutBool(v, rest)) == Some(Parsed(v, rest)) {
      BoolReadsBack(v, rest);
    }
    forall bytes | GetBool(bytes).Some? ensures var p := GetBool(bytes).value; PutBool(p.value, p.rest) == bytes {
      BoolIsCanonical(bytes);
    }
    forall v: Double, rest
      ensures GetNumber(PutNumber(v, rest)) == if IsFinite(v) then Some(Parsed(v, rest)) else None
    {
      NumberReadsBack(v, rest);
    }
    forall bytes | GetNumber(bytes).Some?
      ensures var p := GetNumber(bytes).value; IsFinite(p.value) && PutNumber(p.value, p.rest) == bytes
    {
      NumberIsCanonical(bytes);
    }
    forall s: string, rest | IsText(s) ensures GetText(PutText(s, rest)) == Some(Parsed(s, rest)) {
      TextReadsBack(s, rest);
    }
    forall bytes | GetText(bytes).Some?
      ensures var p := GetText(bytes).value; IsText(p.value) && PutText(p.value, p.rest) == bytes
    {
      TextIsCanonical(bytes);
    }
    forall n: nat, rest | n <= MAX_ITEMS ensures GetCount(PutCount(n, rest)) == Some(Parsed(n, rest)) {
      CountReadsBack(n, rest);
    }
    forall bytes | GetCount(bytes).Some?
      ensures var p := GetCount(bytes).value; p.value <= MAX_ITEMS && PutCount(p.value, p.rest) == bytes
    {
      CountIsCanonical(bytes);
    }
  }

  // ---------------------------------------------------------------------------
  // Lists
  // ---------------------------------------------------------------------------

  type Put<!T> = (T, Bytes) -> Bytes
  type Get<!T> = Bytes -> Option<Parsed<T>>

  ghost predicate Lawful<T(!new)>(put: Put<T>, get: Get<T>, fits: T -> bool) {
    && (forall v, rest | fits(v) :: get(put(v, rest)) == Some(Parsed(v, rest)))
    && (forall bytes | get(bytes).Some? :: Canonical(put, get, fits, bytes))
  }

  ghost predicate Canonical<T(!new)>(put: Put<T>, get: Get<T>, fits: T -> bool, bytes: Bytes)
    requires get(bytes).Some?
  {
    fits(get(bytes).value.value) && put(get(bytes).value.value, get(bytes).value.rest) == bytes
  }

  function PutItems<T>(items: seq<T>, put: Put<T>, rest: Bytes): Bytes {
    if items == [] then rest else put(items[0], PutItems(items[1..], put, rest))
  }

  function GetItems<T>(n: nat, get: Get<T>, soFar: seq<T>, bytes: Bytes): Option<Parsed<seq<T>>> {
    if n == 0 then Some(Parsed(soFar, bytes))
    else
      var item :- get(bytes);
      GetItems(n - 1, get, soFar + [item.value], item.rest)
  }

  lemma ItemsStep<T>(n: nat, get: Get<T>, soFar: seq<T>, bytes: Bytes)
    ensures GetItems(n, get, soFar, bytes) ==
              if n == 0 then Some(Parsed(soFar, bytes))
              else if get(bytes) == None then None
              else GetItems(n - 1, get, soFar + [get(bytes).value.value], get(bytes).value.rest)
  {
  }

  function PutList<T>(items: seq<T>, put: Put<T>, rest: Bytes): Bytes {
    PutCount(|items|, PutItems(items, put, rest))
  }

  function GetList<T>(get: Get<T>, bytes: Bytes): Option<Parsed<seq<T>>> {
    var n :- GetCount(bytes);
    GetItems(n.value, get, [], n.rest)
  }

  ghost predicate FitsList<T>(items: seq<T>, fits: T -> bool) {
    |items| <= MAX_ITEMS && forall i :: 0 <= i < |items| ==> fits(items[i])
  }

  lemma {:induction false} ItemsReadBack<T(!new)>(items: seq<T>, put: Put<T>, get: Get<T>, fits: T -> bool,
      soFar: seq<T>, rest: Bytes)
    requires Lawful(put, get, fits)
    requires forall i :: 0 <= i < |items| ==> fits(items[i])
    ensures GetItems(|items|, get, soFar, PutItems(items, put, rest)) == Some(Parsed(soFar + items, rest))
  {
    if items == [] {
      assert soFar + items == soFar;
    } else {
      var after := PutItems(items[1..], put, rest);
      assert get(put(items[0], after)) == Some(Parsed(items[0], after));
      hide Lawful;
      ItemsReadBack(items[1..], put, get, fits, soFar + [items[0]], rest);
      assert soFar + [items[0]] + items[1..] == soFar + items;
    }
  }

  lemma {:induction false} ItemsAreCanonical<T(!new)>(n: nat, put: Put<T>, get: Get<T>, fits: T -> bool,
      soFar: seq<T>, bytes: Bytes)
    requires Lawful(put, get, fits) && GetItems(n, get, soFar, bytes).Some?
    ensures var p := GetItems(n, get, soFar, bytes).value;
            && |p.value| == |soFar| + n && soFar <= p.value
            && (forall i :: |soFar| <= i < |p.value| ==> fits(p.value[i]))
            && PutItems(p.value[|soFar|..], put, p.rest) == bytes
  {
    var p := GetItems(n, get, soFar, bytes).value;
    if n == 0 {
      assert p.value[|soFar|..] == [];
    } else {
      var item := get(bytes).value;
      assert Canonical(put, get, fits, bytes);
      var more := soFar + [item.value];
      ItemsAreCanonical(n - 1, put, get, fits, more, item.rest);
      assert p.value[|soFar|] == more[|soFar|] == item.value;
      assert p.value[|soFar|..] == [item.value] + p.value[|more|..];
    }
  }

  lemma ListReadsBack<T(!new)>(items: seq<T>, put: Put<T>, get: Get<T>, fits: T -> bool, rest: Bytes)
    requires Lawful(put, get, fits) && FitsList(items, fits)
    ensures GetList(get, PutList(items, put, rest)) == Some(Parsed(items, rest))
  {
    hide Lawful, GetCount, PutCount, GetItems, PutItems;
    CountReadsBack(|items|, PutItems(items, put, rest));
    ItemsReadBack(items, put, get, fits, [], rest);
    assert [] + items == items;
  }

  lemma ListIsCanonical<T(!new)>(put: Put<T>, get: Get<T>, fits: T -> bool, bytes: Bytes)
    requires Lawful(put, get, fits) && GetList(get, bytes).Some?
    ensures var p := GetList(get, bytes).value; FitsList(p.value, fits) && PutList(p.value, put, p.rest) == bytes
  {
    hide Lawful, GetCount, PutCount, GetItems, PutItems;
    CountIsCanonical(bytes);
    var n := GetCount(bytes).value;
    ItemsAreCanonical(n.value, put, get, fits, [], n.rest);
    var p := GetList(get, bytes).value;
    assert p.value[0..] == p.value;
  }

  /** A list longer than the limit is written, but not read. */
  lemma LongListIsRefused<T>(items: seq<T>, put: Put<T>, get: Get<T>, rest: Bytes)
    requires |items| > MAX_ITEMS
    ensures GetList(get, PutList(items, put, rest)) == None
  {
    hide GetU64, PutU64, GetItems, PutItems;
    U64ReadsBack(SizeWord(|items|), PutItems(items, put, rest));
  }

  // ---------------------------------------------------------------------------
  // Tables: lists of entries with distinct, non-empty keys
  // ---------------------------------------------------------------------------

  datatype Row<+V> = Row(key: string, value: V)

  function GetEntries<V>(n: nat, get: Get<Row<V>>, soFar: map<string, V>, bytes: Bytes):
      Option<Parsed<map<string, V>>> {
    if n == 0 then Some(Parsed(soFar, bytes))
    else
      var entry :- get(bytes);
      if entry.value.key == "" || entry.value.key in soFar then None
      else GetEntries(n - 1, get, soFar[entry.value.key := entry.value.value], entry.rest)
  }

  function GetTable<V>(get: Get<Row<V>>, bytes: Bytes): Option<Parsed<map<string, V>>> {
    var n :- GetCount(bytes);
    GetEntries(n.value, get, map[], n.rest)
  }

  function EntriesOf<V>(table: map<string, V>, order: seq<string>): seq<Row<V>>
    requires forall k :: k in order ==> k in table
  {
    seq(|order|, i requires 0 <= i < |order| => assert order[i] in order; Row(order[i], table[order[i]]))
  }

  function Extended<V>(table: map<string, V>, entries: seq<Row<V>>): map<string, V>
    decreases |entries|
  {
    if entries == [] then table else Extended(table[entries[0].key := entries[0].value], entries[1..])
  }

  ghost predicate FreshKeys<V>(entries: seq<Row<V>>, table: map<string, V>) {
    && (forall i :: 0 <= i < |entries| ==> entries[i].key != "" && entries[i].key !in table)
    && (forall i, j :: 0 <= i < j < |entries| ==> entries[i].key != entries[j].key)
  }

  lemma {:induction false} EntriesReadBack<V(!new)>(entries: seq<Row<V>>, put: Put<Row<V>>, get: Get<Row<V>>,
      fits: Row<V> -> bool, soFar: map<string, V>, rest: Bytes)
    requires Lawful(put, get, fits) && FreshKeys(entries, soFar)
    requires forall i :: 0 <= i < |entries| ==> fits(entries[i])
    ensures GetEntries(|entries|, get, soFar, PutItems(entries, put, rest)) == Some(Parsed(Extended(soFar,
        entries), rest))
  {
    if entries != [] {
      var more := soFar[entries[0].key := entries[0].value];
      assert FreshKeys(entries[1..], more) by {
        forall i | 0 <= i < |entries| - 1 ensures entries[1..][i].key != "" && entries[1..][i].key !in more {
          assert entries[1..][i] == entries[i + 1];
        }
      }
      EntriesReadBack(entries[1..], put, get, fits, more, rest);
    }
  }

  lemma {:induction false} ExtendedByOrder<V>(soFar: map<string, V>, table: map<string, V>, order: seq<string>)
    requires forall k :: k in order ==> k in table
    ensures Extended(soFar, EntriesOf(table, order)) == soFar + map k | k in table && k in order :: table[k]
    decreases |order|
  {
    if order != [] {
      var more := soFar[order[0] := table[order[0]]];
      assert order[0] in order && order == [order[0]] + order[1..];
      assert EntriesOf(table, order)[1..] == EntriesOf(table, order[1..]);
      ExtendedByOrder(more, table, order[1..]);
    }
  }

  /** Tables are written by ascending key, so that equal tables have equal encodings. */
  function PutTable<V>(table: map<string, V>, put: Put<Row<V>>, rest: Bytes): Bytes {
    PutList(EntriesOf(table, Sorted(table.Keys)), put, rest)
  }

  ghost predicate FitsTable<V>(table: map<string, V>, fits: Row<V> -> bool) {
    |table| <= MAX_ITEMS && forall k :: k in table ==> k != "" && fits(Row(k, table[k]))
  }

  lemma SortedRows<V(!new)>(table: map<string, V>, fits: Row<V> -> bool)
    requires FitsTable(table, fits)
    ensures forall k :: k in Sorted(table.Keys) <==> k in table
    ensures var rows := EntriesOf(table, Sorted(table.Keys));
            && |rows| == |table| && FreshKeys(rows, map[])
            && (forall i :: 0 <= i < |rows| ==> fits(rows[i]))
            && Extended(map[], rows) == table
  {
    hide Extended, Sorted;
    var order := Sorted(table.Keys);
    SortedIsAscending(table.Keys);
    ListedRows(table, order, fits);
    ExtendedByOrder(map[], table, order);
    assert map[] + (map k | k in table && k in order :: table[k]) == table;
  }

  lemma ListedRows<V(!new)>(table: map<string, V>, order: seq<string>, fits: Row<V> -> bool)
    requires FitsTable(table, fits) && Lists(order, table.Keys) && |order| == |table.Keys|
    ensures var rows := EntriesOf(table, order);
            && |rows| == |table| && FreshKeys(rows, map[])
            && (forall i :: 0 <= i < |rows| ==> fits(rows[i]))
  {
    var rows := EntriesOf(table, order);
    assert |table| == |table.Keys|;
    forall i | 0 <= i < |rows| ensures rows[i].key != "" && fits(rows[i]) {
      assert order[i] in order;
    }
  }

  lemma TableReadsBack<V(!new)>(table: map<string, V>, put: Put<Row<V>>, get: Get<Row<V>>, fits: Row<V> ->
      bool, rest: Bytes)
    requires Lawful(put, get, fits) && FitsTable(table, fits)
    ensures GetTable(get, PutTable(table, put, rest)) == Some(Parsed(table, rest))
  {
    hide Lawful, GetCount, PutCount, GetEntries, PutItems, Extended, FreshKeys, EntriesOf;
    SortedRows(table, fits);
    var rows := EntriesOf(table, Sorted(table.Keys));
    CountReadsBack(|rows|, PutItems(rows, put, rest));
    EntriesReadBack(rows, put, get, fits, map[], rest);
  }

  lemma {:induction false} EntriesFit<V(!new)>(n: nat, put: Put<Row<V>>, get: Get<Row<V>>,
      fits: Row<V> -> bool, soFar: map<string, V>, bytes: Bytes)
    requires Lawful(put, get, fits) && GetEntries(n, get, soFar, bytes).Some?
    requires forall k :: k in soFar ==> k != "" && fits(Row(k, soFar[k]))
    ensures var table := GetEntries(n, get, soFar, bytes).value.value;
            && |table| == |soFar| + n
            && (forall k :: k in table ==> k != "" && fits(Row(k, table[k])))
  {
    if n > 0 {
      var entry := get(bytes).value;
      assert Canonical(put, get, fits, bytes);
      EntriesFit(n - 1, put, get, fits, soFar[entry.value.key := entry.value.value], entry.rest);
    }
  }

  /** A table that was read has distinct non-empty keys and is within the limits. */
  lemma ReadTableFits<V(!new)>(put: Put<Row<V>>, get: Get<Row<V>>, fits: Row<V> -> bool, bytes: Bytes)
    requires Lawful(put, get, fits) && GetTable(get, bytes).Some?
    ensures FitsTable(GetTable(get, bytes).value.value, fits)
  {
    hide GetCount, PutCount, Lawful, GetEntries;
    CountIsCanonical(bytes);
    var n := GetCount(bytes).value;
    EntriesFit(n.value, put, get, fits, map[], n.rest);
  }
}
