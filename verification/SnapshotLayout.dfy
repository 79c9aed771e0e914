/**
 The snapshot format as a flat list of fields: which fields a payload has, in which order, and the
 bytes of each. Encoding writes exactly those bytes.
 */
module SnapshotLayout {
  import opened Wrappers
  import opened MachineWords
  import opened SortedKeys
  import opened ByteCodec
  import opened SnapshotFormat
  import L = PortfolioLedger
  import S = LedgerSnapshot
  import E = SnapshotEnvelope
  import X = BitwiseXor
  import T = EnvelopeText

  // ---------------------------------------------------------------------------
  // Fields and their bytes
  // ---------------------------------------------------------------------------

  /** A byte, a number in some bytes, or a text behind its length in eight. */
  datatype Field = Octet(b: byte) | Word(width: nat, value: nat) | Chars(text: string)

  /** The lowest byte first. */
  function WordBytes(width: nat, value: nat): Bytes {
    seq(width, i requires 0 <= i < width => value / Pow256(i) % 256)
  }

  function FieldBytes(f: Field): Bytes {
    match f
    case Octet(b) => [b]
    case Word(width, value) => WordBytes(width, value)
    case Chars(text) =>
      WordBytes(8, LengthWord(|text|)) + seq(|text|, i requires 0 <= i < |text| => text[i] as int % 256)
  }

  /** The bytes of the fields, one after the other, in front of the rest. */
  function Spell(fields: seq<Field>, rest: Bytes): Bytes {
    if fields == [] then rest else FieldBytes(fields[0]) + Spell(fields[1..], rest)
  }

  function LengthWord(n: nat): nat {
    if n < 0x1_0000_0000_0000_0000 then n else 0xffff_ffff_ffff_ffff
  }

  function Unsigned(v: u64): Field {
    Word(8, v)
  }

  /** Two's complement. */
  function Signed(v: i64): Field {
    Word(8, if v >= 0 then v else v + 0x1_0000_0000_0000_0000)
  }

  function Signed32(v: i32): Field {
    Word(4, if v >= 0 then v else v + 0x1_0000_0000)
  }

  function Flag(v: bool): Field {
    Octet(if v then 1 else 0)
  }

  function Concat(lists: seq<seq<Field>>): seq<Field> {
    if lists == [] then [] else lists[0] + Concat(lists[1..])
  }

  /** The number of items, and then the fields of each. */
  function Counted(items: seq<seq<Field>>): seq<Field> {
    [Word(8, LengthWord(|items|))] + Concat(items)
  }

  function Each<T>(items: seq<T>, fields: T -> seq<Field>): seq<seq<Field>> {
    seq(|items|, i requires 0 <= i < |items| => fields(items[i]))
  }

  /** The rows of a table by ascending key. */
  function EachRow<V>(table: map<string, V>, fields: Row<V> -> seq<Field>): seq<seq<Field>> {
    var keys := Sorted(table.Keys);
    seq(|keys|, i requires 0 <= i < |keys| => assert keys[i] in keys; fields(Row(keys[i], table[keys[i]])))
  }

  // ---------------------------------------------------------------------------
  // The fields of each section
  // ---------------------------------------------------------------------------

  function PositionFields(p: S.PositionSnapshot): seq<Field> {
    [Chars(p.symbol), Signed(p.quantity), Signed(p.entryPrice), Flag(p.isLong)]
    + ([Unsigned(p.entryTimestamp), Signed(p.entryFee), Signed(p.costBasis), Signed(p.lastMark)]
       + [Chars(p.strategyId)])
  }

  function TradeFields(t: L.Trade): seq<Field> {
    [Chars(t.symbol), Unsigned(t.openTimestamp), Unsigned(t.closeTimestamp), Signed(t.entryPrice)]
    + ([Signed(t.exitPrice), Signed(t.quantity), Signed(t.totalFees), Signed(t.realizedPnL)]
       + [Signed(t.grossPnL), Chars(t.strategyId)])
  }

  function OrderFields(o: OrderRecord): seq<Field> {
    var code: byte :=
      match o.orderType
      case MARKET => 0
      case LIMIT => 1
      case STOP_LOSS => 2
      case TRAILING_STOP => 3;
    [Chars(o.symbol), Octet(code), Flag(o.isBuy), Signed(o.limitPrice)]
    + ([Signed(o.trailOffset), Signed(o.trailBest), Signed(o.quantity), Signed(o.capitalToCommit)]
       + [Unsigned(o.placedTimestamp), Unsigned(o.orderId)])
  }

  function PortfolioFields(s: PortfolioRecord): seq<Field> {
    [Signed(s.cash), Signed(s.unrealized), Signed(s.totalEquity), Signed(s.maxEquity)]
    + ([Unsigned(s.currentDrawdown), Unsigned(s.maxDrawdown), Signed32(s.tradeCount), Signed(s.totalFees)]
       + ([Signed32(s.roundTripCount)]
          + (Counted(Each(s.positions, PositionFields))
             + (Counted(Each(s.tradeLog, TradeFields))
                + (Counted(Each(s.pendingOrders, OrderFields)) + [Unsigned(s.nextOrderId)])))))
  }

  function DoubleFields(values: seq<Double>): seq<Field> {
    Counted(Each(values, v => [Unsigned(v)]))
  }

  function AssetFields(a: Row<AssetState>): seq<Field> {
    [Chars(a.key)]
    + (DoubleFields(a.value.returnWindow)
       + [Unsigned(a.value.prevPrice), Flag(a.value.prevPriceValid), Unsigned(a.value.positionValue)])
  }

  function SyncedFields(e: Row<Double>): seq<Field> {
    [Chars(e.key), Unsigned(e.value)]
  }

  function RiskFields(s: RiskRecord): seq<Field> {
    AccountFields(s.account) + (ReturnsFields(s.history) + LimitsFields(s.limits))
  }

  function AccountFields(s: RiskAccount): seq<Field> {
    [Unsigned(s.configuredMaxPositions), Unsigned(s.configuredVarLimit), Unsigned(s.configuredVarWindow),
     Unsigned(s.totalDrawdown)]
    + [Unsigned(s.dailyDrawdown), Unsigned(s.prevEquity), Flag(s.prevEquityValid)]
  }

  function ReturnsFields(s: RiskReturns): seq<Field> {
    DoubleFields(s.returnWindow)
    + ([Unsigned(s.currentVaR95), Unsigned(s.returnStdDev)]
       + (Counted(EachRow(s.assetStates, AssetFields))
          + (DoubleFields(s.covarianceMatrix) + Counted(Each(s.assetOrder, k => [Chars(k)])))))
  }

  function LimitsFields(s: RiskLimits): seq<Field> {
    [Flag(s.multiAssetMode), Flag(s.closeOnly), Word(4, s.lastLatencyMs), Flag(s.halted)]
    + (Counted(EachRow(s.syncedPositions, SyncedFields))
       + [Unsigned(s.effectiveMaxPositions), Unsigned(s.effectiveVarLimit), Flag(s.volatilityScaled)])
  }

  function RegimeFields(s: RegimeRecord): seq<Field> {
    var code: byte :=
      match s.regime
      case TREND => 0
      case RANGE => 1
      case CHAOS => 2;
    [Unsigned(s.smoothTR), Unsigned(s.smoothDMPlus), Unsigned(s.smoothDMMinus), Unsigned(s.adx)]
    + ([Signed32(s.adxObservations)]
       + (DoubleFields(s.returnWindow)
          + ([Unsigned(s.prevClose), Flag(s.prevCloseValid), Unsigned(s.variance), Unsigned(s.prevHigh)]
             + [Unsigned(s.prevLow), Flag(s.prevHLValid), Octet(code)])))
  }

  function PhiFields(e: Row<PhiState>): seq<Field> {
    [Chars(e.key)] + (DoubleFields(e.value.pnlWindow) + [Unsigned(e.value.phi)])
  }

  function ExtendedFields(e: Option<ExtendedRecord>): seq<Field> {
    match e
    case Some(x) => RegimeFields(x.regime) + Counted(EachRow(x.phi, PhiFields))
    case None => []
  }

  function PayloadFields(p: Payload): seq<Field> {
    [Chars("TradeBotState"), Flag(p.extended.Some?), Unsigned(p.checkpoint)]
    + (PortfolioFields(p.portfolio) + (RiskFields(p.risk) + ExtendedFields(p.extended)))
  }

  // ---------------------------------------------------------------------------
  // Writing spells the fields
  // ---------------------------------------------------------------------------

  lemma {:induction false} SpellInTwo(a: seq<Field>, b: seq<Field>, rest: Bytes)
    ensures Spell(a + b, rest) == Spell(a, Spell(b, rest))
  {
    hide FieldBytes;
    if a == [] {
      assert a + b == b;
    } else {
      assert (a + b)[1..] == a[1..] + b;
      SpellInTwo(a[1..], b, rest);
    }
  }

  lemma SpellFew(a: Field, b: Field, c: Field, d: Field, rest: Bytes)
    ensures Spell([a], rest) == FieldBytes(a) + rest
    ensures Spell([a, b], rest) == FieldBytes(a) + (FieldBytes(b) + rest)
    ensures Spell([a, b, c], rest) == FieldBytes(a) + (FieldBytes(b) + (FieldBytes(c) + rest))
    ensures Spell([a, b, c, d], rest) == FieldBytes(a) + (FieldBytes(b) + (FieldBytes(c) + (FieldBytes(d) + rest)))
  {
    hide FieldBytes;
    assert [a][1..] == [] && [a, b][1..] == [b] && [a, b, c][1..] == [b, c] && [a, b, c, d][1..] == [b, c, d];
    SpellOne(a, rest);
    SpellOne(b, rest);
    SpellOne(c, rest);
    SpellOne(d, rest);
    assert [b, c][1..] == [c] && [b, c, d][1..] == [c, d] && [c, d][1..] == [d];
    assert Spell([b, c], rest) == FieldBytes(b) + Spell([c], rest);
    assert Spell([c, d], rest) == FieldBytes(c) + Spell([d], rest);
    assert Spell([b, c, d], rest) == FieldBytes(b) + Spell([c, d], rest);
  }

  lemma SpellOne(a: Field, rest: Bytes)
    ensures Spell([a], rest) == FieldBytes(a) + rest
  {
    assert [a][1..] == [];
  }

  lemma {:induction false} PutIntSpells(width: nat, value: nat, rest: Bytes)
    ensures PutInt(width, value, rest) == WordBytes(width, value) + rest
  {
    if width > 0 {
      PutIntSpells(width - 1, value / 256, rest);
      var low, high := WordBytes(width, value), WordBytes(width - 1, value / 256);
      forall i | 0 <= i < width - 1 ensures low[i + 1] == high[i] {
        DivDiv(value, 256, Pow256(i));
      }
      assert low == [value % 256] + high;
    }
  }

  lemma OctetSpells()
    ensures forall v: byte, rest :: PutU8(v, rest) == FieldBytes(Octet(v)) + rest
  {
    forall v: byte, rest ensures PutU8(v, rest) == FieldBytes(Octet(v)) + rest {
      assert [v] + rest == FieldBytes(Octet(v)) + rest;
    }
  }

  lemma FlagSpells()
    ensures forall v: bool, rest :: PutBool(v, rest) == FieldBytes(Flag(v)) + rest
  {
    forall v: bool, rest ensures PutBool(v, rest) == FieldBytes(Flag(v)) + rest {
      assert [if v then 1 else 0] + rest == FieldBytes(Flag(v)) + rest;
    }
  }

  lemma Word32Spells()
    ensures forall v: u32, rest :: PutU32(v, rest) == FieldBytes(Word(4, v)) + rest
  {
    forall v: u32, rest ensures PutU32(v, rest) == FieldBytes(Word(4, v)) + rest {
      PutIntSpells(4, v, rest);
    }
  }

  lemma Signed32Spells()
    ensures forall v: i32, rest :: PutI32(v, rest) == FieldBytes(Signed32(v)) + rest
  {
    forall v: i32, rest ensures PutI32(v, rest) == FieldBytes(Signed32(v)) + rest {
      PutIntSpells(4, BitsOf32(v), rest);
    }
  }

  lemma UnsignedSpells()
    ensures forall v: u64, rest :: PutU64(v, rest) == FieldBytes(Unsigned(v)) + rest
  {
    forall v: u64, rest ensures PutU64(v, rest) == FieldBytes(Unsigned(v)) + rest {
      PutIntSpells(8, v, rest);
    }
  }

  lemma DoubleSpells()
    ensures forall v: Double, rest :: PutNumber(v, rest) == FieldBytes(Unsigned(v)) + rest
  {
    forall v: Double, rest ensures PutNumber(v, rest) == FieldBytes(Unsigned(v)) + rest {
      PutIntSpells(8, v, rest);
    }
  }

  lemma SignedSpells()
    ensures forall v: i64, rest :: PutI64(v, rest) == FieldBytes(Signed(v)) + rest
  {
    forall v: i64, rest ensures PutI64(v, rest) == FieldBytes(Signed(v)) + rest {
      PutIntSpells(8, BitsOf(v), rest);
    }
  }

  lemma CountSpells()
    ensures forall v: nat, rest :: PutCount(v, rest) == FieldBytes(Word(8, LengthWord(v))) + rest
  {
    forall v: nat, rest ensures PutCount(v, rest) == FieldBytes(Word(8, LengthWord(v))) + rest {
      PutIntSpells(8, SizeWord(v), rest);
    }
  }

  lemma TextSpells()
    ensures forall s, rest :: PutText(s, rest) == FieldBytes(Chars(s)) + rest
  {
    forall s, rest ensures PutText(s, rest) == FieldBytes(Chars(s)) + rest {
      PutIntSpells(8, SizeWord(|s|), TextBytes(s) + rest);
      var codes := seq(|s|, i requires 0 <= i < |s| => s[i] as int % 256);
      assert TextBytes(s) == codes;
      Regroup(WordBytes(8, SizeWord(|s|)), codes, rest);
    }
  }

  lemma Regroup(a: Bytes, b: Bytes, c: Bytes)
    ensures a + (b + c) == (a + b) + c
  {
  }

  ghost predicate Spells<T(!new)>(put: Put<T>, fields: T -> seq<Field>) {
    forall v, rest :: put(v, rest) == Spell(fields(v), rest)
  }

  lemma {:induction false} ItemsSpell<T(!new)>(items: seq<T>, put: Put<T>, fields: T -> seq<Field>, rest: Bytes)
    requires Spells(put, fields)
    ensures PutItems(items, put, rest) == Spell(Concat(Each(items, fields)), rest)
  {
    if items == [] {
    } else {
      ItemsSpell(items[1..], put, fields, rest);
      var each := Each(items, fields);
      assert each[1..] == Each(items[1..], fields);
      SpellInTwo(each[0], Concat(each[1..]), rest);
    }
  }

  /** A list whose items are spelled is spelled as its count and its items. */
  lemma ListSpells<T(!new)>(items: seq<T>, put: Put<T>, fields: T -> seq<Field>, rest: Bytes)
    requires Spells(put, fields)
    ensures PutList(items, put, rest) == Spell(Counted(Each(items, fields)), rest)
  {
    ItemsSpell(items, put, fields, rest);
    CountSpells();
    var count, each := Word(8, LengthWord(|items|)), Concat(Each(items, fields));
    hide PutItems, PutCount, Concat, Each, Spell, FieldBytes;
    SpellInTwo([count], each, rest);
    SpellOne(count, Spell(each, rest));
  }

  lemma TableSpells<V(!new)>(table: map<string, V>, put: Put<Row<V>>, fields: Row<V> -> seq<Field>, rest: Bytes)
    requires Spells(put, fields)
    ensures PutTable(table, put, rest) == Spell(Counted(EachRow(table, fields)), rest)
  {
    var rows := EntriesOf(table, Sorted(table.Keys));
    ListSpells(rows, put, fields, rest);
    assert Each(rows, fields) == EachRow(table, fields);
  }

  lemma PositionSpells()
    ensures Spells(PutPosition, PositionFields)
  {
    forall p: S.PositionSnapshot, rest ensures PutPosition(p, rest) == Spell(PositionFields(p), rest) {
      PositionSpelled(p, rest);
    }
    hide PutPosition, PositionFields, Spell;
  }

  lemma PositionSpelled(p: S.PositionSnapshot, rest: Bytes)
    ensures PutPosition(p, rest) == Spell(PositionFields(p), rest)
  {
    TextSpells();
    SignedSpells();
    FlagSpells();
    UnsignedSpells();
    hide FieldBytes, Spell, PutText, PutI64, PutBool, PutU64;
    var a: seq<Field> := [Chars(p.symbol), Signed(p.quantity), Signed(p.entryPrice), Flag(p.isLong)];
    var b: seq<Field> := [Unsigned(p.entryTimestamp), Signed(p.entryFee), Signed(p.costBasis), Signed(p.lastMark)];
    var c: seq<Field> := [Chars(p.strategyId)];
    SpellFew(Chars(p.strategyId), Octet(0), Octet(0), Octet(0), rest);
    var r2 := Spell(c, rest);
    SpellFew(Unsigned(p.entryTimestamp), Signed(p.entryFee), Signed(p.costBasis), Signed(p.lastMark), r2);
    SpellInTwo(b, c, rest);
    var r1 := Spell(b, r2);
    SpellFew(Chars(p.symbol), Signed(p.quantity), Signed(p.entryPrice), Flag(p.isLong), r1);
    SpellInTwo(a, b + c, rest);
  }

  lemma TradeSpells()
    ensures Spells(PutTrade, TradeFields)
  {
    forall t: L.Trade, rest ensures PutTrade(t, rest) == Spell(TradeFields(t), rest) {
      TradeSpelled(t, rest);
    }
    hide PutTrade, TradeFields, Spell;
  }

  lemma TradeSpelled(t: L.Trade, rest: Bytes)
    ensures PutTrade(t, rest) == Spell(TradeFields(t), rest)
  {
    TextSpells();
    SignedSpells();
    UnsignedSpells();
    hide FieldBytes, Spell, PutText, PutI64, PutU64;
    var a: seq<Field> := [Chars(t.symbol), Unsigned(t.openTimestamp), Unsigned(t.closeTimestamp), Signed(t.entryPrice)];
    var b: seq<Field> := [Signed(t.exitPrice), Signed(t.quantity), Signed(t.totalFees), Signed(t.realizedPnL)];
    var c: seq<Field> := [Signed(t.grossPnL), Chars(t.strategyId)];
    SpellFew(Signed(t.grossPnL), Chars(t.strategyId), Octet(0), Octet(0), rest);
    var r2 := Spell(c, rest);
    SpellFew(Signed(t.exitPrice), Signed(t.quantity), Signed(t.totalFees), Signed(t.realizedPnL), r2);
    SpellInTwo(b, c, rest);
    var r1 := Spell(b, r2);
    SpellFew(Chars(t.symbol), Unsigned(t.openTimestamp), Unsigned(t.closeTimestamp), Signed(t.entryPrice), r1);
    SpellInTwo(a, b + c, rest);
  }

  lemma OrderSpells()
    ensures Spells(PutOrder, OrderFields)
  {
    forall o: OrderRecord, rest ensures PutOrder(o, rest) == Spell(OrderFields(o), rest) {
      OrderSpelled(o, rest);
    }
    hide PutOrder, OrderFields, Spell;
  }

  lemma OrderSpelled(o: OrderRecord, rest: Bytes)
    ensures PutOrder(o, rest) == Spell(OrderFields(o), rest)
  {
    TextSpells();
    OctetSpells();
    SignedSpells();
    FlagSpells();
    UnsignedSpells();
    hide FieldBytes, Spell, PutText, PutU8, PutI64, PutBool, PutU64;
    var a: seq<Field> := [Chars(o.symbol), Octet(OrderTypeCode(o.orderType)), Flag(o.isBuy), Signed(o.limitPrice)];
    var b: seq<Field> := [Signed(o.trailOffset), Signed(o.trailBest), Signed(o.quantity), Signed(o.capitalToCommit)];
    var c: seq<Field> := [Unsigned(o.placedTimestamp), Unsigned(o.orderId)];
    SpellFew(Unsigned(o.placedTimestamp), Unsigned(o.orderId), Octet(0), Octet(0), rest);
    var r2 := Spell(c, rest);
    SpellFew(Signed(o.trailOffset), Signed(o.trailBest), Signed(o.quantity), Signed(o.capitalToCommit), r2);
    SpellInTwo(b, c, rest);
    var r1 := Spell(b, r2);
    SpellFew(Chars(o.symbol), Octet(OrderTypeCode(o.orderType)), Flag(o.isBuy), Signed(o.limitPrice), r1);
    SpellInTwo(a, b + c, rest);
  }

  lemma PortfolioSpells()
    ensures Spells(PutPortfolio, PortfolioFields)
  {
    forall s: PortfolioRecord, rest ensures PutPortfolio(s, rest) == Spell(PortfolioFields(s), rest) {
      PortfolioSpelled(s, rest);
    }
    hide PutPortfolio, PortfolioFields, Spell;
  }

  lemma PortfolioSpelled(s: PortfolioRecord, rest: Bytes)
    ensures PutPortfolio(s, rest) == Spell(PortfolioFields(s), rest)
  {
    SignedSpells();
    Signed32Spells();
    UnsignedSpells();
    DoubleSpells();
    hide FieldBytes, Spell, PutI64, PutI32, PutU64, PutNumber;
    PositionSpells();
    TradeSpells();
    OrderSpells();
    hide PutList, Counted, Each, Spells;
    var a: seq<Field> := [Signed(s.cash), Signed(s.unrealized), Signed(s.totalEquity), Signed(s.maxEquity)];
    var b: seq<Field> := [Unsigned(s.currentDrawdown), Unsigned(s.maxDrawdown), Signed32(s.tradeCount),
                          Signed(s.totalFees)];
    var c: seq<Field> := [Signed32(s.roundTripCount)];
    var d: seq<Field> := Counted(Each(s.positions, PositionFields));
    var e: seq<Field> := Counted(Each(s.tradeLog, TradeFields));
    var f: seq<Field> := Counted(Each(s.pendingOrders, OrderFields));
    var g: seq<Field> := [Unsigned(s.nextOrderId)];
    SpellFew(Unsigned(s.nextOrderId), Octet(0), Octet(0), Octet(0), rest);
    var r6 := Spell(g, rest);
    ListSpells(s.pendingOrders, PutOrder, OrderFields, r6);
    SpellInTwo(f, g, rest);
    var r5 := Spell(f, r6);
    ListSpells(s.tradeLog, PutTrade, TradeFields, r5);
    SpellInTwo(e, f + g, rest);
    var r4 := Spell(e, r5);
    ListSpells(s.positions, PutPosition, PositionFields, r4);
    SpellInTwo(d, e + (f + g), rest);
    var r3 := Spell(d, r4);
    SpellFew(Signed32(s.roundTripCount), Octet(0), Octet(0), Octet(0), r3);
    SpellInTwo(c, d + (e + (f + g)), rest);
    var r2 := Spell(c, r3);
    SpellFew(Unsigned(s.currentDrawdown), Unsigned(s.maxDrawdown), Signed32(s.tradeCount), Signed(s.totalFees), r2);
    SpellInTwo(b, c + (d + (e + (f + g))), rest);
    var r1 := Spell(b, r2);
    SpellFew(Signed(s.cash), Signed(s.unrealized), Signed(s.totalEquity), Signed(s.maxEquity), r1);
    SpellInTwo(a, b + (c + (d + (e + (f + g)))), rest);
  }

  lemma DoublesSpell(values: seq<Double>, rest: Bytes)
    ensures PutDoubles(values, rest) == Spell(DoubleFields(values), rest)
  {
    DoubleSpells();
    var fields := (v: Double) => [Unsigned(v)];
    forall v: Double, r ensures PutNumber(v, r) == Spell(fields(v), r) {
      SpellOne(Unsigned(v), r);
    }
    hide PutNumber, Spell, PutList, FieldBytes;
    ListSpells(values, PutNumber, fields, rest);
    assert Each(values, fields) == Each(values, v => [Unsigned(v)]);
  }

  lemma TextListSpells(values: seq<string>, rest: Bytes)
    ensures PutTexts(values, rest) == Spell(Counted(Each(values, k => [Chars(k)])), rest)
  {
    TextSpells();
    var fields := (k: string) => [Chars(k)];
    forall k: string, r ensures PutText(k, r) == Spell(fields(k), r) {
      SpellOne(Chars(k), r);
    }
    hide PutText, Spell, PutList, FieldBytes;
    ListSpells(values, PutText, fields, rest);
    assert Each(values, fields) == Each(values, k => [Chars(k)]);
  }

  lemma AssetSpells()
    ensures Spells(PutAsset, AssetFields)
  {
    forall row: Row<AssetState>, rest ensures PutAsset(row, rest) == Spell(AssetFields(row), rest) {
      AssetSpelled(row, rest);
    }
    hide PutAsset, AssetFields, Spell;
  }

  lemma AssetSpelled(row: Row<AssetState>, rest: Bytes)
    ensures PutAsset(row, rest) == Spell(AssetFields(row), rest)
  {
    TextSpells();
    FlagSpells();
    DoubleSpells();
    hide FieldBytes, Spell, PutText, PutBool, PutNumber;
    hide PutDoubles, DoubleFields;
    var a: seq<Field> := [Chars(row.key)];
    var b: seq<Field> := DoubleFields(row.value.returnWindow);
    var c: seq<Field> := [Unsigned(row.value.prevPrice), Flag(row.value.prevPriceValid),
                          Unsigned(row.value.positionValue)];
    SpellFew(Unsigned(row.value.prevPrice), Flag(row.value.prevPriceValid), Unsigned(row.value.positionValue), Octet(0),
             rest);
    var r2 := Spell(c, rest);
    DoublesSpell(row.value.returnWindow, r2);
    SpellInTwo(b, c, rest);
    var r1 := Spell(b, r2);
    SpellFew(Chars(row.key), Octet(0), Octet(0), Octet(0), r1);
    SpellInTwo(a, b + c, rest);
  }

  lemma SyncedSpells()
    ensures Spells(PutSynced, SyncedFields)
  {
    forall row: Row<Double>, rest ensures PutSynced(row, rest) == Spell(SyncedFields(row), rest) {
      SyncedSpelled(row, rest);
    }
    hide PutSynced, SyncedFields, Spell;
  }

  lemma SyncedSpelled(row: Row<Double>, rest: Bytes)
    ensures PutSynced(row, rest) == Spell(SyncedFields(row), rest)
  {
    TextSpells();
    DoubleSpells();
    hide FieldBytes, Spell, PutText, PutNumber;
    var a: seq<Field> := [Chars(row.key), Unsigned(row.value)];
    SpellFew(Chars(row.key), Unsigned(row.value), Octet(0), Octet(0), rest);
  }

  lemma AccountSpells()
    ensures Spells(PutRiskAccount, AccountFields)
  {
    forall s: RiskAccount, rest ensures PutRiskAccount(s, rest) == Spell(AccountFields(s), rest) {
      AccountSpelled(s, rest);
    }
    hide PutRiskAccount, AccountFields, Spell;
  }

  lemma AccountSpelled(s: RiskAccount, rest: Bytes)
    ensures PutRiskAccount(s, rest) == Spell(AccountFields(s), rest)
  {
    UnsignedSpells();
    DoubleSpells();
    FlagSpells();
    hide FieldBytes, Spell, PutU64, PutNumber, PutBool;
    var a: seq<Field> := [Unsigned(s.configuredMaxPositions), Unsigned(s.configuredVarLimit),
                          Unsigned(s.configuredVarWindow), Unsigned(s.totalDrawdown)];
    var b: seq<Field> := [Unsigned(s.dailyDrawdown), Unsigned(s.prevEquity), Flag(s.prevEquityValid)];
    SpellFew(Unsigned(s.dailyDrawdown), Unsigned(s.prevEquity), Flag(s.prevEquityValid), Octet(0), rest);
    var r1 := Spell(b, rest);
    SpellFew(Unsigned(s.configuredMaxPositions), Unsigned(s.configuredVarLimit), Unsigned(s.configuredVarWindow),
             Unsigned(s.totalDrawdown), r1);
    SpellInTwo(a, b, rest);
  }

  lemma ReturnsSpells()
    ensures Spells(PutRiskReturns, ReturnsFields)
  {
    forall s: RiskReturns, rest ensures PutRiskReturns(s, rest) == Spell(ReturnsFields(s), rest) {
      ReturnsSpelled(s, rest);
    }
    hide PutRiskReturns, ReturnsFields, Spell;
  }

  lemma ReturnsSpelled(s: RiskReturns, rest: Bytes)
    ensures PutRiskReturns(s, rest) == Spell(ReturnsFields(s), rest)
  {
    DoubleSpells();
    hide FieldBytes, Spell, PutNumber;
    AssetSpells();
    hide PutDoubles, DoubleFields, PutTable, PutTexts, Counted, Each, EachRow, Spells;
    var a: seq<Field> := DoubleFields(s.returnWindow);
    var b: seq<Field> := [Unsigned(s.currentVaR95), Unsigned(s.returnStdDev)];
    var c: seq<Field> := Counted(EachRow(s.assetStates, AssetFields));
    var d: seq<Field> := DoubleFields(s.covarianceMatrix);
    var e: seq<Field> := Counted(Each(s.assetOrder, k => [Chars(k)]));
    TextListSpells(s.assetOrder, rest);
    var r4 := Spell(e, rest);
    DoublesSpell(s.covarianceMatrix, r4);
    SpellInTwo(d, e, rest);
    var r3 := Spell(d, r4);
    TableSpells(s.assetStates, PutAsset, AssetFields, r3);
    SpellInTwo(c, d + e, rest);
    var r2 := Spell(c, r3);
    SpellFew(Unsigned(s.currentVaR95), Unsigned(s.returnStdDev), Octet(0), Octet(0), r2);
    SpellInTwo(b, c + (d + e), rest);
    var r1 := Spell(b, r2);
    DoublesSpell(s.returnWindow, r1);
    SpellInTwo(a, b + (c + (d + e)), rest);
  }

  lemma LimitsSpells()
    ensures Spells(PutRiskLimits, LimitsFields)
  {
    forall s: RiskLimits, rest ensures PutRiskLimits(s, rest) == Spell(LimitsFields(s), rest) {
      LimitsSpelled(s, rest);
    }
    hide PutRiskLimits, LimitsFields, Spell;
  }

  lemma LimitsSpelled(s: RiskLimits, rest: Bytes)
    ensures PutRiskLimits(s, rest) == Spell(LimitsFields(s), rest)
  {
    FlagSpells();
    Word32Spells();
    UnsignedSpells();
    DoubleSpells();
    hide FieldBytes, Spell, PutBool, PutU32, PutU64, PutNumber;
    SyncedSpells();
    hide PutTable, Counted, EachRow, Spells;
    var a: seq<Field> := [Flag(s.multiAssetMode), Flag(s.closeOnly), Word(4, s.lastLatencyMs), Flag(s.halted)];
    var b: seq<Field> := Counted(EachRow(s.syncedPositions, SyncedFields));
    var c: seq<Field> := [Unsigned(s.effectiveMaxPositions), Unsigned(s.effectiveVarLimit), Flag(s.volatilityScaled)];
    SpellFew(Unsigned(s.effectiveMaxPositions), Unsigned(s.effectiveVarLimit), Flag(s.volatilityScaled), Octet(0),
             rest);
    var r2 := Spell(c, rest);
    TableSpells(s.syncedPositions, PutSynced, SyncedFields, r2);
    SpellInTwo(b, c, rest);
    var r1 := Spell(b, r2);
    SpellFew(Flag(s.multiAssetMode), Flag(s.closeOnly), Word(4, s.lastLatencyMs), Flag(s.halted), r1);
    SpellInTwo(a, b + c, rest);
  }

  lemma RiskSpelled(s: RiskRecord, rest: Bytes)
    ensures PutRisk(s, rest) == Spell(RiskFields(s), rest)
  {
    hide PutRiskAccount, PutRiskReturns, PutRiskLimits, AccountFields, ReturnsFields, LimitsFields, Spell;
    var limits := Spell(LimitsFields(s.limits), rest);
    LimitsSpelled(s.limits, rest);
    SpellInTwo(ReturnsFields(s.history), LimitsFields(s.limits), rest);
    ReturnsSpelled(s.history, limits);
    SpellInTwo(AccountFields(s.account), ReturnsFields(s.history) + LimitsFields(s.limits), rest);
    AccountSpelled(s.account, Spell(ReturnsFields(s.history), limits));
  }

  lemma RegimeSpells()
    ensures Spells(PutRegime, RegimeFields)
  {
    forall s: RegimeRecord, rest ensures PutRegime(s, rest) == Spell(RegimeFields(s), rest) {
      RegimeSpelled(s, rest);
    }
    hide PutRegime, RegimeFields, Spell;
  }

  lemma RegimeSpelled(s: RegimeRecord, rest: Bytes)
    ensures PutRegime(s, rest) == Spell(RegimeFields(s), rest)
  {
    DoubleSpells();
    Signed32Spells();
    FlagSpells();
    OctetSpells();
    hide FieldBytes, Spell, PutNumber, PutI32, PutBool, PutU8;
    hide PutDoubles, DoubleFields;
    var a: seq<Field> := [Unsigned(s.smoothTR), Unsigned(s.smoothDMPlus), Unsigned(s.smoothDMMinus), Unsigned(s.adx)];
    var b: seq<Field> := [Signed32(s.adxObservations)];
    var c: seq<Field> := DoubleFields(s.returnWindow);
    var d: seq<Field> := [Unsigned(s.prevClose), Flag(s.prevCloseValid), Unsigned(s.variance), Unsigned(s.prevHigh)];
    var e: seq<Field> := [Unsigned(s.prevLow), Flag(s.prevHLValid), Octet(RegimeCode(s.regime))];
    SpellFew(Unsigned(s.prevLow), Flag(s.prevHLValid), Octet(RegimeCode(s.regime)), Octet(0), rest);
    var r4 := Spell(e, rest);
    SpellFew(Unsigned(s.prevClose), Flag(s.prevCloseValid), Unsigned(s.variance), Unsigned(s.prevHigh), r4);
    SpellInTwo(d, e, rest);
    var r3 := Spell(d, r4);
    DoublesSpell(s.returnWindow, r3);
    SpellInTwo(c, d + e, rest);
    var r2 := Spell(c, r3);
    SpellFew(Signed32(s.adxObservations), Octet(0), Octet(0), Octet(0), r2);
    SpellInTwo(b, c + (d + e), rest);
    var r1 := Spell(b, r2);
    SpellFew(Unsigned(s.smoothTR), Unsigned(s.smoothDMPlus), Unsigned(s.smoothDMMinus), Unsigned(s.adx), r1);
    SpellInTwo(a, b + (c + (d + e)), rest);
  }

  lemma PhiSpells()
    ensures Spells(PutPhi, PhiFields)
  {
    forall row: Row<PhiState>, rest ensures PutPhi(row, rest) == Spell(PhiFields(row), rest) {
      PhiSpelled(row, rest);
    }
    hide PutPhi, PhiFields, Spell;
  }

  lemma PhiSpelled(row: Row<PhiState>, rest: Bytes)
    ensures PutPhi(row, rest) == Spell(PhiFields(row), rest)
  {
    TextSpells();
    DoubleSpells();
    hide FieldBytes, Spell, PutText, PutNumber;
    hide PutDoubles, DoubleFields;
    var a: seq<Field> := [Chars(row.key)];
    var b: seq<Field> := DoubleFields(row.value.pnlWindow);
    var c: seq<Field> := [Unsigned(row.value.phi)];
    SpellFew(Unsigned(row.value.phi), Octet(0), Octet(0), Octet(0), rest);
    var r2 := Spell(c, rest);
    DoublesSpell(row.value.pnlWindow, r2);
    SpellInTwo(b, c, rest);
    var r1 := Spell(b, r2);
    SpellFew(Chars(row.key), Octet(0), Octet(0), Octet(0), r1);
    SpellInTwo(a, b + c, rest);
  }

  lemma ExtendedSpelled(e: Option<ExtendedRecord>, rest: Bytes)
    ensures PutExtended(e, rest) == Spell(ExtendedFields(e), rest)
  {
    match e
    case None =>
    case Some(x) =>
      PhiSpells();
      hide PutRegime, PutTable, RegimeFields, Counted, EachRow, Spell, Spells;
      TableSpells(x.phi, PutPhi, PhiFields, rest);
      SpellInTwo(RegimeFields(x.regime), Counted(EachRow(x.phi, PhiFields)), rest);
      RegimeSpelled(x.regime, Spell(Counted(EachRow(x.phi, PhiFields)), rest));
  }

  /** Encoding a payload writes the bytes of its fields, in order, and nothing else. */
  lemma EncodingIsSpelled(p: Payload)
    ensures Encode(p) == Spell(PayloadFields(p), [])
  {
    TextSpells();
    FlagSpells();
    UnsignedSpells();
    hide PutText, PutBool, PutU64, PutPortfolio, PutRisk, PutExtended, FieldBytes, Spell;
    hide PortfolioFields, RiskFields, ExtendedFields;
    var extended := Spell(ExtendedFields(p.extended), []);
    var risk := Spell(RiskFields(p.risk), extended);
    ExtendedSpelled(p.extended, []);
    RiskSpelled(p.risk, extended);
    PortfolioSpelled(p.portfolio, risk);
    SpellInTwo(RiskFields(p.risk), ExtendedFields(p.extended), []);
    SpellInTwo(PortfolioFields(p.portfolio), RiskFields(p.risk) + ExtendedFields(p.extended), []);
    SpellInTwo([Chars("TradeBotState"), Flag(p.extended.Some?), Unsigned(p.checkpoint)],
               PortfolioFields(p.portfolio) + (RiskFields(p.risk) + ExtendedFields(p.extended)), []);
    SpellFew(Chars("TradeBotState"), Flag(p.extended.Some?), Unsigned(p.checkpoint), Octet(0),
             Spell(PortfolioFields(p.portfolio), risk));
  }

  /** The bytes of a payload's fields decode to that payload. */
  lemma SpelledPayloadDecodes(p: Payload)
    requires Fits(p)
    ensures Decode(Spell(PayloadFields(p), [])) == Some(p)
  {
    EncodingIsSpelled(p);
    hide Encode, Decode, Spell, PayloadFields, Fits;
    EncodedPayloadDecodes(p);
  }

  // ---------------------------------------------------------------------------
  // What the reader limits
  // ---------------------------------------------------------------------------

  /** A written text is read again if and only if it has at most a mebibyte. */
  lemma TextLimit(s: string, rest: Bytes)
    requires |s| <= 0xffff_ffff_ffff_ffff && forall i :: 0 <= i < |s| ==> s[i] as int < 256
    ensures GetText(PutText(s, rest)) == (if |s| <= 1_048_576 then Some(Parsed(s, rest)) else None)
  {
    if |s| <= 1_048_576 {
      TextReadsBack(s, rest);
      hide GetText, PutText;
    } else {
      U64ReadsBack(|s|, TextBytes(s) + rest);
      hide GetU64, PutU64;
    }
  }

  /** A written count is read again if and only if it is at most a million. */
  lemma CountLimit(n: u64, rest: Bytes)
    ensures GetCount(PutCount(n, rest)) == (if n <= 1_000_000 then Some(Parsed(n, rest)) else None)
  {
    U64ReadsBack(n, rest);
    hide GetU64, PutU64;
  }

  /** A written file is read again if and only if its payload has at most 128 mebibytes. */
  lemma PayloadLimit(bytes: Bytes)
    ensures E.LoadBytes(E.FileText(bytes)) == Ok(bytes) <==> |bytes| <= 134_217_728
  {
    E.SavedFileLoads(bytes);
    hide E.LoadBytes, E.FileText;
  }

  // ---------------------------------------------------------------------------
  // Hexadecimal digits
  // ---------------------------------------------------------------------------

  const SMALL_DIGITS := "0123456789abcdef"
  const CAPITAL_DIGITS := "0123456789ABCDEF"

  lemma DigitsAt(n: nat)
    requires n < 16
    ensures SMALL_DIGITS[n] as int == n + (if n < 10 then '0' as int else 'a' as int - 10)
    ensures CAPITAL_DIGITS[n] as int == n + (if n < 10 then '0' as int else 'A' as int - 10)
  {
  }

  /** A digit is written small and read small or capital. */
  lemma HexDigitIff(c: char, n: nat)
    ensures n < 16 ==> E.Digit(n) == SMALL_DIGITS[n]
    ensures E.HexDigit(c) == Some(n) <==> n < 16 && (c == SMALL_DIGITS[n] || c == CAPITAL_DIGITS[n])
  {
    if n < 16 {
      DigitsAt(n);
    }
  }

  // ---------------------------------------------------------------------------
  // Checksum and envelope
  // ---------------------------------------------------------------------------

  lemma {:induction false} ChecksumAppends(value: u64, bytes: Bytes, b: byte)
    ensures E.ChecksumFrom(value, bytes + [b]) == E.Absorb(E.ChecksumFrom(value, bytes), b)
    decreases |bytes|
  {
    hide E.Absorb;
    if bytes == [] {
      assert ([] + [b])[1..] == [] && ([] + [b])[0] == b;
    } else {
      assert (bytes + [b])[1..] == bytes[1..] + [b];
      ChecksumAppends(E.Absorb(value, bytes[0]), bytes[1..], b);
    }
  }

  /** The checksum starts from its basis; each byte is joined by exclusive or, then multiplied by the prime. */
  lemma ChecksumIs(bytes: Bytes, b: byte)
    ensures E.Checksum([]) == 1469598103934665603
    ensures E.Checksum(bytes + [b]) == X.Xor(E.Checksum(bytes), b) * 1099511628211 % 0x1_0000_0000_0000_0000
  {
    ChecksumAppends(1469598103934665603, bytes, b);
    hide X.Xor, E.ChecksumFrom;
  }

  lemma QuoteFirst(first: string, rest: seq<string>)
    requires rest != []
    ensures T.Quoted([first] + rest) == first + "\"" + T.Quoted(rest)
  {
    assert ([first] + rest)[1..] == rest;
    assert first + ("\"" + T.Quoted(rest)) == first + "\"" + T.Quoted(rest);
  }

  lemma QuoteThree(a: string, b: string, c: string, rest: seq<string>)
    requires rest != []
    ensures T.Quoted([a, b, c] + rest) == (a + "\"" + b + "\"" + c + "\"") + T.Quoted(rest)
  {
    assert [a, b, c] + rest == [a] + ([b] + ([c] + rest));
    QuoteFirst(a, [b] + ([c] + rest));
    QuoteFirst(b, [c] + rest);
    QuoteFirst(c, rest);
    var q := T.Quoted(rest);
    assert a + "\"" + (b + "\"" + (c + "\"" + q)) == (a + "\"" + b + "\"" + c + "\"") + q;
  }

  lemma VersionDigits()
    ensures T.Decimal(13) == "13"
  {
  }

  lemma Fields(checksum: string, payload: string)
    ensures E.Segments(E.CurrentEnvelope(checksum, payload)) ==
              ["{\n  ", "schema", ": "] + (["tradebot.backtest-state", ",\n  ", "version"]
              + ([": 13,\n  ", "payloadEncoding", ": "] + (["hex-v1", ",\n  ", "payloadChecksum"]
              + ([": ", checksum, ",\n  "] + (["payload", ": ", payload] + ["\n}\n"])))))
  {
    VersionDigits();
    hide T.Decimal;
    assert ": " + T.Decimal(13) + ",\n  " == ": 13,\n  ";
  }

  lemma FirstPieces()
    ensures "{\n  " + "\"" + "schema" + "\"" + ": " + "\"" == "{\n  \"schema\": \""
    ensures ": 13,\n  " + "\"" + "payloadEncoding" + "\"" + ": " + "\"" == ": 13,\n  \"payloadEncoding\": \""
  {
  }

  lemma SecondPieces()
    ensures "tradebot.backtest-state" + "\"" + ",\n  " + "\"" + "version" + "\""
         == "tradebot.backtest-state\",\n  \"version\""
    ensures "hex-v1" + "\"" + ",\n  " + "\"" + "payloadChecksum" + "\"" == "hex-v1\",\n  \"payloadChecksum\""
  {
  }

  lemma LastPieces(checksum: string, payload: string)
    ensures ": " + "\"" + checksum + "\"" + ",\n  " + "\"" == ": \"" + checksum + "\",\n  \""
    ensures "payload" + "\"" + ": " + "\"" + payload + "\"" == "payload\": \"" + payload + "\""
  {
    assert ": " + "\"" + checksum == ": \"" + checksum;
    assert "\"" + ",\n  " + "\"" == "\",\n  \"";
    assert "payload" + "\"" + ": " + "\"" == "payload\": \"";
  }

  lemma SixPieces(a: string, b: string, c: string, d: string, e: string, f: string, g: string)
    ensures a + (b + (c + (d + (e + (f + g))))) == a + b + c + d + e + f + g
  {
    assert b + (c + (d + (e + (f + g)))) == b + c + d + (e + f + g);
    assert a + (b + c + d + (e + f + g)) == a + b + c + d + (e + f + g);
  }

  /** The current envelope as text: five fields a line each, in this order and spacing. */
  lemma EnvelopeIs(checksum: string, payload: string)
    ensures E.Canonical(E.CurrentEnvelope(checksum, payload)) ==
              "{\n  \"schema\": \"" + "tradebot.backtest-state\",\n  \"version\""
              + ": 13,\n  \"payloadEncoding\": \"" + "hex-v1\",\n  \"payloadChecksum\""
              + (": \"" + checksum + "\",\n  \"") + ("payload\": \"" + payload + "\"") + "\n}\n"
  {
    Fields(checksum, payload);
    FirstPieces();
    SecondPieces();
    LastPieces(checksum, payload);
    hide E.Segments, E.CurrentEnvelope;
    var last := ["\n}\n"];
    var f := ["payload", ": ", payload] + last;
    var e := [": ", checksum, ",\n  "] + f;
    var d := ["hex-v1", ",\n  ", "payloadChecksum"] + e;
    var c := [": 13,\n  ", "payloadEncoding", ": "] + d;
    var b := ["tradebot.backtest-state", ",\n  ", "version"] + c;
    assert T.Quoted(last) == "\n}\n";
    hide T.Quoted;
    QuoteThree("payload", ": ", payload, last);
    QuoteThree(": ", checksum, ",\n  ", f);
    QuoteThree("hex-v1", ",\n  ", "payloadChecksum", e);
    QuoteThree(": 13,\n  ", "payloadEncoding", ": ", d);
    QuoteThree("tradebot.backtest-state", ",\n  ", "version", c);
    QuoteThree("{\n  ", "schema", ": ", b);
    SixPieces("{\n  \"schema\": \"", "tradebot.backtest-state\",\n  \"version\"",
              ": 13,\n  \"payloadEncoding\": \"", "hex-v1\",\n  \"payloadChecksum\"",
              ": \"" + checksum + "\",\n  \"", "payload\": \"" + payload + "\"", "\n}\n");
  }
}
