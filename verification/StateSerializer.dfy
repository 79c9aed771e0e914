/**
 The snapshot format as it runs: a writer that appends to a byte buffer, a reader that advances an
 offset, one procedure per section, and the loops for hexadecimal and the checksum.
 */
module StateSerializers {
  import opened Wrappers
  import opened MachineWords
  import opened SortedKeys
  import opened ByteCodec
  import opened SnapshotFormat
  import PM = PortfolioManagers
  import E = SnapshotEnvelope
  import D = SnapshotLoading
  import R = RuntimeRestart
  import S = LedgerSnapshot
  import L = PortfolioLedger

  // ---------------------------------------------------------------------------
  // Writer and reader
  // ---------------------------------------------------------------------------

  lemma Regroup(a: Bytes, b: Bytes, c: Bytes)
    ensures a + b + c == a + (b + c)
  {
  }

  /** Each method appends the encoding of its argument, whatever is written next. */
  class Writer {
    var m_bytes: Bytes

    constructor ()
      ensures m_bytes == []
    {
      m_bytes := [];
    }

    method U8(value: byte)
      modifies this
      ensures forall rest {:trigger m_bytes + rest} :: m_bytes + rest == old(m_bytes) + PutU8(value, rest)
    {
      ghost var start := m_bytes;
      m_bytes := m_bytes + [value];
      forall rest ensures m_bytes + rest == start + PutU8(value, rest) {
        Regroup(start, [value], rest);
      }
    }

    /** The lowest `width` bytes of `value`, least significant first. */
    method Integer(width: nat, value: nat)
      modifies this
      ensures forall rest {:trigger m_bytes + rest} :: m_bytes + rest == old(m_bytes) + PutInt(width, value, rest)
    {
      ghost var start := m_bytes;
      var i, left := 0, value;
      while i < width
        invariant 0 <= i <= width
        invariant forall rest :: m_bytes + PutInt(width - i, left, rest) == start + PutInt(width, value, rest)
      {
        ghost var before := m_bytes;
        m_bytes := m_bytes + [left % 256];
        forall rest ensures m_bytes + PutInt(width - i - 1, left / 256, rest) == start + PutInt(width, value, rest) {
          assert before + ([left % 256] + PutInt(width - i - 1, left / 256, rest))
              == m_bytes + PutInt(width - i - 1, left / 256, rest);
          assert before + PutInt(width - i, left, rest) == start + PutInt(width, value, rest);
        }
        left := left / 256;
        i := i + 1;
      }
      forall rest ensures m_bytes + rest == start + PutInt(width, value, rest) {
        assert PutInt(0, left, rest) == rest;
      }
    }

    method U32(value: u32)
      modifies this
      ensures forall rest {:trigger m_bytes + rest} :: m_bytes + rest == old(m_bytes) + PutU32(value, rest)
    {
      Integer(4, value);
    }

    method U64(value: u64)
      modifies this
      ensures forall rest {:trigger m_bytes + rest} :: m_bytes + rest == old(m_bytes) + PutU64(value, rest)
    {
      Integer(8, value);
    }

    method I64(value: i64)
      modifies this
      ensures forall rest {:trigger m_bytes + rest} :: m_bytes + rest == old(m_bytes) + PutI64(value, rest)
    {
      U64(BitsOf(value));
    }

    method I32(value: i32)
      modifies this
      ensures forall rest {:trigger m_bytes + rest} :: m_bytes + rest == old(m_bytes) + PutI32(value, rest)
    {
      U32(BitsOf32(value));
    }

    method Boolean(value: bool)
      modifies this
      ensures forall rest {:trigger m_bytes + rest} :: m_bytes + rest == old(m_bytes) + PutBool(value, rest)
    {
      U8(if value then 1 else 0);
    }

    method Number(value: Double)
      modifies this
      ensures forall rest {:trigger m_bytes + rest} :: m_bytes + rest == old(m_bytes) + PutNumber(value, rest)
    {
      U64(value);
    }

    method Text(value: string)
      modifies this
      ensures forall rest {:trigger m_bytes + rest} :: m_bytes + rest == old(m_bytes) + PutText(value, rest)
    {
      hide PutU64, TextBytes;
      ghost var start := m_bytes;
      U64(SizeWord(|value|));
      ghost var before := m_bytes;
      m_bytes := m_bytes + TextBytes(value);
      forall rest ensures m_bytes + rest == start + PutText(value, rest) {
        Regroup(before, TextBytes(value), rest);
      }
    }
  }

  /** The value `got` names was returned and what follows it is left to read, or nothing was returned. */
  ghost predicate Took<T>(got: Option<Parsed<T>>, out: Option<T>, left: Bytes) {
    match got
    case Some(p) => out == Some(p.value) && left == p.rest
    case None => out == None
  }

  class Reader {
    const m_bytes: Bytes
    var m_offset: nat

    ghost predicate Valid()
      reads this
    {
      m_offset <= |m_bytes|
    }

    ghost function Rest(): Bytes
      requires Valid()
      reads this
    {
      m_bytes[m_offset..]
    }

    constructor (bytes: Bytes)
      ensures Valid() && Rest() == bytes
    {
      m_bytes, m_offset := bytes, 0;
    }

    method U8() returns (out: Option<byte>)
      requires Valid()
      modifies this
      ensures Valid() && Took(GetU8(old(Rest())), out, Rest())
    {
      if m_offset >= |m_bytes| {
        return None;
      }
      out := Some(m_bytes[m_offset]);
      m_offset := m_offset + 1;
    }

    method Integer(width: nat) returns (out: Option<nat>)
      requires Valid()
      modifies this
      ensures Valid()
      ensures |old(Rest())| < width ==> out == None
      ensures |old(Rest())| >= width ==>
                out == Some(IntAt(width, old(Rest()))) && Rest() == old(Rest())[width..]
    {
      if |m_bytes| - m_offset < width {
        return None;
      }
      ghost var rest := Rest();
      var value: nat, scale: nat, i := 0, 1, 0;
      while i < width
        invariant 0 <= i <= width && m_offset == old(m_offset) + i <= |m_bytes|
        invariant value + scale * IntAt(width - i, rest[i..]) == IntAt(width, rest)
      {
        var b := m_bytes[m_offset];
        assert rest[i..][1..] == rest[i + 1..] && rest[i..][0] == b;
        NextByte(value, scale, b, IntAt(width - i - 1, rest[i + 1..]));
        value, scale := value + b * scale, scale * 256;
        m_offset := m_offset + 1;
        i := i + 1;
      }
      assert scale * 0 == 0;
      out := Some(value);
    }

    static lemma NextByte(value: nat, scale: nat, b: byte, above: nat)
      ensures value + scale * Above(b, above) == value + b * scale + scale * 256 * above
    {
    }

    method U32() returns (out: Option<u32>)
      requires Valid()
      modifies this
      ensures Valid() && Took(GetU32(old(Rest())), out, Rest())
    {
      Widths();
      ghost var bytes := Rest();
      var value := Integer(4);
      if value == None {
        return None;
      }
      IntGetThenPut(4, bytes);
      out := Some(value.value);
    }

    method U64() returns (out: Option<u64>)
      requires Valid()
      modifies this
      ensures Valid() && Took(GetU64(old(Rest())), out, Rest())
    {
      Widths();
      ghost var bytes := Rest();
      var value := Integer(8);
      if value == None {
        return None;
      }
      IntGetThenPut(8, bytes);
      out := Some(value.value);
    }

    method I64() returns (out: Option<i64>)
      requires Valid()
      modifies this
      ensures Valid() && Took(GetI64(old(Rest())), out, Rest())
    {
      hide GetU64;
      var bits :- U64();
      out := Some(SignedOf(bits));
    }

    method I32() returns (out: Option<i32>)
      requires Valid()
      modifies this
      ensures Valid() && Took(GetI32(old(Rest())), out, Rest())
    {
      hide GetU32;
      var bits :- U32();
      out := Some(SignedOf32(bits));
    }

    method Boolean() returns (out: Option<bool>)
      requires Valid()
      modifies this
      ensures Valid() && Took(GetBool(old(Rest())), out, Rest())
    {
      hide GetU8;
      var value :- U8();
      if value > 1 {
        return None;
      }
      out := Some(value != 0);
    }

    method Number() returns (out: Option<Double>)
      requires Valid()
      modifies this
      ensures Valid() && Took(GetNumber(old(Rest())), out, Rest())
    {
      hide GetU64;
      var bits :- U64();
      if !IsFinite(bits) {
        return None;
      }
      out := Some(bits);
    }

    method Text() returns (out: Option<string>)
      requires Valid()
      modifies this
      ensures Valid() && Took(GetText(old(Rest())), out, Rest())
    {
      hide GetU64;
      var size :- U64();
      if size > MAX_STRING || size > |m_bytes| - m_offset {
        return None;
      }
      ghost var rest := Rest();
      assert m_bytes[m_offset..m_offset + size] == rest[..size];
      out := Some(BytesText(m_bytes[m_offset..m_offset + size]));
      m_offset := m_offset + size;
      assert Rest() == rest[size..];
    }

    method Count() returns (out: Option<nat>)
      requires Valid()
      modifies this
      ensures Valid() && Took(GetCount(old(Rest())), out, Rest())
    {
      hide GetU64;
      var value :- U64();
      if value > MAX_ITEMS {
        return None;
      }
      out := Some(value);
    }

    method Done() returns (done: bool)
      requires Valid()
      ensures done <==> Rest() == []
    {
      done := m_offset == |m_bytes|;
    }
  }

  // ---------------------------------------------------------------------------
  // Sections
  // ---------------------------------------------------------------------------

  method ReadOrderType(r: Reader) returns (out: Option<OrderType>)
    requires r.Valid()
    modifies r
    ensures r.Valid() && Took(GetOrderType(old(r.Rest())), out, r.Rest())
  {
    hide Reader.Rest, Reader.Valid;
    hide GetU8;
    var code :- r.U8();
    out := OrderTypeOf(code);
  }

  method ReadMarketRegime(r: Reader) returns (out: Option<MarketRegime>)
    requires r.Valid()
    modifies r
    ensures r.Valid() && Took(GetMarketRegime(old(r.Rest())), out, r.Rest())
  {
    hide Reader.Rest, Reader.Valid;
    hide GetU8;
    var code :- r.U8();
    out := MarketRegimeOf(code);
  }

  method WriteDoubles(w: Writer, items: seq<Double>)
    modifies w
    ensures forall rest {:trigger w.m_bytes + rest} :: w.m_bytes + rest == old(w.m_bytes) + PutDoubles(items, rest)
  {
    hide PutU64, PutNumber;
    w.U64(SizeWord(|items|));
    var i := 0;
    while i < |items|
      invariant 0 <= i <= |items|
      invariant forall rest ::
                  w.m_bytes + PutItems(items[i..], PutNumber, rest) == old(w.m_bytes) + PutDoubles(items, rest)
    {
      assert items[i..][1..] == items[i + 1..];
      w.Number(items[i]);
      i := i + 1;
    }
    assert forall rest :: PutItems(items[i..], PutNumber, rest) == rest;
  }

  method ReadDoubles(r: Reader) returns (out: Option<seq<Double>>)
    requires r.Valid()
    modifies r
    ensures r.Valid() && Took(GetDoubles(old(r.Rest())), out, r.Rest())
  {
    hide Reader.Rest, Reader.Valid;
    hide GetCount, GetNumber, GetItems, IsFinite;
    var count :- r.Count();
    var items: seq<Double> := [];
    var i := 0;
    ghost var all := GetItems(count, GetNumber, [], r.Rest());
    while i < count
      invariant 0 <= i <= count && r.Valid()
      invariant GetItems(count - i, GetNumber, items, r.Rest()) == all
    {
      ItemsStep(count - i, GetNumber, items, r.Rest());
      var item :- r.Number();
      items := items + [item];
      i := i + 1;
    }
    ItemsStep(0, GetNumber, items, r.Rest());
    out := Some(items);
  }

  method WriteTexts(w: Writer, items: seq<string>)
    modifies w
    ensures forall rest {:trigger w.m_bytes + rest} :: w.m_bytes + rest == old(w.m_bytes) + PutTexts(items, rest)
  {
    hide PutU64, PutText;
    w.U64(SizeWord(|items|));
    var i := 0;
    while i < |items|
      invariant 0 <= i <= |items|
      invariant forall rest ::
                  w.m_bytes + PutItems(items[i..], PutText, rest) == old(w.m_bytes) + PutTexts(items, rest)
    {
      assert items[i..][1..] == items[i + 1..];
      w.Text(items[i]);
      i := i + 1;
    }
    assert forall rest :: PutItems(items[i..], PutText, rest) == rest;
  }

  method ReadTexts(r: Reader) returns (out: Option<seq<string>>)
    requires r.Valid()
    modifies r
    ensures r.Valid() && Took(GetTexts(old(r.Rest())), out, r.Rest())
  {
    hide Reader.Rest, Reader.Valid;
    hide GetCount, GetText, GetItems;
    var count :- r.Count();
    var items: seq<string> := [];
    var i := 0;
    ghost var all := GetItems(count, GetText, [], r.Rest());
    while i < count
      invariant 0 <= i <= count && r.Valid()
      invariant GetItems(count - i, GetText, items, r.Rest()) == all
    {
      ItemsStep(count - i, GetText, items, r.Rest());
      var item :- r.Text();
      items := items + [item];
      i := i + 1;
    }
    ItemsStep(0, GetText, items, r.Rest());
    out := Some(items);
  }

  method WritePosition(w: Writer, p: S.PositionSnapshot)
    modifies w
    ensures forall rest {:trigger w.m_bytes + rest} :: w.m_bytes + rest == old(w.m_bytes) + PutPosition(p, rest)
  {
    hide PutU8, PutU32, PutU64, PutI64, PutI32, PutBool, PutNumber, PutText, PutDoubles, PutTexts;
    hide PutPositions, PutTrades, PutOrders, PutAssetTable, PutSyncedTable;
    w.Text(p.symbol);
    w.I64(p.quantity);
    w.I64(p.entryPrice);
    w.Boolean(p.isLong);
    w.U64(p.entryTimestamp);
    w.I64(p.entryFee);
    w.I64(p.costBasis);
    w.I64(p.lastMark);
    w.Text(p.strategyId);
  }

  method ReadPosition(r: Reader) returns (out: Option<S.PositionSnapshot>)
    requires r.Valid()
    modifies r
    ensures r.Valid() && Took(GetPosition(old(r.Rest())), out, r.Rest())
  {
    hide Reader.Rest, Reader.Valid;
    hide GetU8, GetU32, GetU64, GetI64, GetI32, GetBool, GetNumber, GetText, GetDoubles, GetTexts;
    hide GetPositions, GetTrades, GetOrders, GetAssetTable, GetSyncedTable, IsFinite;
    var symbol :- r.Text();
    var quantity :- r.I64();
    var entryPrice :- r.I64();
    var isLong :- r.Boolean();
    var entryTimestamp :- r.U64();
    var entryFee :- r.I64();
    var costBasis :- r.I64();
    var lastMark :- r.I64();
    var strategyId :- r.Text();
    out := Some(S.PositionSnapshot(symbol, quantity, entryPrice, isLong, entryTimestamp, entryFee,
                costBasis, lastMark, strategyId));
  }

  method WritePositions(w: Writer, items: seq<S.PositionSnapshot>)
    modifies w
    ensures forall rest {:trigger w.m_bytes + rest} ::
              w.m_bytes + rest == old(w.m_bytes) + PutPositions(items, rest)
  {
    hide PutU64, PutPosition;
    w.U64(SizeWord(|items|));
    var i := 0;
    while i < |items|
      invariant 0 <= i <= |items|
      invariant forall rest ::
                  w.m_bytes + PutItems(items[i..], PutPosition, rest) == old(w.m_bytes) + PutPositions(items, rest)
    {
      assert items[i..][1..] == items[i + 1..];
      WritePosition(w, items[i]);
      i := i + 1;
    }
    assert forall rest :: PutItems(items[i..], PutPosition, rest) == rest;
  }

  method ReadPositions(r: Reader) returns (out: Option<seq<S.PositionSnapshot>>)
    requires r.Valid()
    modifies r
    ensures r.Valid() && Took(GetPositions(old(r.Rest())), out, r.Rest())
  {
    hide Reader.Rest, Reader.Valid;
    hide GetCount, GetPosition, GetItems;
    var count :- r.Count();
    var items: seq<S.PositionSnapshot> := [];
    var i := 0;
    ghost var all := GetItems(count, GetPosition, [], r.Rest());
    while i < count
      invariant 0 <= i <= count && r.Valid()
      invariant GetItems(count - i, GetPosition, items, r.Rest()) == all
    {
      ItemsStep(count - i, GetPosition, items, r.Rest());
      var item :- ReadPosition(r);
      items := items + [item];
      i := i + 1;
    }
    ItemsStep(0, GetPosition, items, r.Rest());
    out := Some(items);
  }

  method WriteTrade(w: Writer, t: L.Trade)
    modifies w
    ensures forall rest {:trigger w.m_bytes + rest} :: w.m_bytes + rest == old(w.m_bytes) + PutTrade(t, rest)
  {
    hide PutU8, PutU32, PutU64, PutI64, PutI32, PutBool, PutNumber, PutText, PutDoubles, PutTexts;
    hide PutPositions, PutTrades, PutOrders, PutAssetTable, PutSyncedTable;
    w.Text(t.symbol);
    w.U64(t.openTimestamp);
    w.U64(t.closeTimestamp);
    w.I64(t.entryPrice);
    w.I64(t.exitPrice);
    w.I64(t.quantity);
    w.I64(t.totalFees);
    w.I64(t.realizedPnL);
    w.I64(t.grossPnL);
    w.Text(t.strategyId);
  }

  method ReadTrade(r: Reader) returns (out: Option<L.Trade>)
    requires r.Valid()
    modifies r
    ensures r.Valid() && Took(GetTrade(old(r.Rest())), out, r.Rest())
  {
    hide Reader.Rest, Reader.Valid;
    hide GetU8, GetU32, GetU64, GetI64, GetI32, GetBool, GetNumber, GetText, GetDoubles, GetTexts;
    hide GetPositions, GetTrades, GetOrders, GetAssetTable, GetSyncedTable, IsFinite;
    var symbol :- r.Text();
    var openTimestamp :- r.U64();
    var closeTimestamp :- r.U64();
    var entryPrice :- r.I64();
    var exitPrice :- r.I64();
    var quantity :- r.I64();
    var totalFees :- r.I64();
    var realizedPnL :- r.I64();
    var grossPnL :- r.I64();
    var strategyId :- r.Text();
    out := Some(L.Trade(symbol, openTimestamp, closeTimestamp, entryPrice, exitPrice, quantity, totalFees,
                realizedPnL, grossPnL, strategyId));
  }

  method WriteTrades(w: Writer, items: seq<L.Trade>)
    modifies w
    ensures forall rest {:trigger w.m_bytes + rest} :: w.m_bytes + rest == old(w.m_bytes) + PutTrades(items, rest)
  {
    hide PutU64, PutTrade;
    w.U64(SizeWord(|items|));
    var i := 0;
    while i < |items|
      invariant 0 <= i <= |items|
      invariant forall rest ::
                  w.m_bytes + PutItems(items[i..], PutTrade, rest) == old(w.m_bytes) + PutTrades(items, rest)
    {
      assert items[i..][1..] == items[i + 1..];
      WriteTrade(w, items[i]);
      i := i + 1;
    }
    assert forall rest :: PutItems(items[i..], PutTrade, rest) == rest;
  }

  method ReadTrades(r: Reader) returns (out: Option<seq<L.Trade>>)
    requires r.Valid()
    modifies r
    ensures r.Valid() && Took(GetTrades(old(r.Rest())), out, r.Rest())
  {
    hide Reader.Rest, Reader.Valid;
    hide GetCount, GetTrade, GetItems;
    var count :- r.Count();
    var items: seq<L.Trade> := [];
    var i := 0;
    ghost var all := GetItems(count, GetTrade, [], r.Rest());
    while i < count
      invariant 0 <= i <= count && r.Valid()
      invariant GetItems(count - i, GetTrade, items, r.Rest()) == all
    {
      ItemsStep(count - i, GetTrade, items, r.Rest());
      var item :- ReadTrade(r);
      items := items + [item];
      i := i + 1;
    }
    ItemsStep(0, GetTrade, items, r.Rest());
    out := Some(items);
  }

  method WriteOrder(w: Writer, o: OrderRecord)
    modifies w
    ensures forall rest {:trigger w.m_bytes + rest} :: w.m_bytes + rest == old(w.m_bytes) + PutOrder(o, rest)
  {
    hide PutU8, PutU32, PutU64, PutI64, PutI32, PutBool, PutNumber, PutText, PutDoubles, PutTexts;
    hide PutPositions, PutTrades, PutOrders, PutAssetTable, PutSyncedTable;
    w.Text(o.symbol);
    w.U8(OrderTypeCode(o.orderType));
    w.Boolean(o.isBuy);
    w.I64(o.limitPrice);
    w.I64(o.trailOffset);
    w.I64(o.trailBest);
    w.I64(o.quantity);
    w.I64(o.capitalToCommit);
    w.U64(o.placedTimestamp);
    w.U64(o.orderId);
  }

  method ReadOrder(r: Reader) returns (out: Option<OrderRecord>)
    requires r.Valid()
    modifies r
    ensures r.Valid() && Took(GetOrder(old(r.Rest())), out, r.Rest())
  {
    hide Reader.Rest, Reader.Valid;
    hide GetU8, GetU32, GetU64, GetI64, GetI32, GetBool, GetNumber, GetText, GetDoubles, GetTexts;
    hide GetPositions, GetTrades, GetOrders, GetAssetTable, GetSyncedTable, IsFinite, GetOrderType;
    var symbol :- r.Text();
    var orderType :- ReadOrderType(r);
    var isBuy :- r.Boolean();
    var limitPrice :- r.I64();
    var trailOffset :- r.I64();
    var trailBest :- r.I64();
    var quantity :- r.I64();
    var capitalToCommit :- r.I64();
    var placedTimestamp :- r.U64();
    var orderId :- r.U64();
    out := Some(OrderRecord(symbol, orderType, isBuy, limitPrice, trailOffset, trailBest, quantity,
                capitalToCommit, placedTimestamp, orderId));
  }

  method WriteOrders(w: Writer, items: seq<OrderRecord>)
    modifies w
    ensures forall rest {:trigger w.m_bytes + rest} :: w.m_bytes + rest == old(w.m_bytes) + PutOrders(items, rest)
  {
    hide PutU64, PutOrder;
    w.U64(SizeWord(|items|));
    var i := 0;
    while i < |items|
      invariant 0 <= i <= |items|
      invariant forall rest ::
                  w.m_bytes + PutItems(items[i..], PutOrder, rest) == old(w.m_bytes) + PutOrders(items, rest)
    {
      assert items[i..][1..] == items[i + 1..];
      WriteOrder(w, items[i]);
      i := i + 1;
    }
    assert forall rest :: PutItems(items[i..], PutOrder, rest) == rest;
  }

  method ReadOrders(r: Reader) returns (out: Option<seq<OrderRecord>>)
    requires r.Valid()
    modifies r
    ensures r.Valid() && Took(GetOrders(old(r.Rest())), out, r.Rest())
  {
    hide Reader.Rest, Reader.Valid;
    hide GetCount, GetOrder, GetItems;
    var count :- r.Count();
    var items: seq<OrderRecord> := [];
    var i := 0;
    ghost var all := GetItems(count, GetOrder, [], r.Rest());
    while i < count
      invariant 0 <= i <= count && r.Valid()
      invariant GetItems(count - i, GetOrder, items, r.Rest()) == all
    {
      ItemsStep(count - i, GetOrder, items, r.Rest());
      var item :- ReadOrder(r);
      items := items + [item];
      i := i + 1;
    }
    ItemsStep(0, GetOrder, items, r.Rest());
    out := Some(items);
  }

  method WritePortfolio(w: Writer, s: PortfolioRecord)
    modifies w
    ensures forall rest {:trigger w.m_bytes + rest} :: w.m_bytes + rest == old(w.m_bytes) + PutPortfolio(s, rest)
  {
    hide PutU8, PutU32, PutU64, PutI64, PutI32, PutBool, PutNumber, PutText, PutDoubles, PutTexts;
    hide PutPositions, PutTrades, PutOrders, PutAssetTable, PutSyncedTable;
    w.I64(s.cash);
    w.I64(s.unrealized);
    w.I64(s.totalEquity);
    w.I64(s.maxEquity);
    w.Number(s.currentDrawdown);
    w.Number(s.maxDrawdown);
    w.I32(s.tradeCount);
    w.I64(s.totalFees);
    w.I32(s.roundTripCount);
    WritePositions(w, s.positions);
    WriteTrades(w, s.tradeLog);
    WriteOrders(w, s.pendingOrders);
    w.U64(s.nextOrderId);
  }

  method ReadPortfolio(r: Reader) returns (out: Option<PortfolioRecord>)
    requires r.Valid()
    modifies r
    ensures r.Valid() && Took(GetPortfolio(old(r.Rest())), out, r.Rest())
  {
    hide Reader.Rest, Reader.Valid;
    hide GetU8, GetU32, GetU64, GetI64, GetI32, GetBool, GetNumber, GetText, GetDoubles, GetTexts;
    hide GetPositions, GetTrades, GetOrders, GetAssetTable, GetSyncedTable, IsFinite;
    var cash :- r.I64();
    var unrealized :- r.I64();
    var totalEquity :- r.I64();
    var maxEquity :- r.I64();
    var currentDrawdown :- r.Number();
    var maxDrawdown :- r.Number();
    var tradeCount :- r.I32();
    var totalFees :- r.I64();
    var roundTripCount :- r.I32();
    var positions :- ReadPositions(r);
    var tradeLog :- ReadTrades(r);
    var pendingOrders :- ReadOrders(r);
    var nextOrderId :- r.U64();
    out := Some(PortfolioRecord(cash, unrealized, totalEquity, maxEquity, currentDrawdown, maxDrawdown,
                tradeCount, totalFees, roundTripCount, positions, tradeLog, pendingOrders, nextOrderId));
  }

  method WriteAsset(w: Writer, a: Row<AssetState>)
    modifies w
    ensures forall rest {:trigger w.m_bytes + rest} :: w.m_bytes + rest == old(w.m_bytes) + PutAsset(a, rest)
  {
    hide PutU8, PutU32, PutU64, PutI64, PutI32, PutBool, PutNumber, PutText, PutDoubles, PutTexts;
    hide PutPositions, PutTrades, PutOrders, PutAssetTable, PutSyncedTable;
    w.Text(a.key);
    WriteDoubles(w, a.value.returnWindow);
    w.Number(a.value.prevPrice);
    w.Boolean(a.value.prevPriceValid);
    w.Number(a.value.positionValue);
  }

  method ReadAsset(r: Reader) returns (out: Option<Row<AssetState>>)
    requires r.Valid()
    modifies r
    ensures r.Valid() && Took(GetAsset(old(r.Rest())), out, r.Rest())
  {
    hide Reader.Rest, Reader.Valid;
    hide GetU8, GetU32, GetU64, GetI64, GetI32, GetBool, GetNumber, GetText, GetDoubles, GetTexts;
    hide GetPositions, GetTrades, GetOrders, GetAssetTable, GetSyncedTable, IsFinite;
    var key :- r.Text();
    var returnWindow :- ReadDoubles(r);
    var prevPrice :- r.Number();
    var prevPriceValid :- r.Boolean();
    var positionValue :- r.Number();
    out := Some(Row(key, AssetState(returnWindow, prevPrice, prevPriceValid, positionValue)));
  }

  method WriteAssetTable(w: Writer, table: map<string, AssetState>)
    modifies w
    ensures forall rest {:trigger w.m_bytes + rest} ::
              w.m_bytes + rest == old(w.m_bytes) + PutAssetTable(table, rest)
  {
    hide PutU64, PutAsset, Sorted;
    var keys := Sorted(table.Keys);
    ghost var rows := EntriesOf(table, keys);
    w.U64(SizeWord(|keys|));
    var i := 0;
    while i < |keys|
      invariant 0 <= i <= |keys|
      invariant forall rest ::
                  w.m_bytes + PutItems(rows[i..], PutAsset, rest) == old(w.m_bytes) + PutAssetTable(table, rest)
    {
      assert keys[i] in keys && rows[i..][1..] == rows[i + 1..];
      WriteAsset(w, Row(keys[i], table[keys[i]]));
      i := i + 1;
    }
    assert forall rest :: PutItems(rows[i..], PutAsset, rest) == rest;
  }

  method ReadAssetTable(r: Reader) returns (out: Option<map<string, AssetState>>)
    requires r.Valid()
    modifies r
    ensures r.Valid() && Took(GetAssetTable(old(r.Rest())), out, r.Rest())
  {
    hide Reader.Rest, Reader.Valid;
    hide GetCount, GetAsset;
    var count :- r.Count();
    var table: map<string, AssetState> := map[];
    var i := 0;
    ghost var all := GetEntries(count, GetAsset, map[], r.Rest());
    while i < count
      invariant 0 <= i <= count && r.Valid()
      invariant GetEntries(count - i, GetAsset, table, r.Rest()) == all
    {
      var row :- ReadAsset(r);
      if row.key == "" || row.key in table {
        return None;
      }
      table := table[row.key := row.value];
      i := i + 1;
    }
    out := Some(table);
  }

  method WriteSynced(w: Writer, e: Row<Double>)
    modifies w
    ensures forall rest {:trigger w.m_bytes + rest} :: w.m_bytes + rest == old(w.m_bytes) + PutSynced(e, rest)
  {
    hide PutU8, PutU32, PutU64, PutI64, PutI32, PutBool, PutNumber, PutText, PutDoubles, PutTexts;
    hide PutPositions, PutTrades, PutOrders, PutAssetTable, PutSyncedTable;
    w.Text(e.key);
    w.Number(e.value);
  }

  method ReadSynced(r: Reader) returns (out: Option<Row<Double>>)
    requires r.Valid()
    modifies r
    ensures r.Valid() && Took(GetSynced(old(r.Rest())), out, r.Rest())
  {
    hide Reader.Rest, Reader.Valid;
    hide GetU8, GetU32, GetU64, GetI64, GetI32, GetBool, GetNumber, GetText, GetDoubles, GetTexts;
    hide GetPositions, GetTrades, GetOrders, GetAssetTable, GetSyncedTable, IsFinite;
    var key :- r.Text();
    var value :- r.Number();
    out := Some(Row(key, value));
  }

  method WriteSyncedTable(w: Writer, table: map<string, Double>)
    modifies w
    ensures forall rest {:trigger w.m_bytes + rest} ::
              w.m_bytes + rest == old(w.m_bytes) + PutSyncedTable(table, rest)
  {
    hide PutU64, PutSynced, Sorted;
    var keys := Sorted(table.Keys);
    ghost var rows := EntriesOf(table, keys);
    w.U64(SizeWord(|keys|));
    var i := 0;
    while i < |keys|
      invariant 0 <= i <= |keys|
      invariant forall rest ::
                  w.m_bytes + PutItems(rows[i..], PutSynced, rest) == old(w.m_bytes) + PutSyncedTable(table, rest)
    {
      assert keys[i] in keys && rows[i..][1..] == rows[i + 1..];
      WriteSynced(w, Row(keys[i], table[keys[i]]));
      i := i + 1;
    }
    assert forall rest :: PutItems(rows[i..], PutSynced, rest) == rest;
  }

  method ReadSyncedTable(r: Reader) returns (out: Option<map<string, Double>>)
    requires r.Valid()
    modifies r
    ensures r.Valid() && Took(GetSyncedTable(old(r.Rest())), out, r.Rest())
  {
    hide Reader.Rest, Reader.Valid;
    hide GetCount, GetSynced;
    var count :- r.Count();
    var table: map<string, Double> := map[];
    var i := 0;
    ghost var all := GetEntries(count, GetSynced, map[], r.Rest());
    while i < count
      invariant 0 <= i <= count && r.Valid()
      invariant GetEntries(count - i, GetSynced, table, r.Rest()) == all
    {
      var row :- ReadSynced(r);
      if row.key == "" || row.key in table {
        return None;
      }
      table := table[row.key := row.value];
      i := i + 1;
    }
    out := Some(table);
  }

  method WriteRiskAccount(w: Writer, s: RiskAccount)
    modifies w
    ensures forall rest {:trigger w.m_bytes + rest} :: w.m_bytes + rest == old(w.m_bytes) + PutRiskAccount(s, rest)
  {
    hide PutU8, PutU32, PutU64, PutI64, PutI32, PutBool, PutNumber, PutText, PutDoubles, PutTexts;
    hide PutPositions, PutTrades, PutOrders, PutAssetTable, PutSyncedTable;
    w.U64(s.configuredMaxPositions);
    w.Number(s.configuredVarLimit);
    w.U64(s.configuredVarWindow);
    w.Number(s.totalDrawdown);
    w.Number(s.dailyDrawdown);
    w.Number(s.prevEquity);
    w.Boolean(s.prevEquityValid);
  }

  method ReadRiskAccount(r: Reader) returns (out: Option<RiskAccount>)
    requires r.Valid()
    modifies r
    ensures r.Valid() && Took(GetRiskAccount(old(r.Rest())), out, r.Rest())
  {
    hide Reader.Rest, Reader.Valid;
    hide GetU8, GetU32, GetU64, GetI64, GetI32, GetBool, GetNumber, GetText, GetDoubles, GetTexts;
    hide GetPositions, GetTrades, GetOrders, GetAssetTable, GetSyncedTable, IsFinite;
    var configuredMaxPositions :- r.U64();
    var configuredVarLimit :- r.Number();
    var configuredVarWindow :- r.U64();
    var totalDrawdown :- r.Number();
    var dailyDrawdown :- r.Number();
    var prevEquity :- r.Number();
    var prevEquityValid :- r.Boolean();
    out := Some(RiskAccount(configuredMaxPositions, configuredVarLimit, configuredVarWindow,
                totalDrawdown, dailyDrawdown, prevEquity, prevEquityValid));
  }

  method WriteRiskReturns(w: Writer, s: RiskReturns)
    modifies w
    ensures forall rest {:trigger w.m_bytes + rest} :: w.m_bytes + rest == old(w.m_bytes) + PutRiskReturns(s, rest)
  {
    hide PutU8, PutU32, PutU64, PutI64, PutI32, PutBool, PutNumber, PutText, PutDoubles, PutTexts;
    hide PutPositions, PutTrades, PutOrders, PutAssetTable, PutSyncedTable;
    WriteDoubles(w, s.returnWindow);
    w.Number(s.currentVaR95);
    w.Number(s.returnStdDev);
    WriteAssetTable(w, s.assetStates);
    WriteDoubles(w, s.covarianceMatrix);
    WriteTexts(w, s.assetOrder);
  }

  method ReadRiskReturns(r: Reader) returns (out: Option<RiskReturns>)
    requires r.Valid()
    modifies r
    ensures r.Valid() && Took(GetRiskReturns(old(r.Rest())), out, r.Rest())
  {
    hide Reader.Rest, Reader.Valid;
    hide GetU8, GetU32, GetU64, GetI64, GetI32, GetBool, GetNumber, GetText, GetDoubles, GetTexts;
    hide GetPositions, GetTrades, GetOrders, GetAssetTable, GetSyncedTable, IsFinite;
    var returnWindow :- ReadDoubles(r);
    var currentVaR95 :- r.Number();
    var returnStdDev :- r.Number();
    var assetStates :- ReadAssetTable(r);
    var covarianceMatrix :- ReadDoubles(r);
    var assetOrder :- ReadTexts(r);
    out := Some(RiskReturns(returnWindow, currentVaR95, returnStdDev, assetStates, covarianceMatrix,
                assetOrder));
  }

  method WriteRiskLimits(w: Writer, s: RiskLimits)
    modifies w
    ensures forall rest {:trigger w.m_bytes + rest} :: w.m_bytes + rest == old(w.m_bytes) + PutRiskLimits(s, rest)
  {
    hide PutU8, PutU32, PutU64, PutI64, PutI32, PutBool, PutNumber, PutText, PutDoubles, PutTexts;
    hide PutPositions, PutTrades, PutOrders, PutAssetTable, PutSyncedTable;
    w.Boolean(s.multiAssetMode);
    w.Boolean(s.closeOnly);
    w.U32(s.lastLatencyMs);
    w.Boolean(s.halted);
    WriteSyncedTable(w, s.syncedPositions);
    w.U64(s.effectiveMaxPositions);
    w.Number(s.effectiveVarLimit);
    w.Boolean(s.volatilityScaled);
  }

  method ReadRiskLimits(r: Reader) returns (out: Option<RiskLimits>)
    requires r.Valid()
    modifies r
    ensures r.Valid() && Took(GetRiskLimits(old(r.Rest())), out, r.Rest())
  {
    hide Reader.Rest, Reader.Valid;
    hide GetU8, GetU32, GetU64, GetI64, GetI32, GetBool, GetNumber, GetText, GetDoubles, GetTexts;
    hide GetPositions, GetTrades, GetOrders, GetAssetTable, GetSyncedTable, IsFinite;
    var multiAssetMode :- r.Boolean();
    var closeOnly :- r.Boolean();
    var lastLatencyMs :- r.U32();
    var halted :- r.Boolean();
    var syncedPositions :- ReadSyncedTable(r);
    var effectiveMaxPositions :- r.U64();
    var effectiveVarLimit :- r.Number();
    var volatilityScaled :- r.Boolean();
    out := Some(RiskLimits(multiAssetMode, closeOnly, lastLatencyMs, halted, syncedPositions,
                effectiveMaxPositions, effectiveVarLimit, volatilityScaled));
  }

  method WriteRisk(w: Writer, s: RiskRecord)
    modifies w
    ensures forall rest {:trigger w.m_bytes + rest} :: w.m_bytes + rest == old(w.m_bytes) + PutRisk(s, rest)
  {
    hide PutRiskAccount, PutRiskReturns, PutRiskLimits;
    WriteRiskAccount(w, s.account);
    WriteRiskReturns(w, s.history);
    WriteRiskLimits(w, s.limits);
  }

  method ReadRisk(r: Reader) returns (out: Option<RiskRecord>)
    requires r.Valid()
    modifies r
    ensures r.Valid() && Took(GetRisk(old(r.Rest())), out, r.Rest())
  {
    hide Reader.Rest, Reader.Valid;
    hide GetRiskAccount, GetRiskReturns, GetRiskLimits;
    var account :- ReadRiskAccount(r);
    var history :- ReadRiskReturns(r);
    var limits :- ReadRiskLimits(r);
    out := Some(RiskRecord(account, history, limits));
  }

  method WriteRegime(w: Writer, s: RegimeRecord)
    modifies w
    ensures forall rest {:trigger w.m_bytes + rest} :: w.m_bytes + rest == old(w.m_bytes) + PutRegime(s, rest)
  {
    hide PutU8, PutU32, PutU64, PutI64, PutI32, PutBool, PutNumber, PutText, PutDoubles, PutTexts;
    hide PutPositions, PutTrades, PutOrders, PutAssetTable, PutSyncedTable;
    w.Number(s.smoothTR);
    w.Number(s.smoothDMPlus);
    w.Number(s.smoothDMMinus);
    w.Number(s.adx);
    w.I32(s.adxObservations);
    WriteDoubles(w, s.returnWindow);
    w.Number(s.prevClose);
    w.Boolean(s.prevCloseValid);
    w.Number(s.variance);
    w.Number(s.prevHigh);
    w.Number(s.prevLow);
    w.Boolean(s.prevHLValid);
    w.U8(RegimeCode(s.regime));
  }

  method ReadRegime(r: Reader) returns (out: Option<RegimeRecord>)
    requires r.Valid()
    modifies r
    ensures r.Valid() && Took(GetRegime(old(r.Rest())), out, r.Rest())
  {
    hide Reader.Rest, Reader.Valid;
    hide GetU8, GetU32, GetU64, GetI64, GetI32, GetBool, GetNumber, GetText, GetDoubles, GetTexts;
    hide GetPositions, GetTrades, GetOrders, GetAssetTable, GetSyncedTable, IsFinite, GetMarketRegime;
    var smoothTR :- r.Number();
    var smoothDMPlus :- r.Number();
    var smoothDMMinus :- r.Number();
    var adx :- r.Number();
    var adxObservations :- r.I32();
    var returnWindow :- ReadDoubles(r);
    var prevClose :- r.Number();
    var prevCloseValid :- r.Boolean();
    var variance :- r.Number();
    var prevHigh :- r.Number();
    var prevLow :- r.Number();
    var prevHLValid :- r.Boolean();
    var regime :- ReadMarketRegime(r);
    out := Some(RegimeRecord(smoothTR, smoothDMPlus, smoothDMMinus, adx, adxObservations, returnWindow,
                prevClose, prevCloseValid, variance, prevHigh, prevLow, prevHLValid, regime));
  }

  method WritePhi(w: Writer, e: Row<PhiState>)
    modifies w
    ensures forall rest {:trigger w.m_bytes + rest} :: w.m_bytes + rest == old(w.m_bytes) + PutPhi(e, rest)
  {
    hide PutU8, PutU32, PutU64, PutI64, PutI32, PutBool, PutNumber, PutText, PutDoubles, PutTexts;
    hide PutPositions, PutTrades, PutOrders, PutAssetTable, PutSyncedTable;
    w.Text(e.key);
    WriteDoubles(w, e.value.pnlWindow);
    w.Number(e.value.phi);
  }

  method ReadPhi(r: Reader) returns (out: Option<Row<PhiState>>)
    requires r.Valid()
    modifies r
    ensures r.Valid() && Took(GetPhi(old(r.Rest())), out, r.Rest())
  {
    hide Reader.Rest, Reader.Valid;
    hide GetU8, GetU32, GetU64, GetI64, GetI32, GetBool, GetNumber, GetText, GetDoubles, GetTexts;
    hide GetPositions, GetTrades, GetOrders, GetAssetTable, GetSyncedTable, IsFinite;
    var key :- r.Text();
    var pnlWindow :- ReadDoubles(r);
    var phi :- r.Number();
    out := Some(Row(key, PhiState(pnlWindow, phi)));
  }

  method WritePhiTable(w: Writer, table: map<string, PhiState>)
    modifies w
    ensures forall rest {:trigger w.m_bytes + rest} :: w.m_bytes + rest == old(w.m_bytes) + PutPhiTable(table, rest)
  {
    hide PutU64, PutPhi, Sorted;
    var keys := Sorted(table.Keys);
    ghost var rows := EntriesOf(table, keys);
    w.U64(SizeWord(|keys|));
    var i := 0;
    while i < |keys|
      invariant 0 <= i <= |keys|
      invariant forall rest ::
                  w.m_bytes + PutItems(rows[i..], PutPhi, rest) == old(w.m_bytes) + PutPhiTable(table, rest)
    {
      assert keys[i] in keys && rows[i..][1..] == rows[i + 1..];
      WritePhi(w, Row(keys[i], table[keys[i]]));
      i := i + 1;
    }
    assert forall rest :: PutItems(rows[i..], PutPhi, rest) == rest;
  }

  method ReadPhiTable(r: Reader) returns (out: Option<map<string, PhiState>>)
    requires r.Valid()
    modifies r
    ensures r.Valid() && Took(GetPhiTable(old(r.Rest())), out, r.Rest())
  {
    hide Reader.Rest, Reader.Valid;
    hide GetCount, GetPhi;
    var count :- r.Count();
    var table: map<string, PhiState> := map[];
    var i := 0;
    ghost var all := GetEntries(count, GetPhi, map[], r.Rest());
    while i < count
      invariant 0 <= i <= count && r.Valid()
      invariant GetEntries(count - i, GetPhi, table, r.Rest()) == all
    {
      var row :- ReadPhi(r);
      if row.key == "" || row.key in table {
        return None;
      }
      table := table[row.key := row.value];
      i := i + 1;
    }
    out := Some(table);
  }

  // ---------------------------------------------------------------------------
  // Payload
  // ---------------------------------------------------------------------------

  method WritePayload(p: Payload) returns (bytes: Bytes)
    ensures bytes == Encode(p)
  {
    hide PutBool, PutText, PutU64, PutPortfolio, PutRisk, PutExtended;
    var w := new Writer();
    assert forall tail: Bytes :: w.m_bytes + tail == tail;
    w.Text(MAGIC);
    w.Boolean(p.extended.Some?);
    w.U64(p.checkpoint);
    WritePortfolio(w, p.portfolio);
    WriteRisk(w, p.risk);
    WriteExtended(w, p.extended);
    bytes := w.m_bytes;
    assert bytes + [] == bytes;
  }

  method WriteExtended(w: Writer, extended: Option<ExtendedRecord>)
    modifies w
    ensures forall rest {:trigger w.m_bytes + rest} ::
              w.m_bytes + rest == old(w.m_bytes) + PutExtended(extended, rest)
  {
    hide PutRegime, PutPhiTable;
    if extended.Some? {
      WriteRegime(w, extended.value.regime);
      WritePhiTable(w, extended.value.phi);
    }
  }

  method ReadExtended(r: Reader, hasExtended: bool) returns (out: Option<Option<ExtendedRecord>>)
    requires r.Valid()
    modifies r
    ensures r.Valid() && Took(GetExtended(hasExtended, old(r.Rest())), out, r.Rest())
  {
    hide Reader.Rest, Reader.Valid;
    hide GetRegime, GetPhiTable;
    if !hasExtended {
      return Some(None);
    }
    var regime :- ReadRegime(r);
    var phi :- ReadPhiTable(r);
    out := Some(Some(ExtendedRecord(regime, phi)));
  }

  method ReadPayload(bytes: Bytes) returns (out: Option<Payload>)
    ensures out == Decode(bytes)
  {
    hide Reader.Rest, Reader.Valid, GetBool, GetText, GetU64, GetPortfolio, GetRisk, GetExtended;
    var r := new Reader(bytes);
    var magic :- r.Text();
    if magic != MAGIC {
      return None;
    }
    var hasExtended :- r.Boolean();
    var checkpoint :- r.U64();
    var portfolio :- ReadPortfolio(r);
    var risk :- ReadRisk(r);
    var extended :- ReadExtended(r, hasExtended);
    var done := r.Done();
    if !done {
      return None;
    }
    out := Some(Payload(checkpoint, portfolio, risk, extended));
  }

  // ---------------------------------------------------------------------------
  // Hexadecimal and checksum
  // ---------------------------------------------------------------------------

  method Checksum(bytes: Bytes) returns (value: u64)
    ensures value == E.Checksum(bytes)
  {
    hide E.Absorb;
    value := E.OFFSET_BASIS;
    var i := 0;
    while i < |bytes|
      invariant 0 <= i <= |bytes|
      invariant E.ChecksumFrom(value, bytes[i..]) == E.Checksum(bytes)
    {
      assert bytes[i..][1..] == bytes[i + 1..];
      value := E.Absorb(value, bytes[i]);
      i := i + 1;
    }
  }

  method HexEncode(bytes: Bytes) returns (text: string)
    ensures text == E.HexEncode(bytes)
  {
    hide E.Digit;
    text := "";
    var i := 0;
    while i < |bytes|
      invariant 0 <= i <= |bytes|
      invariant text + E.HexEncode(bytes[i..]) == E.HexEncode(bytes)
    {
      assert bytes[i..][1..] == bytes[i + 1..];
      var pair := [E.Digit(bytes[i] / 16), E.Digit(bytes[i] % 16)];
      assert text + (pair + E.HexEncode(bytes[i + 1..])) == (text + pair) + E.HexEncode(bytes[i + 1..]);
      text := text + pair;
      i := i + 1;
    }
    assert text + "" == text;
  }

  method HexDecode(text: string) returns (out: Option<Bytes>)
    ensures out == E.HexDecode(text)
  {
    hide E.HexDigit;
    if |text| % 2 != 0 || |text| / 2 > E.MAX_PAYLOAD {
      return None;
    }
    var bytes: Bytes, i := [], 0;
    assert text[0..] == text && forall rest: Bytes :: bytes + rest == rest;
    while i < |text| / 2
      invariant 0 <= i <= |text| / 2
      invariant match E.HexPairs(text[2 * i..])
                case Some(rest) => E.HexPairs(text) == Some(bytes + rest)
                case None => E.HexPairs(text) == None
    {
      E.DigitsReadBack();
      assert text[2 * i..][2..] == text[2 * (i + 1)..];
      var high, low := E.HexDigit(text[2 * i]), E.HexDigit(text[2 * i + 1]);
      if high == None || low == None {
        return None;
      }
      var b: byte := 16 * high.value + low.value;
      assert forall rest: Bytes :: bytes + ([b] + rest) == (bytes + [b]) + rest;
      bytes := bytes + [b];
      i := i + 1;
    }
    assert text[2 * i..] == "" && bytes + [] == bytes;
    out := Some(bytes);
  }

  // ---------------------------------------------------------------------------
  // Validation
  // ---------------------------------------------------------------------------

  /** Restores the record into a ledger made for the purpose; the real one is not touched. */
  method ValidatePortfolio(p: PortfolioRecord, h: HashOrder) returns (ok: bool)
    ensures ok <==> D.ValidPortfolio(p, h)
  {
    hide D.ToSnapshot, D.ValidPosition, D.ValidTrade, IsFinite, S.RestoreState;
    if p.cash < 0 || p.totalEquity < 0 || p.maxEquity < 0 || p.totalFees < 0 || p.tradeCount < 0
       || p.roundTripCount < 0 || p.nextOrderId == 0 || !IsFinite(p.currentDrawdown) || !IsFinite(p.maxDrawdown) {
      return false;
    }
    var symbols: set<string>, i := {}, 0;
    while i < |p.positions|
      invariant 0 <= i <= |p.positions|
      invariant forall j :: 0 <= j < i ==> D.ValidPosition(p.positions[j])
      invariant forall j, k :: 0 <= j < k < i ==> p.positions[j].symbol != p.positions[k].symbol
      invariant symbols == set j | 0 <= j < i :: p.positions[j].symbol
    {
      if !D.ValidPosition(p.positions[i]) || p.positions[i].symbol in symbols {
        return false;
      }
      symbols := symbols + {p.positions[i].symbol};
      i := i + 1;
    }
    var ordersOk := ValidateOrders(p.pendingOrders, p.nextOrderId);
    if !ordersOk {
      return false;
    }
    i := 0;
    while i < |p.tradeLog|
      invariant 0 <= i <= |p.tradeLog|
      invariant forall j :: 0 <= j < i ==> D.ValidTrade(p.tradeLog[j])
    {
      if !D.ValidTrade(p.tradeLog[i]) {
        return false;
      }
      i := i + 1;
    }
    var detached := new PM.PortfolioManager();
    var error := detached.RestoreState(D.ToSnapshot(p), h);
    ok := error == None;
  }

  /** Pending orders are named, have distinct non-zero identities, and the next identity is beyond them all. */
  method ValidateOrders(orders: seq<OrderRecord>, nextOrderId: u64) returns (ok: bool)
    requires nextOrderId != 0
    ensures ok <==> (&& (forall i :: 0 <= i < |orders| ==> D.ValidOrder(orders[i], nextOrderId))
                     && (forall i, j :: 0 <= i < j < |orders| ==> orders[i].orderId != orders[j].orderId))
  {
    var maxOrderId: u64, ids: set<u64>, i := 0, {}, 0;
    while i < |orders|
      invariant 0 <= i <= |orders|
      invariant forall j :: 0 <= j < i ==> orders[j].symbol != "" && orders[j].orderId != 0
      invariant forall j, k :: 0 <= j < k < i ==> orders[j].orderId != orders[k].orderId
      invariant ids == set j | 0 <= j < i :: orders[j].orderId
      invariant forall j :: 0 <= j < i ==> orders[j].orderId <= maxOrderId
      invariant maxOrderId == 0 || maxOrderId in ids
    {
      if orders[i].symbol == "" || orders[i].orderId == 0 || orders[i].orderId in ids {
        return false;
      }
      ids := ids + {orders[i].orderId};
      if orders[i].orderId > maxOrderId {
        maxOrderId := orders[i].orderId;
      }
      i := i + 1;
    }
    ok := nextOrderId > maxOrderId;
  }

  // ---------------------------------------------------------------------------
  // Saving and loading
  // ---------------------------------------------------------------------------

  /** What a load overwrites beside the ledger: the other components' restorable state. */
  class Runtime {
    const config: D.RiskConfig
    var state: R.RuntimeState

    constructor (config: D.RiskConfig, state: R.RuntimeState)
      ensures this.config == config && this.state == state
    {
      this.config, this.state := config, state;
    }
  }

  class StateSerializer {
    var m_lastError: Option<E.LoadError>

    constructor ()
      ensures m_lastError == None
    {
      m_lastError := None;
    }

    method SaveSnapshot(p: Payload, errorFree: bool, h: HashOrder) returns (text: Option<string>)
      ensures text == D.Save(p, errorFree, h)
    {
      hide D.ValidPortfolio, D.ValidRisk, D.ValidExtended, Encode, E.HexEncode, E.Checksum, E.Hex64;
      hide E.Canonical;
      if !errorFree {
        return None;
      }
      var portfolioOk := ValidatePortfolio(p.portfolio, h);
      if !portfolioOk || !D.ValidRisk(p.risk) || (p.extended.Some? && !D.ValidExtended(p.extended.value)) {
        return None;
      }
      var bytes := WritePayload(p);
      var checksum := Checksum(bytes);
      var payload := HexEncode(bytes);
      text := Some(E.Canonical(E.CurrentEnvelope(E.Hex64(checksum), payload)));
    }

    method ReadFile(json: string) returns (bytes: Result<Bytes, E.LoadError>)
      ensures bytes == E.LoadBytes(json)
    {
      hide E.ParseEnvelope, E.Canonical, E.HexDecode, E.Checksum, E.Hex64;
      if |json| > E.MAX_PAYLOAD * 2 + 4096 {
        return Err(E.SizeLimit);
      }
      var parsed := E.ParseEnvelope(json);
      if parsed == None {
        return Err(E.Malformed);
      }
      var e := parsed.value;
      if json != E.Canonical(e) {
        return Err(E.NotCanonical);
      }
      if e.schema != E.SCHEMA {
        return Err(E.UnsupportedSchema);
      }
      if e.version != E.SNAPSHOT_VERSION {
        return Err(E.UnsupportedVersion);
      }
      if e.encoding != E.ENCODING {
        return Err(E.UnsupportedEncoding);
      }
      var decoded := HexDecode(e.payload);
      if decoded == None {
        return Err(E.Corrupt);
      }
      var checksum := Checksum(decoded.value);
      if E.Hex64(checksum) != e.checksum {
        return Err(E.Corrupt);
      }
      bytes := Ok(decoded.value);
    }

    /** Everything is read and validated before anything is overwritten. */
    method ReadSnapshot(json: string, wantsExtended: bool, config: D.RiskConfig, h: HashOrder)
      returns (read: Result<Payload, E.LoadError>)
      ensures read == D.Load(json, wantsExtended, config, h)
    {
      hide E.LoadBytes, Decode, D.ValidPortfolio, D.ValidRisk, D.ValidExtended, D.CanRestore;
      var bytes :- ReadFile(json);
      var decoded := ReadPayload(bytes);
      if decoded == None {
        return Err(E.InvalidPayload);
      }
      var p := decoded.value;
      if wantsExtended && p.extended == None {
        return Err(E.LacksExtendedState);
      }
      var portfolioOk := ValidatePortfolio(p.portfolio, h);
      if !portfolioOk || !D.ValidRisk(p.risk) {
        return Err(E.InvalidState);
      }
      if !D.CanRestore(p.risk, config) {
        return Err(E.ConfigurationMismatch);
      }
      if p.extended.Some? && !D.ValidExtended(p.extended.value) {
        return Err(E.InvalidState);
      }
      read := Ok(p);
    }

    /** A load that fails overwrites nothing; one that succeeds cannot fail half-way. */
    method LoadSnapshot(portfolio: PM.PortfolioManager, runtime: Runtime, json: string, wantsExtended: bool,
        h: HashOrder)
      returns (ok: bool)
      modifies this, portfolio, runtime
      ensures match D.Load(json, wantsExtended, runtime.config, h)
              case Err(e) =>
                && !ok && m_lastError == Some(e)
                && portfolio.State() == old(portfolio.State()) && runtime.state == old(runtime.state)
              case Ok(p) =>
                && ok && m_lastError == None
                && S.RestoreState(D.ToSnapshot(p.portfolio), h) == Ok(portfolio.State())
                && (wantsExtended ==> p.extended.Some?)
                && runtime.state == R.Overwritten(old(runtime.state), p, wantsExtended)
    {
      hide D.Load, S.RestoreState, D.ToSnapshot;
      m_lastError := None;
      var read := ReadSnapshot(json, wantsExtended, runtime.config, h);
      if read.Err? {
        m_lastError := Some(read.error);
        return false;
      }
      D.LoadedStateRestores(json, wantsExtended, runtime.config, h);
      var p := read.value;
      var error := portfolio.RestoreState(D.ToSnapshot(p.portfolio), h);
      assert error == None;
      runtime.state := R.Overwritten(runtime.state, p, wantsExtended);
      ok := true;
    }
  }
}
