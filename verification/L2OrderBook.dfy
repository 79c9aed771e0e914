/** The order book as an object over two level arrays updated in place. */
module L2OrderBooks {
  import opened Wrappers
  import B = OrderBookLadder

  class L2OrderBook {
    const m_tickSize: real
    const m_bidLevels: array<real>
    const m_askLevels: array<real>
    var m_basePrice: real
    var m_initialized: bool
    var m_bestBidIdx: int
    var m_bestAskIdx: int
    var m_lastBboBidIdx: int
    var m_lastBboAskIdx: int
    var m_recenters: nat

    ghost predicate Valid() {
      m_tickSize > 0.0 && m_bidLevels != m_askLevels && m_bidLevels.Length == m_askLevels.Length > 0
    }

    ghost function Bids(): B.Side
      reads this, m_bidLevels
    {
      B.Side(m_bidLevels[..], m_bestBidIdx, m_lastBboBidIdx)
    }

    ghost function Asks(): B.Side
      reads this, m_askLevels
    {
      B.Side(m_askLevels[..], m_bestAskIdx, m_lastBboAskIdx)
    }

    ghost function State(): (b: B.Book)
      requires Valid()
      reads this, m_bidLevels, m_askLevels
      ensures B.WellFormed(b)
    {
      B.Book(m_tickSize, m_basePrice, m_initialized, Bids(), Asks(), m_recenters)
    }

    constructor (tickSize: real, levelCount: nat)
      requires levelCount > 0
      ensures Valid() && fresh(m_bidLevels) && fresh(m_askLevels)
      ensures State() == B.NewBook(tickSize, levelCount)
    {
      m_tickSize := if tickSize > 0.0 then tickSize else 0.01;
      m_bidLevels := new real[levelCount](_ => 0.0);
      m_askLevels := new real[levelCount](_ => 0.0);
      m_basePrice, m_initialized := 0.0, false;
      m_bestBidIdx, m_bestAskIdx, m_lastBboBidIdx, m_lastBboAskIdx := -1, -1, -1, -1;
      m_recenters := 0;
      new;
      assert m_bidLevels[..] == B.EmptySide(levelCount).levels;
      assert m_askLevels[..] == B.EmptySide(levelCount).levels;
    }

    method Fill(levels: array<real>)
      modifies levels
      ensures levels[..] == B.EmptySide(levels.Length).levels
    {
      var i := 0;
      while i < levels.Length
        invariant 0 <= i <= levels.Length
        invariant forall j :: 0 <= j < i ==> levels[j] == 0.0
      {
        levels[i] := 0.0;
        i := i + 1;
      }
    }

    method Reset(referencePrice: real)
      requires Valid()
      modifies this, m_bidLevels, m_askLevels
      ensures State() == B.ResetTo(old(State()), referencePrice)
    {
      Fill(m_bidLevels);
      Fill(m_askLevels);
      m_bestBidIdx, m_bestAskIdx, m_lastBboBidIdx, m_lastBboAskIdx := -1, -1, -1, -1;
      if referencePrice > 0.0 {
        Recenter(referencePrice);
      } else {
        m_basePrice, m_initialized := 0.0, false;
      }
    }

    method Recenter(referencePrice: real)
      requires Valid()
      modifies this, m_bidLevels, m_askLevels
      ensures State() == B.Recenter(old(State()), referencePrice)
    {
      m_basePrice := referencePrice;
      m_initialized := true;
      m_bestBidIdx, m_bestAskIdx, m_lastBboBidIdx, m_lastBboAskIdx := -1, -1, -1, -1;
      Fill(m_bidLevels);
      Fill(m_askLevels);
      m_recenters := m_recenters + 1;
    }

    method EnsureMappable(price: real)
      requires Valid()
      modifies this, m_bidLevels, m_askLevels
      ensures State() == B.EnsureMappable(old(State()), price)
    {
      if !m_initialized {
        Recenter(price);
        return;
      }
      var maxDistanceTicks := (m_bidLevels.Length / 4) as real;
      var diffTicks := B.RealAbs(price - m_basePrice) / m_tickSize;
      if diffTicks > maxDistanceTicks {
        Recenter(price);
      }
    }

    method ToIndex(price: real) returns (i: nat)
      requires Valid()
      ensures i == B.ToIndex(State(), price) && i < m_bidLevels.Length
    {
      var ticks := ((price - m_basePrice) / m_tickSize + 0.5).Floor;
      i := B.Clamp(m_bidLevels.Length / 2 + ticks, m_bidLevels.Length);
    }

    method ToPrice(i: nat) returns (price: real)
      requires Valid()
      ensures price == B.ToPrice(State(), i)
    {
      var ticks := i - m_bidLevels.Length / 2;
      price := m_basePrice + ticks as real * m_tickSize;
    }

    method RefreshBestBidFrom(start: nat)
      modifies this`m_bestBidIdx
      ensures m_bestBidIdx == B.Refresh(m_bidLevels[..], true, start)
    {
      if start >= m_bidLevels.Length {
        m_bestBidIdx := -1;
        return;
      }
      var i := start;
      while i > 0
        invariant 0 <= i <= start
        invariant B.HighestBelow(m_bidLevels[..], start) == B.HighestBelow(m_bidLevels[..], i)
      {
        i := i - 1;
        if m_bidLevels[i] > 0.0 {
          m_bestBidIdx := i;
          return;
        }
      }
      m_bestBidIdx := -1;
    }

    method RefreshBestAskFrom(start: nat)
      modifies this`m_bestAskIdx
      ensures m_bestAskIdx == B.Refresh(m_askLevels[..], false, start)
    {
      if start >= m_askLevels.Length {
        m_bestAskIdx := -1;
        return;
      }
      var i := start;
      while i < m_askLevels.Length
        invariant start <= i <= m_askLevels.Length
        invariant B.LowestFrom(m_askLevels[..], start) == B.LowestFrom(m_askLevels[..], i)
      {
        if m_askLevels[i] > 0.0 {
          m_bestAskIdx := i;
          return;
        }
        i := i + 1;
      }
      m_bestAskIdx := -1;
    }

    method ApplyBidLevel(price: real, quantity: real) returns (ok: bool)
      requires Valid()
      modifies this, m_bidLevels, m_askLevels
      ensures (State(), ok) == B.ApplyLevel(old(State()), true, price, quantity)
    {
      hide B.EnsureMappable, B.ToIndex, B.Refresh;
      if price <= 0.0 || quantity < 0.0 {
        return false;
      }
      EnsureMappable(price);
      var idx := ToIndex(price);
      ghost var before := State();
      m_bidLevels[idx] := quantity;
      assert m_bidLevels[..] == before.bids.levels[idx := quantity];
      if quantity > 0.0 {
        if m_bestBidIdx < 0 || m_bestBidIdx < idx {
          m_bestBidIdx := idx;
        }
      } else if m_bestBidIdx == idx {
        RefreshBestBidFrom(idx);
      }
      ok := true;
    }

    method ApplyAskLevel(price: real, quantity: real) returns (ok: bool)
      requires Valid()
      modifies this, m_bidLevels, m_askLevels
      ensures (State(), ok) == B.ApplyLevel(old(State()), false, price, quantity)
    {
      hide B.EnsureMappable, B.ToIndex, B.Refresh;
      if price <= 0.0 || quantity < 0.0 {
        return false;
      }
      EnsureMappable(price);
      var idx := ToIndex(price);
      ghost var before := State();
      m_askLevels[idx] := quantity;
      assert m_askLevels[..] == before.asks.levels[idx := quantity];
      if quantity > 0.0 {
        if m_bestAskIdx < 0 || m_bestAskIdx > idx {
          m_bestAskIdx := idx;
        }
      } else if m_bestAskIdx == idx {
        RefreshBestAskFrom(idx);
      }
      ok := true;
    }

    method ApplyBbo(bidPrice: real, bidQty: real, askPrice: real, askQty: real) returns (ok: bool)
      requires Valid()
      modifies this, m_bidLevels, m_askLevels
      ensures (State(), ok) == B.ApplyBbo(old(State()), bidPrice, bidQty, askPrice, askQty)
    {
      hide B.EnsureMappable, B.ToIndex, B.ReplaceBbo;
      if bidPrice <= 0.0 || askPrice <= 0.0 || askPrice < bidPrice {
        return false;
      }
      EnsureMappable(bidPrice);
      EnsureMappable(askPrice);
      var bidQuantity, askQuantity := B.Positive(bidQty), B.Positive(askQty);
      var newBidIdx := ToIndex(bidPrice);
      var newAskIdx := ToIndex(askPrice);
      ReplaceBid(newBidIdx, bidQuantity);
      ReplaceAsk(newAskIdx, askQuantity);
      ok := true;
    }

    /** The bid half of a best-quote update; the two halves touch disjoint fields. */
    method ReplaceBid(newBidIdx: nat, bidQuantity: real)
      requires Valid() && newBidIdx < m_bidLevels.Length
      modifies this`m_bestBidIdx, this`m_lastBboBidIdx, m_bidLevels
      ensures Bids() == B.ReplaceBbo(old(Bids()), true, newBidIdx, bidQuantity)
    {
      hide B.Refresh;
      var oldBidIdx := m_lastBboBidIdx;
      if oldBidIdx >= 0 {
        if oldBidIdx < m_bidLevels.Length {
          m_bidLevels[oldBidIdx] := 0.0;
        }
      }
      assert m_bidLevels[..] == B.ClearLast(old(Bids()));
      if bidQuantity > 0.0 {
        m_bidLevels[newBidIdx] := bidQuantity;
        assert m_bidLevels[..] == B.ClearLast(old(Bids()))[newBidIdx := bidQuantity];
        if m_bestBidIdx < 0 || m_bestBidIdx == oldBidIdx || newBidIdx > m_bestBidIdx {
          m_bestBidIdx := newBidIdx;
        }
      } else if m_bestBidIdx == oldBidIdx {
        if oldBidIdx < 0 {
          m_bestBidIdx := -1;
        } else {
          RefreshBestBidFrom(oldBidIdx);
        }
      }
      m_lastBboBidIdx := if bidQuantity > 0.0 then newBidIdx else -1;
    }

    method ReplaceAsk(newAskIdx: nat, askQuantity: real)
      requires Valid() && newAskIdx < m_askLevels.Length
      modifies this`m_bestAskIdx, this`m_lastBboAskIdx, m_askLevels
      ensures Asks() == B.ReplaceBbo(old(Asks()), false, newAskIdx, askQuantity)
    {
      hide B.Refresh;
      var oldAskIdx := m_lastBboAskIdx;
      if oldAskIdx >= 0 {
        if oldAskIdx < m_askLevels.Length {
          m_askLevels[oldAskIdx] := 0.0;
        }
      }
      assert m_askLevels[..] == B.ClearLast(old(Asks()));
      if askQuantity > 0.0 {
        m_askLevels[newAskIdx] := askQuantity;
        assert m_askLevels[..] == B.ClearLast(old(Asks()))[newAskIdx := askQuantity];
        if m_bestAskIdx < 0 || m_bestAskIdx == oldAskIdx || newAskIdx < m_bestAskIdx {
          m_bestAskIdx := newAskIdx;
        }
      } else if m_bestAskIdx == oldAskIdx {
        if oldAskIdx < 0 {
          m_bestAskIdx := -1;
        } else {
          RefreshBestAskFrom(oldAskIdx);
        }
      }
      m_lastBboAskIdx := if askQuantity > 0.0 then newAskIdx else -1;
    }

    method Bbo() returns (quote: Option<B.Quote>)
      requires Valid()
      ensures quote == B.BestQuote(State())
    {
      hide B.ToPrice;
      if m_bestBidIdx < 0 || m_bestAskIdx < 0 {
        return None;
      }
      if m_bestBidIdx >= m_bidLevels.Length || m_bestAskIdx >= m_askLevels.Length {
        return None;
      }
      var bidPrice := ToPrice(m_bestBidIdx);
      var askPrice := ToPrice(m_bestAskIdx);
      quote := Some(B.Quote(bidPrice, m_bidLevels[m_bestBidIdx], askPrice, m_askLevels[m_bestAskIdx]));
    }
  }
}
