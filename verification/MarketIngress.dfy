/** The ingress half of the main loop: dictionaries and counters updated by each book and candle. */
module MarketIngress {
  import CandleAdmission
  import BookThrottle

  class MainLoop {
    const activeSymbols: set<string>
    var running: bool
    var lastAdmittedCandleTs: map<string, int>
    var candleDuplicatesRejected: nat
    var candleStaleRejected: nat
    var lastBookReceive: map<string, int>
    var bookProcessedCount: map<string, nat>
    var invalidBooksSkipped: nat

    function Candles(): CandleAdmission.Ingress
      reads this
    {
      CandleAdmission.Ingress(lastAdmittedCandleTs, candleDuplicatesRejected, candleStaleRejected)
    }

    function Books(): BookThrottle.Throttle
      reads this
    {
      BookThrottle.Throttle(lastBookReceive, bookProcessedCount, invalidBooksSkipped)
    }

    constructor (activeSymbols: set<string>)
      ensures this.activeSymbols == activeSymbols && !running
      ensures Candles() == CandleAdmission.EMPTY_INGRESS && Books() == BookThrottle.EMPTY_THROTTLE
    {
      this.activeSymbols := activeSymbols;
      running := false;
      lastAdmittedCandleTs := map[];
      candleDuplicatesRejected := 0;
      candleStaleRejected := 0;
      lastBookReceive := map[];
      bookProcessedCount := map[];
      invalidBooksSkipped := 0;
    }

    /** The admission section of `on_candle`; the rest of the handler runs only on `Admitted`. */
    method OnCandle(c: CandleAdmission.Candle) returns (o: CandleAdmission.Outcome)
      modifies this
      ensures running == old(running) && Books() == old(Books())
      ensures (Candles(), o) == if running then CandleAdmission.Offer(activeSymbols, old(Candles()), c)
                                else (old(Candles()), CandleAdmission.Dropped)
    {
      if !running || c.symbol !in activeSymbols {
        return CandleAdmission.Dropped;
      }
      var last := if c.symbol in lastAdmittedCandleTs then lastAdmittedCandleTs[c.symbol] else 0;
      if c.ts == last {
        candleDuplicatesRejected := candleDuplicatesRejected + 1;
        return CandleAdmission.Duplicate;
      }
      if c.ts < last {
        candleStaleRejected := candleStaleRejected + 1;
        return CandleAdmission.Stale;
      }
      lastAdmittedCandleTs := lastAdmittedCandleTs[c.symbol := c.ts];
      return CandleAdmission.Admitted;
    }

    /** The filter and throttle of `on_order_book`; the rest of the handler runs only on `Processed`. */
    method OnOrderBook(b: BookThrottle.Book) returns (o: BookThrottle.Outcome)
      modifies this
      ensures running == old(running) && Candles() == old(Candles())
      ensures (Books(), o) == if running then BookThrottle.Offer(activeSymbols, old(Books()), b)
                              else (old(Books()), BookThrottle.Dropped)
    {
      if !running || b.symbol !in activeSymbols {
        return BookThrottle.Dropped;
      }
      if b.mid <= 0.0 {
        invalidBooksSkipped := invalidBooksSkipped + 1;
        return BookThrottle.Invalid;
      }
      if !b.spreadFinite {
        invalidBooksSkipped := invalidBooksSkipped + 1;
        return BookThrottle.Invalid;
      }
      var last := if b.symbol in lastBookReceive then lastBookReceive[b.symbol] else 0;
      if b.receiveNs - last < BookThrottle.MIN_BOOK_PROCESS_INTERVAL_NS {
        return BookThrottle.Throttled;
      }
      lastBookReceive := lastBookReceive[b.symbol := b.receiveNs];
      var count := if b.symbol in bookProcessedCount then bookProcessedCount[b.symbol] else 0;
      bookProcessedCount := bookProcessedCount[b.symbol := count + 1];
      return BookThrottle.Processed;
    }
  }
}
