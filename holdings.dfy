/** The holding record of the portfolio tracker and the fixed sample portfolio.
    Numbers are exact reals: an abstraction of JavaScript's double-precision numbers. */
module Holdings {

  /** One investment position as the entry form produces it. */
  datatype Holding = Holding(
    name: string,
    ticker: string,
    category: string,
    shares: real,
    cost: real,   // cost basis per share
    price: real,  // current market price per share
    notes: string)

  /** Capital committed to one holding: shares times per-share cost. */
  function CostBasis(h: Holding): real {
    h.shares * h.cost
  }

  /** Current worth of one holding: shares times per-share price. */
  function MarketValue(h: Holding): real {
    h.shares * h.price
  }

  /** The form does not enforce this; the non-negativity of both totals needs it. */
  predicate NonNegative(h: Holding) {
    h.shares >= 0.0 && h.cost >= 0.0 && h.price >= 0.0
  }

  /** Non-negative shares and price: all that a non-negative market value needs. */
  predicate NonNegativeValue(h: Holding) {
    h.shares >= 0.0 && h.price >= 0.0
  }

  /** The category labels that occur in a list of holdings. */
  function Categories(hs: seq<Holding>): set<string> {
    set h | h in hs :: h.category
  }

  /** The four demonstration holdings written by "seed sample data". */
  function SampleHoldings(): (r: seq<Holding>)
    ensures |r| == 4
    ensures forall h | h in r :: NonNegative(h)
    ensures Categories(r) == {"Equity", "ETF", "Crypto", "Bond"}
  {
    var sample := [
      Holding("Apple Inc.", "AAPL", "Equity", 18.0, 148.21, 182.42, "Core growth holding"),
      Holding("Vanguard Total Stock Market ETF", "VTI", "ETF", 10.0, 205.3, 222.18, "Broad market exposure"),
      Holding("Ethereum", "ETH", "Crypto", 1.8, 1780.0, 2035.0, "Long-term thesis"),
      Holding("iShares Core U.S. Aggregate Bond ETF", "AGG", "Bond", 12.0, 96.4, 98.12, "Stability anchor")
    ];
    assert sample[0] in sample && sample[1] in sample && sample[2] in sample && sample[3] in sample;
    sample
  }
}
