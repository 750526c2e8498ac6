/** Portfolio totals and the three-way classification of the overall gain. */
module Aggregation {
  import opened Holdings

  /** The accumulator of the totals reduction. */
  datatype Totals = Totals(cost: real, value: real)

  /** Componentwise sum of two totals. */
  function Plus(a: Totals, b: Totals): Totals {
    Totals(a.cost + b.cost, a.value + b.value)
  }

  /** The reduction over the holdings, left to right from {cost: 0, value: 0},
      adding each holding's cost basis and market value to the accumulator. */
  function TotalsOf(hs: seq<Holding>): Totals
    decreases |hs|
  {
    if hs == [] then Totals(0.0, 0.0)
    else
      var acc := TotalsOf(hs[..|hs| - 1]);
      var h := hs[|hs| - 1];
      Totals(acc.cost + CostBasis(h), acc.value + MarketValue(h))
  }

  /** Reference definitions: the sums over the holdings, taken head first. */
  function CostSum(hs: seq<Holding>): real {
    if hs == [] then 0.0 else CostBasis(hs[0]) + CostSum(hs[1..])
  }

  function ValueSum(hs: seq<Holding>): real {
    if hs == [] then 0.0 else MarketValue(hs[0]) + ValueSum(hs[1..])
  }

  /** The totals of a concatenation are the componentwise sums of the totals. */
  lemma {:induction false} TotalsAppend(a: seq<Holding>, b: seq<Holding>)
    ensures TotalsOf(a + b) == Plus(TotalsOf(a), TotalsOf(b))
    decreases |b|
  {
    if b == [] {
      assert a + b == a;
    } else {
      var b' := b[..|b| - 1];
      assert (a + b)[..|a + b| - 1] == a + b';
      assert (a + b)[|a + b| - 1] == b[|b| - 1];
      TotalsAppend(a, b');
    }
  }

  /** A single holding contributes its cost basis and its market value. */
  lemma {:induction false} TotalsSingleton(h: Holding)
    ensures TotalsOf([h]) == Totals(CostBasis(h), MarketValue(h))
  {
    assert [h][..0] == [];
  }

  /** Taking one holding out of the middle of a list takes its totals off. */
  lemma {:induction false} TotalsRemove(pre: seq<Holding>, h: Holding, post: seq<Holding>)
    ensures Plus(TotalsOf(pre + post), TotalsOf([h])) == TotalsOf(pre + [h] + post)
  {
    var a, x, b := TotalsOf(pre), TotalsOf([h]), TotalsOf(post);
    TotalsAppend(pre, [h]);
    TotalsAppend(pre + [h], post);
    TotalsAppend(pre, post);
    assert TotalsOf(pre + [h] + post) == Plus(Plus(a, x), b);
    assert TotalsOf(pre + post) == Plus(a, b);
    PlusSwap(a, b, x);
  }

  lemma {:induction false} PlusSwap(a: Totals, b: Totals, x: Totals)
    ensures Plus(Plus(a, b), x) == Plus(Plus(a, x), b)
  {
  }

  /** The empty portfolio has zero totals, and otherwise the totals are the sums
      of shares times cost and of shares times price. */
  lemma {:induction false} TotalsAreSums(hs: seq<Holding>)
    ensures hs == [] ==> TotalsOf(hs) == Totals(0.0, 0.0)
    ensures TotalsOf(hs) == Totals(CostSum(hs), ValueSum(hs))
  {
    if hs != [] {
      assert hs == [hs[0]] + hs[1..];
      TotalsAppend([hs[0]], hs[1..]);
      TotalsAreSums(hs[1..]);
    }
  }

  /** With no negative shares, costs or prices, both totals are non-negative. */
  lemma {:induction false} TotalsNonNegative(hs: seq<Holding>)
    requires forall h | h in hs :: NonNegative(h)
    ensures TotalsOf(hs).cost >= 0.0 && TotalsOf(hs).value >= 0.0
    decreases |hs|
  {
    if hs != [] {
      var h := hs[|hs| - 1];
      assert h in hs;
      assert forall g | g in hs[..|hs| - 1] :: g in hs;
      TotalsNonNegative(hs[..|hs| - 1]);
      assert CostBasis(h) >= 0.0 && MarketValue(h) >= 0.0;
    }
  }

  /** With no negative shares or prices, the total value is non-negative,
      whatever the per-share costs. */
  lemma {:induction false} TotalValueNonNegative(hs: seq<Holding>)
    requires forall h | h in hs :: NonNegativeValue(h)
    ensures TotalsOf(hs).value >= 0.0
    decreases |hs|
  {
    if hs != [] {
      var h := hs[|hs| - 1];
      assert h in hs;
      assert forall g | g in hs[..|hs| - 1] :: g in hs;
      TotalValueNonNegative(hs[..|hs| - 1]);
      assert MarketValue(h) >= 0.0;
    }
  }

  /** The reduction as the source performs it: an accumulator updated field by field. */
  method CalculateTotals(hs: seq<Holding>) returns (t: Totals)
    ensures t == TotalsOf(hs)
  {
    var cost, value := 0.0, 0.0;
    var i := 0;
    while i < |hs|
      invariant 0 <= i <= |hs|
      invariant Totals(cost, value) == TotalsOf(hs[..i])
    {
      assert hs[..i + 1][..i] == hs[..i];
      cost := cost + hs[i].shares * hs[i].cost;
      value := value + hs[i].shares * hs[i].price;
      i := i + 1;
    }
    assert hs[..i] == hs;
    t := Totals(cost, value);
  }

  /** Overall gain: market value minus cost basis. */
  function Gain(t: Totals): real {
    t.value - t.cost
  }

  /** Gain is additive over concatenation, like the totals it comes from. */
  lemma {:induction false} GainAppend(a: seq<Holding>, b: seq<Holding>)
    ensures Gain(TotalsOf(a + b)) == Gain(TotalsOf(a)) + Gain(TotalsOf(b))
  {
    TotalsAppend(a, b);
  }

  /** The presentation class given to the total gain. */
  datatype GainClass = Positive | Negative | Neutral

  /** Exactly one class applies: positive above zero, negative below, neutral at zero. */
  function ClassifyGain(gain: real): (r: GainClass)
    ensures r == Positive <==> gain > 0.0
    ensures r == Negative <==> gain < 0.0
    ensures r == Neutral <==> gain == 0.0
  {
    if gain > 0.0 then Positive
    else if gain < 0.0 then Negative
    else Neutral
  }
}
