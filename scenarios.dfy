/** Concrete portfolios worked through the model: the sample data's totals and
    allocation, and two holdings of one category merging into one slice. */
module Scenarios {
  import opened Holdings
  import opened Aggregation
  import opened Allocation

  /** The sample portfolio costs 9081.58, is worth 10345.80, and so shows a positive gain. */
  lemma {:induction false} SampleTotals()
    ensures TotalsOf(SampleHoldings()) == Totals(9081.58, 10345.8)
    ensures ClassifyGain(Gain(TotalsOf(SampleHoldings()))) == Positive
  {
    var s := SampleHoldings();
    assert s[..1][..0] == [] && s[..2][..1] == s[..1] && s[..3][..2] == s[..2] && s[..4][..3] == s[..3];
    assert TotalsOf(s[..1]) == Totals(2667.78, 3283.56);
    assert TotalsOf(s[..2]) == Totals(4720.78, 5505.36);
    assert TotalsOf(s[..3]) == Totals(7924.78, 9168.36);
    assert s[..4] == s;
  }

  /** Two holdings of the same category, worth something, make one slice of 100 percent. */
  lemma {:induction false} SameCategoryMerges(a: Holding, b: Holding)
    requires a.category == b.category
    requires MarketValue(a) + MarketValue(b) != 0.0
    ensures AllocationOf([a, b]) == [Slice(a.category, 100.0)]
  {
    var hs := [a, b];
    assert hs[..1] == [a] && [a][..0] == [];
    assert TotalsOf([a]) == Totals(CostBasis(a), MarketValue(a));
    assert TotalsOf(hs).value == MarketValue(a) + MarketValue(b);
    assert Group([a]) == [Entry(a.category, MarketValue(a))];
    assert Group(hs) == [Entry(a.category, MarketValue(a) + MarketValue(b))];
    var es := Group(hs);
    assert SortByValue(es) == es;
    WholeIsHundred(MarketValue(a) + MarketValue(b), TotalsOf(hs).value);
  }

  /** Two holdings of different categories, the first worth more, keep their
      order and split the total between them. */
  lemma {:induction false} TwoCategoriesOrdered(a: Holding, b: Holding)
    requires a.category != b.category
    requires MarketValue(a) >= MarketValue(b) >= 0.0 && MarketValue(a) > 0.0
    ensures AllocationOf([a, b]) == [
      Slice(a.category, Percentage(MarketValue(a), MarketValue(a) + MarketValue(b))),
      Slice(b.category, Percentage(MarketValue(b), MarketValue(a) + MarketValue(b)))]
  {
    var hs := [a, b];
    assert hs[..1] == [a] && [a][..0] == [];
    assert TotalsOf([a]) == Totals(CostBasis(a), MarketValue(a));
    assert TotalsOf(hs).value == MarketValue(a) + MarketValue(b);
    assert Group([a]) == [Entry(a.category, MarketValue(a))];
    var es := Group(hs);
    assert Upsert([Entry(a.category, MarketValue(a))], b.category, MarketValue(b))
        == [Entry(a.category, MarketValue(a)), Entry(b.category, MarketValue(b))];
    assert es == [Entry(a.category, MarketValue(a)), Entry(b.category, MarketValue(b))];
    assert es[1..] == [es[1]] && [es[1]][1..] == [];
    assert SortByValue([es[1]]) == [es[1]];
    assert SortByValue(es) == es;
  }
}
