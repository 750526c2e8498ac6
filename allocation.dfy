/** Allocation by category: market value grouped per category, the groups in
    descending order of value, each as a percentage of the total market value. */
module Allocation {
  import opened Holdings
  import opened Aggregation

  /** One property of the grouping object: a category and its summed market value.
      The object is an insertion-ordered list of such entries, the order in which
      a JavaScript object lists its (non-index) string keys. */
  datatype Entry = Entry(category: string, value: real)

  /** One presented allocation: a category and its percentage of the total value. */
  datatype Slice = Slice(category: string, percent: real)

  function Keys(es: seq<Entry>): set<string> {
    set e | e in es :: e.category
  }

  /** No category is a key twice. */
  predicate Distinct(es: seq<Entry>) {
    forall i, j :: 0 <= i < j < |es| ==> es[i].category != es[j].category
  }

  /** The value stored under a category, 0 when it is absent (the `|| 0` default). */
  function Lookup(es: seq<Entry>, c: string): real {
    if es == [] then 0.0
    else if es[0].category == c then es[0].value
    else Lookup(es[1..], c)
  }

  function SumValues(es: seq<Entry>): real {
    if es == [] then 0.0 else es[0].value + SumValues(es[1..])
  }

  /** Reference definition: the market value of the holdings in category c. */
  function CategoryValue(hs: seq<Holding>, c: string): real
    decreases |hs|
  {
    if hs == [] then 0.0
    else
      var h := hs[|hs| - 1];
      CategoryValue(hs[..|hs| - 1], c) + (if h.category == c then MarketValue(h) else 0.0)
  }

  /** One step of the grouping: `acc[c] = (acc[c] || 0) + v`. */
  function Upsert(es: seq<Entry>, c: string, v: real): seq<Entry> {
    if es == [] then [Entry(c, v)]
    else if es[0].category == c then [Entry(c, es[0].value + v)] + es[1..]
    else [es[0]] + Upsert(es[1..], c, v)
  }

  /** The keys of a list with one more entry in front. */
  lemma {:induction false} KeysCons(x: Entry, t: seq<Entry>)
    ensures Keys([x] + t) == {x.category} + Keys(t)
  {
    var r := [x] + t;
    forall c | c in Keys(r) ensures c in {x.category} + Keys(t) {
      var e :| e in r && e.category == c;
      if e != x {
        assert e in t;
      }
    }
    forall c | c in Keys(t) ensures c in Keys(r) {
      var e :| e in t && e.category == c;
      assert e in r;
    }
    assert x in r;
  }

  /** Upserting adds c to the keys and no other. */
  lemma {:induction false} UpsertKeys(es: seq<Entry>, c: string, v: real)
    ensures Keys(Upsert(es, c, v)) == Keys(es) + {c}
  {
    if es == [] {
      assert Upsert(es, c, v) == [Entry(c, v)];
      assert Entry(c, v) in Upsert(es, c, v);
    } else {
      assert es == [es[0]] + es[1..];
      KeysCons(es[0], es[1..]);
      if es[0].category == c {
        KeysCons(Entry(c, es[0].value + v), es[1..]);
      } else {
        UpsertKeys(es[1..], c, v);
        KeysCons(es[0], Upsert(es[1..], c, v));
      }
    }
  }

  /** A new key is added at the end, so the keys are in order of first occurrence. */
  lemma {:induction false} UpsertNew(es: seq<Entry>, c: string, v: real)
    requires c !in Keys(es)
    ensures Upsert(es, c, v) == es + [Entry(c, v)]
  {
    if es != [] {
      assert es[0] in es;
      assert forall e | e in es[1..] :: e in es;
      UpsertNew(es[1..], c, v);
      assert es == [es[0]] + es[1..];
    }
  }

  /** An existing key keeps its place: the list of keys is unchanged. */
  lemma {:induction false} UpsertExisting(es: seq<Entry>, c: string, v: real)
    requires c in Keys(es)
    ensures |Upsert(es, c, v)| == |es|
    ensures forall i :: 0 <= i < |es| ==> Upsert(es, c, v)[i].category == es[i].category
  {
    var r := Upsert(es, c, v);
    if es[0].category == c {
      assert r == [Entry(c, es[0].value + v)] + es[1..];
      forall i | 0 < i < |es| ensures r[i].category == es[i].category {
        assert r[i] == es[i];
      }
    } else {
      var e :| e in es && e.category == c;
      assert e in es[1..] by {
        var k :| 0 <= k < |es| && es[k] == e;
        assert k > 0 && es[1..][k - 1] == e;
      }
      UpsertExisting(es[1..], c, v);
      var rest := Upsert(es[1..], c, v);
      assert r == [es[0]] + rest;
      forall i | 0 < i < |es| ensures r[i].category == es[i].category {
        assert r[i] == rest[i - 1] && es[i] == es[1..][i - 1];
      }
    }
  }

  /** The key c gains v and every other key keeps its value; the values add up to v more. */
  lemma {:induction false} UpsertValues(es: seq<Entry>, c: string, v: real, k: string)
    ensures Lookup(Upsert(es, c, v), k) == if k == c then Lookup(es, k) + v else Lookup(es, k)
    ensures SumValues(Upsert(es, c, v)) == SumValues(es) + v
  {
    if es != [] && es[0].category != c {
      UpsertValues(es[1..], c, v, k);
    }
  }

  /** Updating or adding a key never duplicates one. */
  lemma {:induction false} UpsertDistinct(es: seq<Entry>, c: string, v: real)
    requires Distinct(es)
    ensures Distinct(Upsert(es, c, v))
  {
    if es != [] {
      assert es == [es[0]] + es[1..];
      DistinctCons(es[0], es[1..]);
      if es[0].category == c {
        DistinctCons(Entry(c, es[0].value + v), es[1..]);
      } else {
        var rest := Upsert(es[1..], c, v);
        UpsertDistinct(es[1..], c, v);
        UpsertKeys(es[1..], c, v);
        DistinctCons(es[0], rest);
      }
    }
  }

  lemma {:induction false} CategoriesLast(hs: seq<Holding>)
    requires hs != []
    ensures Categories(hs) == Categories(hs[..|hs| - 1]) + {hs[|hs| - 1].category}
  {
    assert hs == hs[..|hs| - 1] + [hs[|hs| - 1]];
  }

  /** The grouping reduction over the holdings, left to right from the empty object. */
  function Group(hs: seq<Holding>): seq<Entry>
    decreases |hs|
  {
    if hs == [] then []
    else
      var h := hs[|hs| - 1];
      Upsert(Group(hs[..|hs| - 1]), h.category, MarketValue(h))
  }

  /** Every category that occurs gets exactly one key, and no other key appears. */
  lemma {:induction false} GroupKeys(hs: seq<Holding>)
    ensures Keys(Group(hs)) == Categories(hs)
    ensures Distinct(Group(hs))
    decreases |hs|
  {
    if hs != [] {
      var h := hs[|hs| - 1];
      CategoriesLast(hs);
      GroupKeys(hs[..|hs| - 1]);
      UpsertKeys(Group(hs[..|hs| - 1]), h.category, MarketValue(h));
      UpsertDistinct(Group(hs[..|hs| - 1]), h.category, MarketValue(h));
    }
  }

  /** Each key holds the market value of its category, and the grouped values
      add up to the total market value. */
  lemma {:induction false} GroupValues(hs: seq<Holding>, c: string)
    ensures Lookup(Group(hs), c) == CategoryValue(hs, c)
    ensures SumValues(Group(hs)) == TotalsOf(hs).value
    decreases |hs|
  {
    if hs != [] {
      var h := hs[|hs| - 1];
      GroupValues(hs[..|hs| - 1], c);
      UpsertValues(Group(hs[..|hs| - 1]), h.category, MarketValue(h), c);
    }
  }

  /** The grouping as the source performs it: a loop that updates one accumulator. */
  method GroupByCategory(hs: seq<Holding>) returns (es: seq<Entry>)
    ensures es == Group(hs)
  {
    es := [];
    var i := 0;
    while i < |hs|
      invariant 0 <= i <= |hs|
      invariant es == Group(hs[..i])
    {
      assert hs[..i + 1][..i] == hs[..i] && hs[..i + 1][i] == hs[i];
      assert Group(hs[..i + 1]) == Upsert(Group(hs[..i]), hs[i].category, MarketValue(hs[i]));
      es := Upsert(es, hs[i].category, hs[i].shares * hs[i].price);
      i := i + 1;
    }
    assert hs[..i] == hs;
  }

  /** In a key-distinct list, each entry is what Lookup finds under its key. */
  lemma {:induction false} LookupDistinct(es: seq<Entry>, i: nat)
    requires Distinct(es) && i < |es|
    ensures Lookup(es, es[i].category) == es[i].value
  {
    if i > 0 {
      assert es[0].category != es[i].category;
      assert es[1..][i - 1] == es[i];
      LookupDistinct(es[1..], i - 1);
    }
  }

  /** Entries in non-increasing order of value: no entry is worth more than the one before it. */
  predicate NonIncreasing(es: seq<Entry>) {
    forall i :: 0 < i < |es| ==> es[i - 1].value >= es[i].value
  }

  /** In a non-increasing list, every entry is worth at least each one after it. */
  lemma {:induction false} NonIncreasingPairs(es: seq<Entry>, i: nat, j: nat)
    requires NonIncreasing(es) && i <= j < |es|
    ensures es[i].value >= es[j].value
    decreases j - i
  {
    if i < j {
      NonIncreasingPairs(es, i + 1, j);
    }
  }

  /** A key-distinct list is a new key in front of a key-distinct list. */
  lemma {:induction false} DistinctCons(x: Entry, t: seq<Entry>)
    ensures Distinct([x] + t) <==> Distinct(t) && x.category !in Keys(t)
  {
    var r := [x] + t;
    if Distinct(t) && x.category !in Keys(t) {
      forall i, j | 0 <= i < j < |r| ensures r[i].category != r[j].category {
        assert r[j] == t[j - 1] && t[j - 1] in t;
        if i > 0 {
          assert r[i] == t[i - 1];
        }
      }
    }
    if Distinct(r) {
      forall i, j | 0 <= i < j < |t| ensures t[i].category != t[j].category {
        assert t[i] == r[i + 1] && t[j] == r[j + 1];
      }
      forall y | y in t ensures y.category != x.category {
        var k :| 0 <= k < |t| && t[k] == y;
        assert r[0] == x && r[k + 1] == y;
      }
    }
  }

  /** Stable insertion of one entry into a non-increasing list: it goes before the
      first entry whose value it is at least. */
  function Insert(e: Entry, s: seq<Entry>): seq<Entry> {
    if s == [] then [e]
    else if e.value >= s[0].value then [e] + s
    else [s[0]] + Insert(e, s[1..])
  }

  /** Insertion adds exactly the one entry. */
  lemma {:induction false} InsertPermutation(e: Entry, s: seq<Entry>)
    ensures multiset(Insert(e, s)) == multiset(s) + multiset{e}
  {
    if s != [] {
      assert s == [s[0]] + s[1..];
      if e.value < s[0].value {
        InsertPermutation(e, s[1..]);
      }
    }
  }

  /** Insertion into a non-increasing list leaves it non-increasing. */
  lemma {:induction false} InsertOrdered(e: Entry, s: seq<Entry>)
    requires NonIncreasing(s)
    ensures NonIncreasing(Insert(e, s))
  {
    if s != [] && e.value < s[0].value {
      var rest := Insert(e, s[1..]);
      InsertOrdered(e, s[1..]);
      assert |s| > 1 ==> s[1..][0] == s[1];
      assert rest[0] == e || rest[0] == s[1..][0];
      var r := [s[0]] + rest;
      forall i | 0 < i < |r| ensures r[i - 1].value >= r[i].value {
        if i > 1 {
          assert r[i - 1] == rest[i - 2] && r[i] == rest[i - 1];
        }
      }
    }
  }

  /** The descending sort by value: a stable sort with comparator b.value - a.value. */
  function SortByValue(es: seq<Entry>): seq<Entry> {
    if es == [] then [] else Insert(es[0], SortByValue(es[1..]))
  }

  /** Sorting returns a permutation of its input in non-increasing order of value. */
  lemma {:induction false} SortByValueSorts(es: seq<Entry>)
    ensures multiset(SortByValue(es)) == multiset(es)
    ensures NonIncreasing(SortByValue(es))
  {
    if es != [] {
      var rest := SortByValue(es[1..]);
      SortByValueSorts(es[1..]);
      InsertPermutation(es[0], rest);
      InsertOrdered(es[0], rest);
      assert es == [es[0]] + es[1..];
    }
  }

  /** A permutation has the same length and the same keys. */
  lemma {:induction false} PermutationKeys(a: seq<Entry>, b: seq<Entry>)
    requires multiset(a) == multiset(b)
    ensures |a| == |b| && Keys(a) == Keys(b)
  {
    assert |a| == |multiset(a)|;
    forall c | c in Keys(a) ensures c in Keys(b) {
      var e :| e in a && e.category == c;
      assert e in multiset(b);
    }
    forall c | c in Keys(b) ensures c in Keys(a) {
      var e :| e in b && e.category == c;
      assert e in multiset(a);
    }
  }

  /** Insertion adds the entry's value to the sum. */
  lemma {:induction false} InsertSum(e: Entry, s: seq<Entry>)
    ensures SumValues(Insert(e, s)) == e.value + SumValues(s)
  {
    if s != [] && e.value < s[0].value {
      InsertSum(e, s[1..]);
    }
  }

  /** Insertion keeps the keys distinct when the entry's key is new. */
  lemma {:induction false} InsertDistinct(e: Entry, s: seq<Entry>)
    requires Distinct(s) && e.category !in Keys(s)
    ensures Distinct(Insert(e, s))
  {
    if s == [] {
    } else if e.value >= s[0].value {
      DistinctCons(e, s);
    } else {
      assert s == [s[0]] + s[1..];
      DistinctCons(s[0], s[1..]);
      InsertDistinct(e, s[1..]);
      var rest := Insert(e, s[1..]);
      InsertPermutation(e, s[1..]);
      PermutationKeys(rest, s[1..] + [e]);
      assert Keys(s[1..] + [e]) == Keys(s[1..]) + {e.category};
      DistinctCons(s[0], rest);
    }
  }

  /** Sorting keeps the sum of the values and keeps the keys distinct. */
  lemma {:induction false} SortSumDistinct(es: seq<Entry>)
    ensures SumValues(SortByValue(es)) == SumValues(es)
    ensures Distinct(es) ==> Distinct(SortByValue(es))
  {
    if es != [] {
      assert es == [es[0]] + es[1..];
      var rest := SortByValue(es[1..]);
      SortSumDistinct(es[1..]);
      SortByValueSorts(es[1..]);
      InsertSum(es[0], rest);
      if Distinct(es) {
        DistinctCons(es[0], es[1..]);
        PermutationKeys(rest, es[1..]);
        InsertDistinct(es[0], rest);
      }
    }
  }

  /** The share of a category in the total value: `(value / totalValue) * 100`. */
  function Percentage(value: real, total: real): real
    requires total != 0.0
  {
    value / total * 100.0
  }

  /** Each group in order, turned into its percentage of the total. */
  function Percentages(es: seq<Entry>, total: real): seq<Slice>
    requires total != 0.0
  {
    seq(|es|, i requires 0 <= i < |es| => Slice(es[i].category, Percentage(es[i].value, total)))
  }

  function SumPercent(ss: seq<Slice>): real {
    if ss == [] then 0.0 else ss[0].percent + SumPercent(ss[1..])
  }

  /** The allocation shown: nothing when there are no holdings or the total value
      is 0, and otherwise the sorted groups as percentages of the total value. */
  function AllocationOf(hs: seq<Holding>): (r: seq<Slice>)
    ensures r == [] <==> |hs| == 0 || TotalsOf(hs).value == 0.0
  {
    var total := TotalsOf(hs).value;
    if |hs| == 0 || total == 0.0 then []
    else
      assert hs[0] in hs;
      GroupKeys(hs);
      assert hs[0].category in Keys(Group(hs));
      SortByValueSorts(Group(hs));
      PermutationKeys(SortByValue(Group(hs)), Group(hs));
      Percentages(SortByValue(Group(hs)), total)
  }

  /** The allocation as the source builds it: totals first, an early exit, the
      grouping loop, the sort, then one slice per sorted group. */
  method RenderAllocation(hs: seq<Holding>) returns (slices: seq<Slice>)
    ensures slices == AllocationOf(hs)
  {
    var totals := CalculateTotals(hs);
    if |hs| == 0 || totals.value == 0.0 {
      return [];
    }
    var grouped := GroupByCategory(hs);
    var sorted := SortByValue(grouped);
    slices := PresentSlices(sorted, totals.value);
  }

  /** The loop over the sorted groups that turns each into its percentage. */
  method PresentSlices(sorted: seq<Entry>, total: real) returns (slices: seq<Slice>)
    requires total != 0.0
    ensures slices == Percentages(sorted, total)
  {
    slices := [];
    var i := 0;
    while i < |sorted|
      invariant 0 <= i <= |sorted|
      invariant slices == Percentages(sorted[..i], total)
    {
      var percentage := sorted[i].value / total * 100.0;
      slices := slices + [Slice(sorted[i].category, percentage)];
      i := i + 1;
    }
    assert sorted[..i] == sorted;
  }

  /** Dividing each value by the same total divides their sum by it. */
  lemma {:induction false} SumPercentages(es: seq<Entry>, total: real)
    requires total != 0.0
    ensures SumPercent(Percentages(es, total)) == SumValues(es) / total * 100.0
  {
    if es != [] {
      var r := Percentages(es, total);
      assert r[1..] == Percentages(es[1..], total);
      SumPercentages(es[1..], total);
      assert es[0].value / total * 100.0 + SumValues(es[1..]) / total * 100.0
          == (es[0].value + SumValues(es[1..])) / total * 100.0;
    }
  }

  /** The presented percentages add up to exactly 100 (over exact reals). */
  lemma {:induction false} AllocationSumsToHundred(hs: seq<Holding>)
    requires |hs| > 0 && TotalsOf(hs).value != 0.0
    ensures SumPercent(AllocationOf(hs)) == 100.0
  {
    var total := TotalsOf(hs).value;
    var sorted := SortByValue(Group(hs));
    SortSumDistinct(Group(hs));
    GroupValues(hs, "");
    SumPercentages(sorted, total);
    WholeIsHundred(SumValues(sorted), total);
  }

  lemma {:induction false} WholeIsHundred(part: real, total: real)
    requires total != 0.0 && part == total
    ensures part / total * 100.0 == 100.0
  {
  }

  /** Presenting keeps the keys, in order. */
  lemma {:induction false} PercentagesKeys(es: seq<Entry>, total: real)
    requires total != 0.0
    ensures |Percentages(es, total)| == |es|
    ensures forall i :: 0 <= i < |es| ==> Percentages(es, total)[i].category == es[i].category
    ensures (set s | s in Percentages(es, total) :: s.category) == Keys(es)
    ensures Distinct(es) ==> forall i, j :: 0 <= i < j < |Percentages(es, total)| ==>
      Percentages(es, total)[i].category != Percentages(es, total)[j].category
  {
    var r := Percentages(es, total);
    forall c | c in Keys(es) ensures c in (set s | s in r :: s.category) {
      var e :| e in es && e.category == c;
      var i :| 0 <= i < |es| && es[i] == e;
      assert r[i] in r;
    }
    forall c | c in (set s | s in r :: s.category) ensures c in Keys(es) {
      var s :| s in r && s.category == c;
      var i :| 0 <= i < |r| && r[i] == s;
      assert es[i] in es;
    }
  }

  /** Every category of the holdings is presented exactly once, and no other. */
  lemma {:induction false} AllocationCategories(hs: seq<Holding>)
    requires |hs| > 0 && TotalsOf(hs).value != 0.0
    ensures (set s | s in AllocationOf(hs) :: s.category) == Categories(hs)
    ensures forall i, j :: 0 <= i < j < |AllocationOf(hs)| ==>
      AllocationOf(hs)[i].category != AllocationOf(hs)[j].category
  {
    var g := Group(hs);
    var sorted := SortByValue(g);
    GroupKeys(hs);
    SortSumDistinct(g);
    SortByValueSorts(g);
    PermutationKeys(sorted, g);
    PercentagesKeys(sorted, TotalsOf(hs).value);
  }

  /** Each presented category carries its own market value as a percentage of
      the total value. */
  lemma {:induction false} AllocationPercents(hs: seq<Holding>)
    requires |hs| > 0 && TotalsOf(hs).value != 0.0
    ensures forall s | s in AllocationOf(hs) ::
      s.percent == Percentage(CategoryValue(hs, s.category), TotalsOf(hs).value)
  {
    var total := TotalsOf(hs).value;
    var g := Group(hs);
    var sorted := SortByValue(g);
    var r := AllocationOf(hs);
    assert r == Percentages(sorted, total);
    GroupKeys(hs);
    SortByValueSorts(g);
    forall s | s in r
      ensures s.percent == Percentage(CategoryValue(hs, s.category), total)
    {
      var i :| 0 <= i < |r| && r[i] == s;
      assert sorted[i] in multiset(g);
      var j :| 0 <= j < |g| && g[j] == sorted[i];
      LookupDistinct(g, j);
      GroupValues(hs, s.category);
    }
  }

  /** With a positive total value, the percentages are in non-increasing order. */
  lemma {:induction false} AllocationOrdered(hs: seq<Holding>)
    requires TotalsOf(hs).value > 0.0
    ensures forall i, j :: 0 <= i < j < |AllocationOf(hs)| ==>
      AllocationOf(hs)[i].percent >= AllocationOf(hs)[j].percent
  {
    var total := TotalsOf(hs).value;
    if |hs| > 0 {
      var sorted := SortByValue(Group(hs));
      var r := AllocationOf(hs);
      SortByValueSorts(Group(hs));
      forall i, j | 0 <= i < j < |r| ensures r[i].percent >= r[j].percent {
        NonIncreasingPairs(sorted, i, j);
        DivideMonotone(sorted[i].value, sorted[j].value, total);
      }
    }
  }

  lemma {:induction false} DivideMonotone(a: real, b: real, t: real)
    requires a >= b && t > 0.0
    ensures a / t * 100.0 >= b / t * 100.0
  {
    assert a / t - b / t == (a - b) / t;
  }

  lemma {:induction false} CategoryValueNonNegative(hs: seq<Holding>, c: string)
    requires forall h | h in hs :: NonNegativeValue(h)
    ensures CategoryValue(hs, c) >= 0.0
    decreases |hs|
  {
    if hs != [] {
      var h := hs[|hs| - 1];
      assert h in hs;
      assert forall g | g in hs[..|hs| - 1] :: g in hs;
      CategoryValueNonNegative(hs[..|hs| - 1], c);
      assert MarketValue(h) >= 0.0;
    }
  }

  /** With no negative shares or prices, no percentage is negative. */
  lemma {:induction false} AllocationNonNegative(hs: seq<Holding>)
    requires forall h | h in hs :: NonNegativeValue(h)
    ensures forall s | s in AllocationOf(hs) :: s.percent >= 0.0
  {
    var total := TotalsOf(hs).value;
    if |hs| > 0 && total != 0.0 {
      TotalValueNonNegative(hs);
      AllocationPercents(hs);
      forall s | s in AllocationOf(hs) ensures s.percent >= 0.0 {
        var value := CategoryValue(hs, s.category);
        assert s.percent == value / total * 100.0;
        CategoryValueNonNegative(hs, s.category);
        DivideMonotone(value, 0.0, total);
      }
    }
  }
}
