# Portfolio tracker core, modelled in Dafny

The portfolio tracker is a single-page browser app. It keeps a list of
investment holdings in one `localStorage` slot under the key
`portfolio-holdings`. A holding has a name, ticker, category, share count,
per-share cost and per-share price, plus notes. The page shows:
- the total cost basis, the total market value and the overall gain, which
  is classified positive, negative or neutral;
- an allocation by category, largest first, each category as a percentage of
  the total market value.

The holdings can be added, removed by row, cleared, or replaced by four sample
holdings. Adding and removing load the list, change it, save it back whole
and re-render. Clear-all removes the slot without loading or saving. Seeding
saves the sample without loading.

This project models that core of `script.js`:

- `holdings.dfy` (module `Holdings`): the holding record, its cost basis
  (shares × cost) and market value (shares × price), and the four sample
  holdings.
- `aggregation.dfy` (module `Aggregation`):
  - `calculateTotals` as a left fold (`TotalsOf`) and as the accumulator loop
    that the source runs (`CalculateTotals`);
  - the overall gain, and its three-way classification in `renderTotals`.
- `allocation.dfy` (module `Allocation`): the allocation part of
  `renderAllocation`:
  - the early exit;
  - the grouping reduction into an object keyed by category, modelled as an
    insertion-ordered list of `Entry` values;
  - the descending sort by value;
  - the percentage of each group.
- `store.dfy` (module `Store`):
  - the persisted slot, as a class `PortfolioStore` with an `Option` field;
  - `loadHoldings` with its three fallbacks to `[]`;
  - `saveHoldings`, clear-all, `addHolding` (`push`), `removeHolding`
    (`splice(index, 1)`) and `seedData`.
- `scenarios.dfy` (module `Scenarios`): worked instances:
  - the sample portfolio's totals and gain;
  - two holdings of one category merging into one 100 % slice;
  - two categories keeping their order.

Numbers are exact reals: an abstraction of JavaScript's doubles. The text in
the slot is abstract:
- `Serialized(list)` for the JSON of an array;
- `EmptyText`;
- `Unparseable`;
- `NotAnArray`.

## Model

| member | source | states |
|---|---|---|
| Holdings.SampleHoldings | script.js:175-212 | the sample has four holdings, none with negative shares, cost or price, in the categories Equity, ETF, Crypto and Bond |
| Aggregation.TotalsAppend | script.js:43-52 | the totals of a concatenation are the componentwise sums of the two lists' totals |
| Aggregation.TotalsAreSums | script.js:43-52 | the empty list totals to cost 0 and value 0; otherwise cost is the sum of shares × cost and value the sum of shares × price (head-first reference sums) |
| Aggregation.TotalsSingleton | script.js:46-47 | one holding contributes exactly its cost basis and market value |
| Aggregation.TotalsRemove | script.js:43-52 | taking one holding out of a list takes exactly its totals off |
| Aggregation.TotalsNonNegative | script.js:43-52 | with no negative shares, costs or prices, both totals are non-negative |
| Aggregation.TotalValueNonNegative | script.js:43-52 | with no negative shares or prices, whatever the costs, the total value is non-negative |
| Aggregation.CalculateTotals | script.js:43-52 | the accumulator loop returns the fold `TotalsOf` of the whole list |
| Aggregation.GainAppend | script.js:56 | the gain (value − cost) of a concatenation is the sum of the two gains |
| Aggregation.ClassifyGain | script.js:61-68 | the class is positive iff the gain is > 0, negative iff < 0, neutral iff = 0 (so exactly one applies) |
| Allocation.KeysCons | script.js:116-120 | the keys of an entry list with one more entry in front are that entry's key plus the rest |
| Allocation.UpsertKeys | script.js:118 | one update step adds the category to the keys and no other key |
| Allocation.UpsertNew | script.js:118 | a category not yet a key is added at the end with the holding's value (the `\|\| 0` default) |
| Allocation.UpsertExisting | script.js:118 | a category already a key keeps its position; the key order is unchanged |
| Allocation.UpsertValues | script.js:118 | the updated category gains exactly the value, every other key keeps its value, and the values sum to that much more |
| Allocation.UpsertDistinct | script.js:118 | an update never makes a key appear twice |
| Allocation.GroupKeys | script.js:116-120 | the grouping has exactly one key per category that occurs in the holdings, and no other key |
| Allocation.GroupValues | script.js:116-120 | each key holds the market value of its category (reference `CategoryValue`), and the grouped values sum to the total market value |
| Allocation.GroupByCategory | script.js:116-120 | the accumulator loop returns the grouping fold `Group` |
| Allocation.LookupDistinct | script.js:116-120 | in a key-distinct grouping, each entry is what a lookup of its key yields |
| Allocation.DistinctCons | script.js:116-120 | a list with an entry in front is key-distinct iff the rest is and the new key is not among its keys |
| Allocation.NonIncreasingPairs | script.js:122-123 | in a list where no entry exceeds its predecessor, every earlier entry is worth at least every later one |
| Allocation.InsertPermutation | script.js:122-123 | inserting into the sorted list adds exactly the one entry (multiset) |
| Allocation.InsertOrdered | script.js:122-123 | inserting into a non-increasing list keeps it non-increasing |
| Allocation.SortByValueSorts | script.js:122-123 | the descending sort returns a permutation of the groups in non-increasing order of value |
| Allocation.PermutationKeys | script.js:122-123 | a permutation has the same length and the same keys |
| Allocation.InsertSum | script.js:122-123 | inserting adds the entry's value to the sum of values |
| Allocation.InsertDistinct | script.js:122-123 | inserting an entry with a new key keeps the keys distinct |
| Allocation.SortSumDistinct | script.js:122-123 | sorting keeps the sum of values, and keeps keys distinct |
| Allocation.AllocationOf | script.js:110-114 | the allocation is empty iff there are no holdings or the total value is 0, so a percentage is only ever computed with a non-zero total |
| Allocation.RenderAllocation | script.js:106-134 | totals, early exit, grouping loop, sort and percentage loop together yield `AllocationOf` |
| Allocation.PresentSlices | script.js:124-126 | the loop over the sorted groups yields each group's `value / total * 100`, in order |
| Allocation.SumPercentages | script.js:126 | the percentages of a list sum to the list's value sum as a percentage of the total |
| Allocation.AllocationSumsToHundred | script.js:116-126 | over exact reals the presented percentages sum to exactly 100 |
| Allocation.PercentagesKeys | script.js:124-127 | presenting keeps the categories in order, one slice per group, so it keeps the set of categories and keeps them distinct |
| Allocation.AllocationCategories | script.js:116-127 | every category of the holdings is presented exactly once, and no other |
| Allocation.AllocationPercents | script.js:116-126 | each presented category's percentage is that category's market value over the total value × 100 |
| Allocation.AllocationOrdered | script.js:122-126 | with a positive total, the presented percentages are in non-increasing order |
| Allocation.CategoryValueNonNegative | script.js:116-120 | with no negative shares or prices, whatever the costs, each category's market value is non-negative |
| Allocation.AllocationNonNegative | script.js:126 | with no negative shares or prices, whatever the costs, no presented percentage is negative |
| Store.Decode | script.js:25-37 | an absent or empty slot is Missing, unparseable text a ParseError, a non-array NotArray, and an array the list it holds; each iff |
| Store.LoadedHoldings | script.js:25-37 | loading yields the decoded array, and `[]` in every other case |
| Store.LoadFallback | script.js:27-35 | loading yields `[]` exactly when the slot is absent, empty, unparseable, a non-array, or an empty array |
| Store.LoadAfterSave | script.js:25-41 | loading what was saved gives back exactly the saved list |
| Store.LoadAfterClear | script.js:219-221 | loading after the slot is removed gives `[]` |
| Store.Splice | script.js:169 | an in-range index removes exactly that element: one shorter, elements before it unchanged, elements after it shifted down one; an index ≥ length leaves the list unchanged |
| Store.SpliceUndoesPush | script.js:156-169 | removing the element just pushed restores the list |
| Store.SpliceMultiset | script.js:169 | removal takes exactly the one element out of the multiset of holdings |
| Store.SpliceTotals | script.js:169 | removal takes exactly that holding's cost basis and market value off the totals |
| Store.PortfolioStore.constructor | script.js:11 | the store starts with the given slot contents |
| Store.PortfolioStore.Load | script.js:25-37 | returns `LoadedHoldings(slot)`: `[]` for an absent slot, the stored array for an array |
| Store.PortfolioStore.Save | script.js:39-41 | the slot holds the whole list, and loading yields it |
| Store.PortfolioStore.Clear | script.js:219-221 | the slot is removed, and loading yields `[]` |
| Store.PortfolioStore.AddHolding | script.js:155-157 | the shown and saved list is the previously loadable list with the new holding appended at the end |
| Store.PortfolioStore.RemoveHolding | script.js:162-172 | a click off a remove button changes nothing; otherwise the shown and saved list is the loaded list spliced at the button's index |
| Store.PortfolioStore.SeedData | script.js:174-215 | the slot holds exactly the four sample holdings, which are returned for display |
| Store.SaveThenLoad | script.js:25-41 | from any prior slot state, a save followed by a load yields the saved list |
| Store.ClearThenLoad | script.js:219-221 | from any prior slot state, clear-all followed by a load yields `[]` |
| Store.AddToUnreadable | script.js:25-37 | adding to a slot that is empty, unparseable or a non-array starts a fresh one-element list |
| Store.RemoveFirstOfTwo | script.js:167-170 | removing index 0 of a two-element list shows and stores just the second element |
| Scenarios.SampleTotals | script.js:174-215 | the sample portfolio costs 9081.58, is worth 10345.80, and its gain is classified positive |
| Scenarios.SameCategoryMerges | script.js:116-126 | two holdings of one category with non-zero value make a single slice of 100 % |
| Scenarios.TwoCategoriesOrdered | script.js:116-126 | two categories, the first worth at least as much, keep their order and split the total value |

## Left out

- DOM work is presentation with nothing to state: element lookup, the
  `innerHTML` templates, `classList` updates, template cloning, bar widths,
  the empty-row message, and event-listener wiring.
- `render` is not modelled as such; its three parts (totals, gain class,
  allocation) are modelled separately.
- The per-row gain class in `renderHoldings` (script.js:89) is row styling.
  It is not part of the overall gain classification.
- `Intl.NumberFormat` currency and number formatting, and `toFixed(1)`.
  These are library formatting calls; the model keeps exact percentages.
- Form reading is left out, because these are library calls:
  - the `FormData` extraction;
  - `trim` and `toUpperCase`;
  - `Number(...)` coercion, which can give NaN.

  A holding enters the model already built. NaN propagation is not modelled.
- IEEE-754 rounding is not modelled; all arithmetic is over exact reals. The
  additivity of totals and the percentages summing to exactly 100 hold over
  reals only. `totals.value === 0` is modelled as comparison with real 0.
- The internals of `JSON.parse`, `JSON.stringify` and `localStorage` are not
  modelled. The slot contents are one of four abstract forms. An array whose
  elements are not holding records is not distinguished from a list of
  holdings. `console.error` logging is omitted.
- `localStorage` being shared between tabs (another page changing the slot
  between a load and a save) is not modelled: a store has one owner.
- `splice` with a negative index is not modelled: the button index comes
  from the rendered row index (script.js:91), so it is a natural number. The
  `closest("button[data-index]")` lookup is modelled as an optional index.
- Allocation.SortByValueSorts: states a permutation in non-increasing order
  only, not the order among categories of equal value. `Array.prototype.sort`
  is stable, so equal-valued categories keep their `Object.entries` order.
  The model's insertion sort is stable too and keeps first-seen order, the
  same tie order, but no lemma states it.
- Allocation.Group: models the object's keys in insertion order. JavaScript
  lists integer-like keys (a category such as `"2024"`) first, in numeric
  order. For such keys only the order of equal-valued slices could differ
  after the sort.
- Allocation.Group: treats every category as a fresh key of an empty map.
  The source's accumulator is a plain object, so category names that match
  inherited properties behave differently, and the values and slices change,
  not just their order:
  - for `"constructor"`, `acc[c] || 0` reads the inherited function, the sum
    becomes a string, and the slice shows NaN;
  - for `"__proto__"`, the assignment at script.js:118 is ignored, the
    category vanishes, and the shown percentages no longer sum to 100.
- Allocation.AllocationOrdered: stated for a positive total value only. With
  a negative total (negative shares or prices), dividing reverses the order.
