/** The persisted holdings list: one key-value slot under a fixed key, written in
    full after every change, read back with a silent fallback to the empty list. */
module Store {
  import opened Holdings
  import opened Aggregation

  datatype Option<T> = None | Some(value: T)

  /** The text in the slot, as far as JSON parsing can tell it apart. The
      serialisation format itself is not modelled. */
  datatype Stored =
    | Serialized(list: seq<Holding>)  // the JSON text of an array of holding records
    | EmptyText                       // the empty string, which is falsy like an absent value
    | Unparseable                     // text that JSON parsing rejects
    | NotAnArray                      // well-formed JSON of a value that is not an array

  /** What reading the slot yields before the fallback is applied. */
  datatype Decoded = Missing | ParseError | NotArray | List(holdings: seq<Holding>)

  /** Reading and parsing the slot. A missing or empty value is never parsed. */
  function Decode(slot: Option<Stored>): (d: Decoded)
    ensures d == Missing <==> slot == None || slot == Some(EmptyText)
    ensures d == ParseError <==> slot == Some(Unparseable)
    ensures d == NotArray <==> slot == Some(NotAnArray)
    ensures d.List? <==> slot.Some? && slot.value.Serialized?
    ensures d.List? ==> d.holdings == slot.value.list
  {
    match slot
    case None => Missing
    case Some(EmptyText) => Missing
    case Some(Unparseable) => ParseError
    case Some(NotAnArray) => NotArray
    case Some(Serialized(list)) => List(list)
  }

  /** The list that loading yields: the decoded array, or the empty list in
      each of the three fallback cases. */
  function LoadedHoldings(slot: Option<Stored>): (hs: seq<Holding>)
    ensures Decode(slot).List? ==> hs == Decode(slot).holdings
    ensures !Decode(slot).List? ==> hs == []
  {
    match Decode(slot)
    case List(list) => list
    case _ => []
  }

  /** Saving writes the whole list, replacing whatever the slot held. */
  function Encode(hs: seq<Holding>): Stored {
    Serialized(hs)
  }

  /** Loading after saving gives back exactly the saved list. */
  lemma {:induction false} LoadAfterSave(hs: seq<Holding>)
    ensures Decode(Some(Encode(hs))) == List(hs)
    ensures LoadedHoldings(Some(Encode(hs))) == hs
  {
  }

  /** Loading after the slot is removed gives the empty list. */
  lemma {:induction false} LoadAfterClear()
    ensures Decode(None) == Missing
    ensures LoadedHoldings(None) == []
  {
  }

  /** Loading falls back to the empty list exactly when the slot is absent or
      empty, does not parse, or parses to something other than an array
      (or holds an empty array). */
  lemma {:induction false} LoadFallback(slot: Option<Stored>)
    ensures LoadedHoldings(slot) == [] <==>
      slot in {None, Some(EmptyText), Some(Unparseable), Some(NotAnArray), Some(Serialized([]))}
  {
  }

  /** `splice(index, 1)` with a non-negative index: an index in range removes that
      one element and keeps the others in order; any other index changes nothing. */
  function Splice(s: seq<Holding>, index: nat): (r: seq<Holding>)
    ensures index < |s| ==> |r| == |s| - 1
    ensures index < |s| ==> forall j :: 0 <= j < |r| ==> r[j] == if j < index then s[j] else s[j + 1]
    ensures index >= |s| ==> r == s
  {
    if index < |s| then s[..index] + s[index + 1..] else s
  }

  /** Removing the element just appended restores the list. */
  lemma {:induction false} SpliceUndoesPush(s: seq<Holding>, h: Holding)
    ensures Splice(s + [h], |s|) == s
  {
    assert (s + [h])[..|s|] == s;
  }

  /** Removal takes exactly the one element out of the multiset of holdings. */
  lemma {:induction false} SpliceMultiset(s: seq<Holding>, index: nat)
    requires index < |s|
    ensures multiset(Splice(s, index)) + multiset{s[index]} == multiset(s)
  {
    assert s == s[..index] + [s[index]] + s[index + 1..];
  }

  /** Removal takes exactly the removed holding's cost basis and market value
      off the totals. */
  lemma {:induction false} SpliceTotals(s: seq<Holding>, index: nat)
    requires index < |s|
    ensures Plus(TotalsOf(Splice(s, index)), Totals(CostBasis(s[index]), MarketValue(s[index])))
         == TotalsOf(s)
  {
    var pre, post := s[..index], s[index + 1..];
    assert s == pre + [s[index]] + post;
    TotalsRemove(pre, s[index], post);
    TotalsSingleton(s[index]);
  }

  /** The slot under the fixed storage key. */
  class PortfolioStore {
    var slot: Option<Stored>

    constructor (initial: Option<Stored>)
      ensures slot == initial
    {
      slot := initial;
    }

    /** The list a load would yield now. */
    function Current(): seq<Holding>
      reads this
    {
      LoadedHoldings(slot)
    }

    /** Reads the slot: absent or empty yields [], otherwise the parsed array,
        and [] when parsing fails or yields something other than an array. */
    method Load() returns (hs: seq<Holding>)
      ensures hs == LoadedHoldings(slot)
      ensures slot == None ==> hs == []
      ensures slot.Some? && slot.value.Serialized? ==> hs == slot.value.list
    {
      if slot == None || slot.value == EmptyText {
        return [];
      }
      var parsed := Decode(slot);
      if parsed.List? {
        hs := parsed.holdings;
      } else {
        hs := [];
      }
    }

    /** Writes the whole list to the slot, replacing what was there. */
    method Save(hs: seq<Holding>)
      modifies this
      ensures slot == Some(Encode(hs))
      ensures Current() == hs
    {
      slot := Some(Encode(hs));
    }

    /** "Clear all": removes the slot. */
    method Clear()
      modifies this
      ensures slot == None
      ensures Current() == []
    {
      slot := None;
    }

    /** Loads, appends the new holding at the end, saves the whole list and
        returns it for display. */
    method AddHolding(h: Holding) returns (hs: seq<Holding>)
      modifies this
      ensures hs == old(Current()) + [h]
      ensures slot == Some(Encode(hs))
      ensures Current() == hs
    {
      hs := Load();
      hs := hs + [h];
      Save(hs);
    }

    /** Handles a click in the holdings table. A click that is not on a remove
        button (None) does nothing; otherwise the list is loaded, the element
        at the button's index is spliced out, and the whole list is saved and
        returned for display. */
    method RemoveHolding(button: Option<nat>) returns (shown: Option<seq<Holding>>)
      modifies this
      ensures button == None ==> shown == None && slot == old(slot)
      ensures button.Some? ==>
        shown == Some(Splice(old(Current()), button.value)) &&
        slot == Some(Encode(shown.value))
    {
      if button == None {
        return None;
      }
      var index := button.value;
      var hs := Load();
      hs := Splice(hs, index);
      Save(hs);
      shown := Some(hs);
    }

    /** Overwrites the slot with the four sample holdings and returns them. */
    method SeedData() returns (hs: seq<Holding>)
      modifies this
      ensures hs == SampleHoldings()
      ensures slot == Some(Encode(hs))
      ensures Current() == hs && |Current()| == 4
    {
      hs := SampleHoldings();
      Save(hs);
    }
  }

  /** A save followed by a load, on a slot in any prior state, yields the saved list. */
  method SaveThenLoad(initial: Option<Stored>, hs: seq<Holding>) returns (loaded: seq<Holding>)
    ensures loaded == hs
  {
    var store := new PortfolioStore(initial);
    store.Save(hs);
    loaded := store.Load();
  }

  /** "Clear all" followed by a load, on a slot in any prior state, yields []. */
  method ClearThenLoad(initial: Option<Stored>) returns (loaded: seq<Holding>)
    ensures loaded == []
  {
    var store := new PortfolioStore(initial);
    store.Clear();
    loaded := store.Load();
  }

  /** Adding to a slot that does not hold an array starts a fresh one-element list. */
  method AddToUnreadable(initial: Stored, h: Holding) returns (loaded: seq<Holding>)
    requires initial in {EmptyText, Unparseable, NotAnArray}
    ensures loaded == [h]
  {
    var store := new PortfolioStore(Some(initial));
    var shown := store.AddHolding(h);
    loaded := store.Load();
  }

  /** Removing index 0 from a two-element list leaves exactly the second
      element, and that one-element list is what is stored. */
  method RemoveFirstOfTwo(a: Holding, b: Holding) returns (shown: seq<Holding>, loaded: seq<Holding>)
    ensures shown == [b] && loaded == [b]
  {
    var store := new PortfolioStore(Some(Encode([a, b])));
    var result := store.RemoveHolding(Some(0));
    shown := result.value;
    loaded := store.Load();
  }
}
