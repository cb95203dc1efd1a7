/**
 * `buildFilters` and `applyFilterAndRender` of the content-listing block:
 * the distinct values of the filter field become a sorted row of buttons,
 * headed by "All"; a click highlights its button and re-renders the cards
 * of the items that carry its value.
 */
module ListingFilters {
  import opened Common
  import opened JsString
  import opened Sequences
  import opened IndexItem
  import StableSort

  // ---------------------------------------------------------------------------
  // Collecting the values
  // ---------------------------------------------------------------------------

  /**
   * What one item adds to the value set: nothing for a missing or falsy
   * value, the value for a string, every element for a list.
   */
  function ItemValues(item: Item, field: string): (r: seq<string>)
    ensures field !in item || !Truthy(item[field]) ==> r == []
  {
    if field in item && Truthy(item[field]) then
      match item[field]
      case Str(s) => [s]
      case Strs(xs) => xs
    else []
  }

  /** `valueSet.add` for each of `vs`: a `Set` keeps the first insertion's place. */
  function AddAll(known: seq<string>, vs: seq<string>): (r: seq<string>)
    decreases |vs|
  {
    if vs == [] then known
    else
      var k := AddAll(known, vs[..|vs| - 1]);
      if vs[|vs| - 1] in k then k else k + [vs[|vs| - 1]]
  }

  /** `Array.from(valueSet)` after every item was visited. */
  function ValuesOf(items: seq<Item>, field: string): seq<string>
    decreases |items|
  {
    if items == [] then []
    else AddAll(ValuesOf(items[..|items| - 1], field), ItemValues(items[|items| - 1], field))
  }

  lemma {:induction false} AddAllSpec(known: seq<string>, vs: seq<string>)
    requires Distinct(known)
    ensures Distinct(AddAll(known, vs))
    ensures forall v :: v in AddAll(known, vs) <==> v in known || v in vs
    ensures known <= AddAll(known, vs)
    decreases |vs|
  {
    if vs != [] {
      var init := vs[..|vs| - 1];
      AddAllSpec(known, init);
      InitLast(vs);
      forall v ensures v in vs <==> v in init || v == vs[|vs| - 1] {
        assert v in vs <==> v in init + [vs[|vs| - 1]];
      }
    }
  }

  /** The value set holds each value once: exactly the values some item contributes. */
  lemma {:induction false} ValuesOfSpec(items: seq<Item>, field: string)
    ensures Distinct(ValuesOf(items, field))
    ensures forall v :: v in ValuesOf(items, field) <==>
      exists i :: 0 <= i < |items| && v in ItemValues(items[i], field)
    decreases |items|
  {
    if items != [] {
      var init := items[..|items| - 1];
      var last := items[|items| - 1];
      ValuesOfSpec(init, field);
      AddAllSpec(ValuesOf(init, field), ItemValues(last, field));
      forall v ensures v in ValuesOf(items, field) <==> exists i :: 0 <= i < |items| && v in ItemValues(items[i], field) {
        if v in ValuesOf(items, field) {
          if v in ValuesOf(init, field) {
            var i :| 0 <= i < |init| && v in ItemValues(init[i], field);
            assert items[i] == init[i];
          } else {
            assert v in ItemValues(items[|items| - 1], field);
          }
        } else {
          forall i | 0 <= i < |items| ensures v !in ItemValues(items[i], field) {
            if i < |init| {
              assert items[i] == init[i];
            }
          }
        }
      }
    }
  }

  /** The two nested `forEach` loops that fill `valueSet`. */
  method CollectValues(items: seq<Item>, field: string) returns (values: seq<string>)
    ensures values == ValuesOf(items, field)
  {
    values := [];
    var i := 0;
    while i < |items|
      invariant 0 <= i <= |items|
      invariant values == ValuesOf(items[..i], field)
    {
      assert items[..i + 1][..i] == items[..i];
      var vs := ItemValues(items[i], field);
      ghost var before := values;
      var j := 0;
      while j < |vs|
        invariant 0 <= j <= |vs|
        invariant values == AddAll(before, vs[..j])
      {
        assert vs[..j + 1][..j] == vs[..j];
        if vs[j] !in values {
          values := values + [vs[j]];
        }
        j := j + 1;
      }
      assert vs[..|vs|] == vs;
      i := i + 1;
    }
    assert items[..|items|] == items;
  }

  /** The button values: the collected values sorted with `localeCompare`. */
  function FilterValues(items: seq<Item>, field: string): seq<string> {
    StableSort.InsertionSort(ValuesOf(items, field), s => s, false)
  }

  /** The buttons' values are strictly ascending, and are exactly the values the items carry. */
  lemma FilterValuesSpec(items: seq<Item>, field: string)
    ensures forall i, j :: 0 <= i < j < |FilterValues(items, field)| ==>
      LexLess(FilterValues(items, field)[i], FilterValues(items, field)[j])
    ensures forall v :: v in FilterValues(items, field) <==>
      exists i :: 0 <= i < |items| && v in ItemValues(items[i], field)
  {
    var values := ValuesOf(items, field);
    var r := FilterValues(items, field);
    ValuesOfSpec(items, field);
    StableSort.InsertionSortSorted(values, s => s, false);
    DistinctPermutation(values, r);
    forall i, j | 0 <= i < j < |r| ensures LexLess(r[i], r[j]) {
      assert !StableSort.KeyBefore(r[j], r[i], false);
      LexLessTotal(r[i], r[j]);
    }
    forall v ensures v in r <==> v in values {
      assert v in r <==> v in multiset(r);
    }
  }

  // ---------------------------------------------------------------------------
  // The filter bar
  // ---------------------------------------------------------------------------

  /** "All" (`None`) followed by one button per value. */
  function Buttons(values: seq<string>): (r: seq<Option<string>>)
    ensures |r| == |values| + 1 && r[0] == None
    ensures forall i :: 0 <= i < |values| ==> r[i + 1] == Some(values[i])
  {
    [None] + seq(|values|, i requires 0 <= i < |values| => Some(values[i]))
  }

  function Label(button: Option<string>): string {
    if button.None? then "All" else button.value
  }

  /**
   * The row of filter buttons. The "All" button is `None` here rather than
   * a sentinel string, so no category can be mistaken for it.
   */
  class FilterBar {
    var buttons: seq<Option<string>>
    var active: Option<string>
    var highlighted: seq<bool>

    /** A button is highlighted exactly when its value is the active one. */
    ghost predicate Valid()
      reads this
    {
      && |highlighted| == |buttons|
      && buttons != [] && buttons[0] == None
      && Distinct(buttons)
      && active in buttons
      && forall i :: 0 <= i < |buttons| ==> (highlighted[i] <==> buttons[i] == active)
    }

    /** `makeButton` for "All" and then for every value; "All" starts active. */
    constructor (values: seq<string>)
      requires Distinct(values)
      ensures Valid() && buttons == Buttons(values) && active == None
    {
      buttons := [None];
      highlighted := [true];
      active := None;
      new;
      var i := 0;
      while i < |values|
        invariant 0 <= i <= |values|
        invariant buttons == Buttons(values[..i]) && active == None
        invariant |highlighted| == |buttons|
        invariant forall k :: 0 <= k < |buttons| ==> (highlighted[k] <==> buttons[k] == active)
      {
        assert values[..i + 1][..i] == values[..i];
        buttons := buttons + [Some(values[i])];
        highlighted := highlighted + [Some(values[i]) == active];
        i := i + 1;
      }
      assert values[..|values|] == values;
      forall j, k | 0 <= j < k < |buttons| ensures buttons[j] != buttons[k] {
        if j > 0 {
          assert values[j - 1] != values[k - 1];
        }
      }
    }

    /**
     * A click on button `i`: nothing when it is already active; otherwise it
     * becomes the active one, every highlight is removed and its own is set,
     * and the selection (`None` for "All") is handed to the listing.
     */
    method Click(i: nat) returns (selected: Option<Option<string>>)
      requires Valid() && i < |buttons|
      modifies this
      ensures Valid() && buttons == old(buttons) && active == buttons[i]
      ensures old(active) == buttons[i] ==> selected == None && highlighted == old(highlighted)
      ensures old(active) != buttons[i] ==> selected == Some(buttons[i])
    {
      if active == buttons[i] {
        return None;
      }
      active := buttons[i];
      var j := 0;
      while j < |highlighted|
        invariant 0 <= j <= |highlighted| == |buttons|
        invariant buttons == old(buttons) && active == buttons[i]
        invariant forall k :: 0 <= k < j ==> !highlighted[k]
      {
        highlighted := highlighted[j := false];
        j := j + 1;
      }
      highlighted := highlighted[i := true];
      forall k | 0 <= k < |buttons| ensures highlighted[k] <==> buttons[k] == active {
        if k != i {
          assert buttons[k] != buttons[i];
        }
      }
      selected := Some(active);
    }
  }

  /** Exactly one button is highlighted: the active one. */
  lemma OneHighlighted(bar: FilterBar)
    requires bar.Valid()
    ensures exists i :: 0 <= i < |bar.buttons| && bar.highlighted[i] && bar.buttons[i] == bar.active
    ensures forall i, j :: 0 <= i < |bar.buttons| && 0 <= j < |bar.buttons| && bar.highlighted[i] && bar.highlighted[j] ==> i == j
  {
    var i :| 0 <= i < |bar.buttons| && bar.buttons[i] == bar.active;
    assert bar.highlighted[i];
  }

  /** `buildFilters`: no bar without values, else "All" and the sorted values, "All" active. */
  method BuildFilters(items: seq<Item>, field: string) returns (bar: FilterBar?)
    ensures bar == null <==> FilterValues(items, field) == []
    ensures bar != null ==>
      fresh(bar) && bar.Valid() && bar.buttons == Buttons(FilterValues(items, field)) && bar.active == None
  {
    var values := CollectValues(items, field);
    if values == [] {
      return null;
    }
    var sorted := StableSort.InsertionSort(values, s => s, false);
    ValuesOfSpec(items, field);
    DistinctPermutation(values, sorted);
    bar := new FilterBar(sorted);
  }

  // ---------------------------------------------------------------------------
  // Re-rendering for a selection
  // ---------------------------------------------------------------------------

  /** The items that carry `v` in `field`: the value itself or one of its list elements. */
  function ItemsCarrying(items: seq<Item>, field: string, v: string): (r: seq<Item>)
    ensures IsSubsequence(r, items)
    ensures forall x :: x in r <==> x in items && v in ItemValues(x, field)
    ensures forall x :: multiset(r)[x] == if v in ItemValues(x, field) then multiset(items)[x] else 0
    decreases |items|
  {
    if items == [] then []
    else
      var init := items[..|items| - 1];
      var last := items[|items| - 1];
      InitLast(items);
      var rest := ItemsCarrying(init, field, v);
      SubsequenceSnoc(rest, init, last);
      CountSnoc(init, last);
      CountSnoc(rest, last);
      if v in ItemValues(last, field) then rest + [last] else rest
  }

  /**
   * `applyFilterAndRender(value)`: every listed item for no selection (or
   * an empty one), else the items that carry the selected value.
   */
  function ApplyFilter(items: seq<Item>, field: string, value: Option<string>): seq<Item> {
    if field != "" && value.Some? && value.value != "" then ItemsCarrying(items, field, value.value) else items
  }

  /** Every button selects at least one item, and only items that carry its value. */
  lemma EveryButtonSelects(items: seq<Item>, field: string, v: string)
    requires field != "" && v in FilterValues(items, field)
    ensures ApplyFilter(items, field, Some(v)) != []
    ensures v != "" ==> forall x :: x in ApplyFilter(items, field, Some(v)) ==> v in ItemValues(x, field)
  {
    FilterValuesSpec(items, field);
    var i :| 0 <= i < |items| && v in ItemValues(items[i], field);
    assert items[i] in items;
  }

  // ---------------------------------------------------------------------------
  // The behaviour as written
  // ---------------------------------------------------------------------------

  /** The string the source stands in for "All". */
  const AllSentinel := "__all__"

  /**
   * The comparison `applyFilterAndRender` makes: `` `${item[field]}` ``
   * against the selected value, so a list-valued field must equal the whole
   * comma-joined list.
   */
  function ItemsWithTemplate(items: seq<Item>, field: string, v: string): (r: seq<Item>)
    ensures IsSubsequence(r, items)
    ensures forall x :: x in r <==> x in items && TemplateText(x, field) == v
    ensures forall x :: multiset(r)[x] == if TemplateText(x, field) == v then multiset(items)[x] else 0
    decreases |items|
  {
    if items == [] then []
    else
      var init := items[..|items| - 1];
      var last := items[|items| - 1];
      InitLast(items);
      var rest := ItemsWithTemplate(init, field, v);
      SubsequenceSnoc(rest, init, last);
      CountSnoc(init, last);
      CountSnoc(rest, last);
      if TemplateText(last, field) == v then rest + [last] else rest
  }

  function ApplyFilterAsWritten(items: seq<Item>, field: string, value: Option<string>): seq<Item> {
    if field != "" && value.Some? && value.value != "" then ItemsWithTemplate(items, field, value.value) else items
  }

  /**
   * As written, the button made from a list element selects nothing: an item
   * whose `category` is `["hiking", "camping"]` yields the buttons "camping"
   * and "hiking", but its template text is `"hiking,camping"`.
   */
  lemma ListElementSelectsNothingAsWritten()
    ensures var items := [map["category" := Strs(["hiking", "camping"])]];
      && "hiking" in FilterValues(items, "category")
      && ApplyFilterAsWritten(items, "category", Some("hiking")) == []
      && ApplyFilter(items, "category", Some("hiking")) == items
  {
    var items := [map["category" := Strs(["hiking", "camping"])]];
    FilterValuesSpec(items, "category");
    assert "hiking" in ItemValues(items[0], "category");
    assert Join(["hiking", "camping"], ",") == "hiking" + "," + Join(["camping"], ",");
    assert TemplateText(items[0], "category") != "hiking";
    assert "hiking" in ItemValues(items[0], "category");
  }

  /** As written, the buttons highlighted when built: those whose value is the sentinel. */
  function InitialHighlightsAsWritten(values: seq<string>): (r: seq<bool>)
    ensures |r| == |values| + 1 && r[0]
    ensures forall i :: 0 <= i < |values| ==> (r[i + 1] <==> values[i] == AllSentinel)
  {
    [true] + seq(|values|, i requires 0 <= i < |values| => values[i] == AllSentinel)
  }

  /** As written, what a click hands to the listing: the sentinel means "All". */
  function SelectionAsWritten(value: string): Option<string> {
    if value == AllSentinel then None else Some(value)
  }

  /**
   * As written, a category literally named `__all__` starts highlighted
   * beside "All", and choosing it shows every item; with `None` for "All"
   * the two buttons differ and only one is highlighted.
   */
  lemma SentinelCollisionAsWritten()
    ensures InitialHighlightsAsWritten([AllSentinel]) == [true, true]
    ensures SelectionAsWritten(AllSentinel) == None
    ensures Buttons([AllSentinel]) == [None, Some(AllSentinel)]
  {
    var r := InitialHighlightsAsWritten([AllSentinel]);
    assert r[1];
  }
}
