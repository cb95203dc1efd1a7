/**
 * The tabs block (blocks/tabs/tabs.js): each row with a label becomes a tab
 * button and a panel; clicking a tab activates the panel it targets, and the
 * left and right arrow keys move the focus around the tab list.
 */
module Tabs {
  import opened Common
  import opened JsString
  import opened JsNumber
  import opened BlockUtils

  // ---------------------------------------------------------------------------
  // Building the tabs
  // ---------------------------------------------------------------------------

  /**
   * One tab and its panel: the label, the index of the row it came from
   * (which names both the tab's and the panel's id), and the content cell.
   */
  datatype TabData = TabData(text: string, row: nat, content: Option<Cell>)

  /** The tab of row `index`: none for a row without cells or with a blank label. */
  function TabOf(row: Row, index: nat): (r: Option<TabData>)
    ensures r.Some? <==> row != [] && Trim(row[0].text) != ""
    ensures r.Some? ==> r.value.text == Trim(row[0].text) && r.value.row == index
    ensures r.Some? ==> (r.value.content.Some? <==> |row| > 1)
    ensures r.Some? && |row| > 1 ==> r.value.content == Some(row[1])
  {
    if row == [] then None
    else
      var text := Trim(row[0].text);
      if text == "" then None
      else Some(TabData(text, index, if |row| > 1 then Some(row[1]) else None))
  }

  /** The tabs of the rows, in order. */
  function TabsOf(rows: seq<Row>): (r: seq<TabData>)
    ensures |r| <= |rows|
    decreases |rows|
  {
    if rows == [] then []
    else
      var tab := TabOf(rows[|rows| - 1], |rows| - 1);
      TabsOf(rows[..|rows| - 1]) + (if tab.Some? then [tab.value] else [])
  }

  /** The rows the tabs came from strictly increase. */
  predicate Increasing(tabs: seq<TabData>) {
    forall i, j :: 0 <= i < j < |tabs| ==> tabs[i].row < tabs[j].row
  }

  /**
   * Every tab comes from the row its index names, with that row's label;
   * every row with a label gives one; and the tabs keep the rows' order,
   * so no two tabs share an id.
   */
  lemma {:induction false} TabsOfSpec(rows: seq<Row>)
    ensures Increasing(TabsOf(rows))
    ensures forall t :: t in TabsOf(rows) ==> t.row < |rows| && TabOf(rows[t.row], t.row) == Some(t)
    ensures forall i :: 0 <= i < |rows| && TabOf(rows[i], i).Some? ==> TabOf(rows[i], i).value in TabsOf(rows)
    decreases |rows|
  {
    if rows != [] {
      var n := |rows| - 1;
      var init := rows[..n];
      var last := TabOf(rows[n], n);
      var before := TabsOf(init);
      TabsOfSpec(init);
      assert TabsOf(rows) == before + (if last.Some? then [last.value] else []);
      forall t | t in before
        ensures t.row < |rows| && TabOf(rows[t.row], t.row) == Some(t)
      {
        assert rows[t.row] == init[t.row];
      }
      forall i | 0 <= i < |rows| && TabOf(rows[i], i).Some?
        ensures TabOf(rows[i], i).value in TabsOf(rows)
      {
        if i < n {
          assert rows[i] == init[i];
        }
      }
      if last.Some? {
        IncreasingSnoc(before, last.value);
      }
    }
  }

  /** A tab from a later row than every earlier one keeps the rows increasing. */
  lemma IncreasingSnoc(tabs: seq<TabData>, t: TabData)
    requires Increasing(tabs)
    requires forall u :: u in tabs ==> u.row < t.row
    ensures Increasing(tabs + [t])
  {
    forall i, j | 0 <= i < j < |tabs| + 1
      ensures (tabs + [t])[i].row < (tabs + [t])[j].row
    {
      if j == |tabs| {
        assert (tabs + [t])[i] in tabs;
      }
    }
  }

  /** A tab starts active only when it came from row 0. */
  lemma InitiallyActive(rows: seq<Row>)
    ensures forall i :: 0 <= i < |TabsOf(rows)| && TabsOf(rows)[i].row == 0 ==> i == 0
    ensures rows != [] && TabOf(rows[0], 0).Some? ==> TabsOf(rows) != [] && TabsOf(rows)[0].row == 0
    ensures rows != [] && TabOf(rows[0], 0).None? ==> forall t :: t in TabsOf(rows) ==> t.row != 0
  {
    var tabs := TabsOf(rows);
    TabsOfSpec(rows);
    assert Increasing(tabs);
    if rows != [] && TabOf(rows[0], 0).Some? {
      var k :| 0 <= k < |tabs| && tabs[k] == TabOf(rows[0], 0).value;
      assert tabs[k].row == 0;
    }
  }

  // ---------------------------------------------------------------------------
  // The tab list's state
  // ---------------------------------------------------------------------------

  /** The tabs and panels after `decorate`, one panel per tab. */
  class TabSet {
    const tabs: seq<TabData>
    var tabActive: seq<bool>
    var ariaSelected: seq<bool>
    var panelActive: seq<bool>
    var panelHidden: seq<bool>

    /**
     * The tabs keep their rows' order (so their ids differ), `aria-selected`
     * follows the tab's class, and the panel is active with its tab and
     * hidden otherwise.
     */
    predicate Valid()
      reads this
    {
      && Increasing(tabs)
      && |tabActive| == |tabs| && |ariaSelected| == |tabs| && |panelActive| == |tabs| && |panelHidden| == |tabs|
      && (forall i :: 0 <= i < |tabs| ==> ariaSelected[i] == tabActive[i])
      && (forall i :: 0 <= i < |tabs| ==> panelActive[i] == tabActive[i])
      && (forall i :: 0 <= i < |tabs| ==> panelHidden[i] == !panelActive[i])
    }

    /** The initial state: only a tab from row 0 is active; every other panel is hidden. */
    constructor(tabs: seq<TabData>)
      requires Increasing(tabs)
      ensures Valid() && this.tabs == tabs
      ensures forall i :: 0 <= i < |tabs| ==> (tabActive[i] <==> tabs[i].row == 0)
    {
      this.tabs := tabs;
      tabActive := seq(|tabs|, i requires 0 <= i < |tabs| => tabs[i].row == 0);
      ariaSelected := seq(|tabs|, i requires 0 <= i < |tabs| => tabs[i].row == 0);
      panelActive := seq(|tabs|, i requires 0 <= i < |tabs| => tabs[i].row == 0);
      panelHidden := seq(|tabs|, i requires 0 <= i < |tabs| => tabs[i].row != 0);
    }

    /**
     * `activate(target)`: the two loops make active exactly the tabs and
     * panels whose id names `target`, and hide every other panel.
     */
    method Activate(target: nat)
      requires Valid()
      modifies this
      ensures Valid()
      ensures forall i :: 0 <= i < |tabs| ==> (tabActive[i] <==> tabs[i].row == target)
    {
      var i := 0;
      while i < |tabs|
        invariant 0 <= i <= |tabs|
        invariant |tabActive| == |tabs| && |ariaSelected| == |tabs|
        invariant panelActive == old(panelActive) && panelHidden == old(panelHidden)
        invariant forall k :: 0 <= k < i ==> (tabActive[k] <==> tabs[k].row == target) && ariaSelected[k] == tabActive[k]
      {
        var isActive := tabs[i].row == target;
        tabActive := tabActive[i := isActive];
        ariaSelected := ariaSelected[i := isActive];
        i := i + 1;
      }
      var j := 0;
      while j < |tabs|
        invariant 0 <= j <= |tabs|
        invariant |panelActive| == |tabs| && |panelHidden| == |tabs|
        invariant |tabActive| == |tabs| && |ariaSelected| == |tabs|
        invariant forall k :: 0 <= k < |tabs| ==> (tabActive[k] <==> tabs[k].row == target) && ariaSelected[k] == tabActive[k]
        invariant forall k :: 0 <= k < j ==> (panelActive[k] <==> tabs[k].row == target) && panelHidden[k] == !panelActive[k]
      {
        var isActive := tabs[j].row == target;
        panelActive := panelActive[j := isActive];
        panelHidden := panelHidden[j := !isActive];
        j := j + 1;
      }
    }

    /** A click on tab `k` activates its target: that tab and its panel alone become active. */
    method Click(k: nat)
      requires Valid() && k < |tabs|
      modifies this
      ensures Valid()
      ensures forall i :: 0 <= i < |tabs| ==> (tabActive[i] <==> i == k)
      ensures forall i :: 0 <= i < |tabs| ==> (panelHidden[i] <==> i != k)
    {
      AtMostOneActive(tabs, tabs[k].row);
      Activate(tabs[k].row);
    }
  }

  /** With distinct ids, activating a target leaves at most one tab active. */
  lemma AtMostOneActive(tabs: seq<TabData>, target: nat)
    requires Increasing(tabs)
    ensures forall i, j :: 0 <= i < |tabs| && 0 <= j < |tabs| && tabs[i].row == target && tabs[j].row == target ==> i == j
  {
  }

  // ---------------------------------------------------------------------------
  // Keyboard
  // ---------------------------------------------------------------------------

  /**
   * The keydown handler of tab `index` among `n`: the arrow keys move the
   * focus to `(index ± 1 + n) % n`; any other key is ignored.
   */
  function NextFocus(index: nat, n: nat, key: string): (r: Option<nat>)
    requires index < n
    ensures r.Some? <==> key == "ArrowRight" || key == "ArrowLeft"
    ensures r.Some? ==> r.value < n
    ensures key == "ArrowRight" ==> r == Some(if index == n - 1 then 0 else index + 1)
    ensures key == "ArrowLeft" ==> r == Some(if index == 0 then n - 1 else index - 1)
  {
    if key != "ArrowRight" && key != "ArrowLeft" then None
    else
      var dir := if key == "ArrowRight" then 1 else -1;
      WrapSpec(index + dir, n);
      Some(Remainder(index + dir + n, n))
  }

  // ---------------------------------------------------------------------------
  // decorate
  // ---------------------------------------------------------------------------

  /** The `forEach` over the rows: one tab per row with a label. */
  method BuildTabs(rows: seq<Row>) returns (tabs: seq<TabData>)
    ensures tabs == TabsOf(rows)
  {
    tabs := [];
    var index := 0;
    while index < |rows|
      invariant 0 <= index <= |rows|
      invariant tabs == TabsOf(rows[..index])
    {
      assert rows[..index + 1][..index] == rows[..index];
      var cells := rows[index];
      if cells != [] {
        var text := Trim(cells[0].text);
        if text != "" {
          tabs := tabs + [TabData(text, index, if |cells| > 1 then Some(cells[1]) else None)];
        }
      }
      index := index + 1;
    }
    assert rows[..|rows|] == rows;
  }

  /**
   * `decorate`: a block without rows is left as it is; otherwise its
   * content is replaced by the tab list of its rows, in the initial state.
   */
  method Decorate(block: Option<Block>) returns (tabSet: TabSet?)
    ensures tabSet == null <==> BlockRows(block) == []
    ensures tabSet != null ==>
      && fresh(tabSet) && tabSet.Valid() && tabSet.tabs == TabsOf(BlockRows(block))
      && forall i :: 0 <= i < |tabSet.tabs| ==> (tabSet.tabActive[i] <==> tabSet.tabs[i].row == 0)
  {
    var rows := BlockRows(block);
    if rows == [] {
      return null;
    }
    var tabs := BuildTabs(rows);
    TabsOfSpec(rows);
    tabSet := new TabSet(tabs);
  }
}
