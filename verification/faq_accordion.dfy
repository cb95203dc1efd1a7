/**
 * The FAQ accordion block (blocks/faq-accordion/faq-accordion.js): each row
 * with a question becomes an item whose answer panel opens and closes on a
 * click; an optional "Question | Answer" header row is skipped and the first
 * item starts open.
 */
module FaqAccordion {
  import opened Common
  import opened JsString
  import opened BlockUtils
  import opened Sequences

  // ---------------------------------------------------------------------------
  // getFaqItemsData
  // ---------------------------------------------------------------------------

  /** What one row contributes: its question, answer cell and the two optional pills. */
  datatype FaqData = FaqData(question: string, answer: Option<Cell>, category: string, tag: string)

  /** Row 0 is a header when it has at least two cells and its first reads `question` or `q`. */
  predicate HasHeader(rows: seq<Row>) {
    rows != [] && |rows[0]| >= 2 &&
    (Lower(GetCellText(Some(rows[0]), 0)) == "question" || Lower(GetCellText(Some(rows[0]), 0)) == "q")
  }

  /** The rows below the header, or every row when there is none. */
  function DataRows(rows: seq<Row>): (r: seq<Row>)
    ensures HasHeader(rows) ==> r == rows[1..]
    ensures !HasHeader(rows) ==> r == rows
  {
    if HasHeader(rows) then rows[1..] else rows
  }

  /** The item of one row: none for a row without cells or with an empty question. */
  function FaqOf(row: Row): (r: Option<FaqData>)
    ensures r.Some? <==> row != [] && GetCellText(Some(row), 0) != ""
    ensures r.Some? ==> r.value.question == GetCellText(Some(row), 0)
    ensures r.Some? ==> (r.value.answer.Some? <==> |row| > 1)
    ensures r.Some? && |row| > 1 ==> r.value.answer == Some(row[1])
    ensures r.Some? && |row| > 2 ==> r.value.category == GetCellText(Some(row), 2)
    ensures r.Some? && |row| > 3 ==> r.value.tag == GetCellText(Some(row), 3)
    ensures r.Some? && |row| <= 2 ==> r.value.category == ""
    ensures r.Some? && |row| <= 3 ==> r.value.tag == ""
  {
    if row == [] then None
    else
      var question := GetCellText(Some(row), 0);
      if question == "" then None
      else Some(FaqData(
        question,
        if |row| > 1 then Some(row[1]) else None,
        if |row| > 2 then GetCellText(Some(row), 2) else "",
        if |row| > 3 then GetCellText(Some(row), 3) else ""))
  }

  /** `dataRows.map(...).filter(Boolean)`. */
  function FaqItems(rows: seq<Row>): seq<FaqData> {
    FilterMap(rows, FaqOf)
  }

  /** Every item comes from a row and has a question, and every row with a question gives one. */
  lemma FaqItemsSpec(rows: seq<Row>)
    ensures forall d :: d in FaqItems(rows) ==> d.question != "" && exists i :: 0 <= i < |rows| && FaqOf(rows[i]) == Some(d)
    ensures forall i :: 0 <= i < |rows| && (rows[i] != [] && GetCellText(Some(rows[i]), 0) != "") ==> FaqOf(rows[i]).value in FaqItems(rows)
  {
    FilterMapSpec(rows, FaqOf);
  }

  /** There are no items exactly when no row has a question: the block is then left as it is. */
  lemma NoItems(rows: seq<Row>)
    ensures FaqItems(rows) == [] <==> forall i :: 0 <= i < |rows| ==> !(rows[i] != [] && GetCellText(Some(rows[i]), 0) != "")
  {
    FilterMapEmpty(rows, FaqOf);
  }

  /** `getFaqItemsData`: the items of the block's data rows. */
  function FaqItemsData(block: Option<Block>): seq<FaqData> {
    FaqItems(DataRows(BlockRows(block)))
  }

  /**
   * Example: a "Q | Answer" row is a header and is skipped, while a one-cell
   * "Q" row is not a header: it stays a data row.
   */
  lemma HeaderRowSkipped(answer: Cell)
    ensures HasHeader([[TextCell("Q"), answer]]) && DataRows([[TextCell("Q"), answer]]) == []
    ensures !HasHeader([[TextCell("Q")]]) && DataRows([[TextCell("Q")]]) == [[TextCell("Q")]]
  {
    assert Lower("Q") == "q";
  }

  // ---------------------------------------------------------------------------
  // The items and their toggle
  // ---------------------------------------------------------------------------

  /** One rendered item: its data and the state `openItem`/`closeItem` change. */
  class FaqItem {
    const data: FaqData
    var open: bool
    var ariaExpanded: string
    var ariaHidden: string
    var icon: string

    /** The button's `aria-expanded`, the panel's `aria-hidden` and the icon agree with the open class. */
    predicate Valid()
      reads this
    {
      && ariaExpanded == (if open then "true" else "false")
      && ariaHidden == (if open then "false" else "true")
      && icon == (if open then "–" else "+")
    }

    /** `createFaqItem`: the item starts closed. */
    constructor(data: FaqData)
      ensures Valid() && !open && this.data == data
    {
      this.data := data;
      open := false;
      ariaExpanded := "false";
      ariaHidden := "true";
      icon := "+";
    }

    /** `openItem`. */
    method Open()
      modifies this
      ensures Valid() && open
    {
      open := true;
      ariaExpanded := "true";
      ariaHidden := "false";
      icon := "–";
    }

    /** `closeItem`. */
    method Close()
      modifies this
      ensures Valid() && !open
    {
      open := false;
      ariaExpanded := "false";
      ariaHidden := "true";
      icon := "+";
    }

    /** The click handler: an open item closes, a closed one opens. */
    method Click()
      requires Valid()
      modifies this
      ensures Valid() && open == !old(open)
    {
      if open {
        Close();
      } else {
        Open();
      }
    }
  }

  /**
   * `buildFaqList` followed by opening the first control: one control per
   * item, in order, all distinct and valid, and only the first is open.
   */
  method BuildControls(items: seq<FaqData>) returns (controls: seq<FaqItem>)
    ensures |controls| == |items|
    ensures forall i :: 0 <= i < |controls| ==> fresh(controls[i])
    ensures forall i, j :: 0 <= i < j < |controls| ==> controls[i] != controls[j]
    ensures forall i :: 0 <= i < |controls| ==>
      controls[i].Valid() && controls[i].data == items[i] && (controls[i].open <==> i == 0)
  {
    controls := [];
    var i := 0;
    while i < |items|
      invariant 0 <= i <= |items| && |controls| == i
      invariant forall k :: 0 <= k < i ==> fresh(controls[k])
      invariant forall k, l :: 0 <= k < l < i ==> controls[k] != controls[l]
      invariant forall k :: 0 <= k < i ==> controls[k].Valid() && !controls[k].open && controls[k].data == items[k]
    {
      var control := new FaqItem(items[i]);
      controls := controls + [control];
      i := i + 1;
    }
    if |controls| > 0 {
      controls[0].Open();
    }
  }

  /** `decorate`: without items the block is left as it is (no controls). */
  method Decorate(block: Option<Block>) returns (controls: seq<FaqItem>)
    ensures |controls| == |FaqItemsData(block)|
    ensures forall i :: 0 <= i < |controls| ==> fresh(controls[i])
    ensures forall i :: 0 <= i < |controls| ==>
      controls[i].Valid() && controls[i].data == FaqItemsData(block)[i] && (controls[i].open <==> i == 0)
  {
    controls := BuildControls(FaqItemsData(block));
  }
}
