/**
 * The shared block helpers (scripts/block-utils.js): reading the rows of an
 * authored block, bounds-safe cell lookup, and the two in-place child
 * transfers `moveChildren` and `clearBlock`.
 *
 * A block is abstracted to its rows; a row to its cells; a cell to what any
 * block reads of it: its text content, the anchors it contains, the texts of
 * its inline `p`/`span`/`strong` elements, its first image, and how many
 * element children it has.
 */
module BlockUtils {
  import opened Common
  import opened JsString

  datatype Image = Image(src: string, alt: string)

  /** An anchor; `href` is `""` when the attribute is missing. */
  datatype Anchor = Anchor(href: string, text: string)

  datatype Cell = Cell(
    text: string,
    anchors: seq<Anchor>,
    inlines: seq<string>,
    image: Option<Image>,
    elementCount: nat)

  type Row = seq<Cell>

  /** `name` is the block's `data-block-name`, `""` when it has none. */
  datatype Block = Block(name: string, rows: seq<Row>)

  /** A cell holding nothing but text. */
  function TextCell(t: string): Cell {
    Cell(t, [], [], None, 0)
  }

  /** A header row that repeats the block's name: exactly one cell whose text is the name. */
  predicate IsNameRow(row: Row, name: string) {
    |row| == 1 && Lower(Trim(row[0].text)) == Lower(name)
  }

  /**
   * `getBlockRows`: the rows of a block, without a leading row that only
   * repeats the block's name. A missing block has no rows.
   */
  function BlockRows(block: Option<Block>): (rows: seq<Row>)
    ensures block.None? ==> rows == []
    ensures block.Some? ==>
      && |rows| <= |block.value.rows| <= |rows| + 1
      && rows == block.value.rows[|block.value.rows| - |rows|..]
    ensures block.Some? ==>
      (|rows| < |block.value.rows| <==>
        block.value.name != "" && block.value.rows != [] && IsNameRow(block.value.rows[0], block.value.name))
  {
    match block
    case None => []
    case Some(b) =>
      if b.rows == [] || b.name == "" then b.rows
      else if IsNameRow(b.rows[0], b.name) then b.rows[1..]
      else b.rows
  }

  /** `getCell`: the cell at `index`, or `None` for a missing row or an index out of range. */
  function GetCell(row: Option<Row>, index: int): (r: Option<Cell>)
    ensures r.Some? <==> row.Some? && 0 <= index < |row.value|
    ensures r.Some? ==> r.value == row.value[index]
  {
    if row.Some? && 0 <= index < |row.value| then Some(row.value[index]) else None
  }

  /** `getCellText`: the trimmed text of a cell, `""` when the cell is missing. */
  function GetCellText(row: Option<Row>, index: int): (r: string)
    ensures IsTrimmed(r)
    ensures GetCell(row, index).None? ==> r == ""
    ensures GetCell(row, index).Some? ==> r == Trim(GetCell(row, index).value.text)
  {
    match GetCell(row, index)
    case None => ""
    case Some(c) => TrimIsTrimmed(c.text); Trim(c.text)
  }

  /** The third argument of `el`: nothing, a text, or (at some call sites) an options object. */
  datatype ElArg = NoText | Text(s: string) | Options(href: string, linkText: string)

  /** What `el` builds, as far as the blocks read it back. */
  datatype ElView = ElView(tag: string, className: string, text: string, href: Option<string>)

  /**
   * `el(tag, className, text)`: the third argument is assigned to
   * `textContent` when truthy; an object is truthy and becomes the text
   * `"[object Object]"`. `el` never sets an `href`.
   */
  function El(tag: string, className: string, arg: ElArg): (r: ElView)
    ensures r.tag == tag && r.className == className && r.href.None?
    ensures arg.Text? ==> r.text == arg.s
    ensures arg.Options? ==> r.text == "[object Object]"
  {
    match arg
    case NoText => ElView(tag, className, "", None)
    case Text(s) => ElView(tag, className, s, None)
    case Options(_, _) => ElView(tag, className, "[object Object]", None)
  }

  /** An opaque child node of a DOM element. */
  datatype Node = Node(id: nat)

  class Element {
    var children: seq<Node>

    constructor (children: seq<Node>)
      ensures this.children == children
    {
      this.children := children;
    }
  }

  /**
   * `moveChildren`: appends the source's children, in order, to the target
   * and leaves the source empty; a missing source or target changes nothing.
   * The source loops forever when both are the same element; no caller does
   * that.
   */
  method MoveChildren(source: Element?, target: Element?)
    requires source != null && target != null ==> source != target
    modifies source, target
    ensures source == null || target == null ==>
      && (source != null ==> source.children == old(source.children))
      && (target != null ==> target.children == old(target.children))
    ensures source != null && target != null ==>
      && source.children == []
      && target.children == old(target.children) + old(source.children)
  {
    if source == null || target == null {
      return;
    }
    while source.children != []
      invariant target.children + source.children == old(target.children) + old(source.children)
      decreases |source.children|
    {
      var first := source.children[0];
      assert [first] + source.children[1..] == source.children;
      target.children := target.children + [first];
      source.children := source.children[1..];
    }
  }

  /** `clearBlock`: removes every child; a missing block is left alone. */
  method ClearBlock(block: Element?)
    modifies block
    ensures block != null ==> block.children == []
  {
    if block == null {
      return;
    }
    while block.children != []
      decreases |block.children|
    {
      block.children := block.children[1..];
    }
  }
}
