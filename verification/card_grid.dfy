/**
 * The card-grid block (blocks/card-grid/card-grid.js): a header row names
 * the columns (`image`, `name`, `role`, `social`, with aliases); every
 * following row becomes a card built from those columns, social tokens
 * such as "F T I" become icons, and a card with nothing to show is dropped.
 */
module CardGrid {
  import opened Common
  import opened JsString
  import opened BlockUtils
  import opened Sequences

  // ---------------------------------------------------------------------------
  // Header keys and the column map
  // ---------------------------------------------------------------------------

  /** `normalizeHeader`: the header slug, with the aliases folded onto the four known keys. */
  function NormalizeHeader(text: string): string {
    FoldAliases(Slug(text))
  }

  /** The `if` chain of `normalizeHeader` on the cleaned text. */
  function FoldAliases(cleaned: string): string {
    if cleaned == "" then ""
    else if StartsWith(cleaned, "image") then "image"
    else if cleaned == "name" then "name"
    else if cleaned == "role" || cleaned == "title" then "role"
    else if StartsWith(cleaned, "social") then "social"
    else cleaned
  }

  /** Folding a folded key changes nothing. */
  lemma FoldAliasesIdempotent(cleaned: string)
    ensures FoldAliases(FoldAliases(cleaned)) == FoldAliases(cleaned)
  {
    var key := FoldAliases(cleaned);
    if key == "image" {
      assert StartsWith(key, "image");
    } else if key == "social" {
      assert !StartsWith(key, "image") && StartsWith(key, "social");
    } else if key == "role" {
      assert !StartsWith(key, "image");
    }
  }

  /**
   * A key is a slug, empty exactly when the slug is; `Image 2` and
   * `Social Links` fold onto `image` and `social`, `Title` onto `role`;
   * `name`, `role` and every other header keep their slug.
   */
  lemma NormalizeHeaderSpec(text: string)
    ensures IsSlug(NormalizeHeader(text))
    ensures NormalizeHeader(text) == "" <==> Slug(text) == ""
    ensures StartsWith(Slug(text), "image") ==> NormalizeHeader(text) == "image"
    ensures StartsWith(Slug(text), "social") && !StartsWith(Slug(text), "image") ==> NormalizeHeader(text) == "social"
    ensures Slug(text) == "title" ==> NormalizeHeader(text) == "role"
    ensures Slug(text) == "name" || Slug(text) == "role" ==> NormalizeHeader(text) == Slug(text)
    ensures !StartsWith(Slug(text), "image") && !StartsWith(Slug(text), "social") && Slug(text) != "title" ==>
      NormalizeHeader(text) == Slug(text)
  {
    SlugIsSlug(text);
    var key := NormalizeHeader(text);
    if key != Slug(text) {
      KnownKey(key);
    }
  }

  /** Each of the four keys is a slug, so slugging it leaves it unchanged. */
  lemma KnownKey(key: string)
    requires key == "image" || key == "name" || key == "role" || key == "social"
    ensures IsSlug(key) && Slug(key) == key
  {
    assert IsSlug(key) by {
      if key == "image" {
      } else if key == "name" {
      } else if key == "role" {
      } else {
      }
    }
    SlugOfSlug(key);
  }

  /** Normalizing a key again leaves it unchanged. */
  lemma NormalizeHeaderIdempotent(text: string)
    ensures NormalizeHeader(NormalizeHeader(text)) == NormalizeHeader(text)
  {
    var cleaned := Slug(text);
    var key := FoldAliases(cleaned);
    if key == cleaned {
      SlugIsSlug(text);
      SlugOfSlug(cleaned);
    } else {
      KnownKey(key);
    }
    FoldAliasesIdempotent(cleaned);
  }

  /** The normalized key of every header cell. */
  function HeaderKeys(header: Row): (keys: seq<string>)
    ensures |keys| == |header|
    ensures forall j :: 0 <= j < |header| ==> keys[j] == NormalizeHeader(header[j].text)
  {
    seq(|header|, j requires 0 <= j < |header| => NormalizeHeader(header[j].text))
  }

  /** `keys[i]` is the first occurrence of a non-empty key. */
  predicate FirstOccurrences(keys: seq<string>, columns: map<string, nat>, upTo: nat)
    requires upTo <= |keys|
  {
    && (forall k :: k in columns ==>
          && k != "" && columns[k] < upTo && keys[columns[k]] == k
          && forall j :: 0 <= j < columns[k] ==> keys[j] != k)
    && (forall j :: 0 <= j < upTo && keys[j] != "" ==> keys[j] in columns)
  }

  /**
   * The `columnMap` loop, over the header cells' keys: every non-empty key
   * maps to the index of its first occurrence, and no other key is mapped.
   */
  method FirstOccurrenceMap(keys: seq<string>) returns (columns: map<string, nat>)
    ensures FirstOccurrences(keys, columns, |keys|)
    ensures forall key :: key != "" ==> Column(columns, key) == FirstIndex(keys, key)
  {
    columns := map[];
    var index := 0;
    while index < |keys|
      invariant 0 <= index <= |keys|
      invariant FirstOccurrences(keys, columns, index)
    {
      var key := keys[index];
      if key != "" && key !in columns {
        columns := columns[key := index];
      }
      index := index + 1;
    }
  }

  /** `columnMap`: each of the header's keys at its first header cell. */
  method ColumnMap(header: Row) returns (columns: map<string, nat>)
    ensures FirstOccurrences(HeaderKeys(header), columns, |header|)
    ensures forall key :: key != "" ==> Column(columns, key) == FirstIndex(HeaderKeys(header), key)
  {
    columns := FirstOccurrenceMap(HeaderKeys(header));
  }

  /** `columnMap.x ?? null`. */
  function Column(columns: map<string, nat>, key: string): Option<nat> {
    if key in columns then Some(columns[key]) else None
  }

  // ---------------------------------------------------------------------------
  // Social icons
  // ---------------------------------------------------------------------------

  datatype Network = Facebook | Twitter | Instagram

  /** `iconMap[key]`: the one-letter and the full names of the three networks. */
  function IconFor(key: string): Option<Network> {
    if key == "f" || key == "facebook" then Some(Facebook)
    else if key == "t" || key == "twitter" then Some(Twitter)
    else if key == "i" || key == "instagram" then Some(Instagram)
    else None
  }

  /** An icon: a link when its token came from an anchor with an `href`, else a plain `span`. */
  datatype Icon = Icon(network: Network, href: Option<string>)

  /** One element that the tokens are read from: its text and, for an anchor, its `href`. */
  datatype Source = Source(text: string, href: Option<string>)

  /** The anchors when the container has any, otherwise its `p`, `span` and `strong` elements. */
  function Sources(cell: Cell): (r: seq<Source>)
    ensures cell.anchors != [] ==> |r| == |cell.anchors| && forall i :: 0 <= i < |r| ==> r[i].text == cell.anchors[i].text
    ensures cell.anchors == [] ==> |r| == |cell.inlines| && forall i :: 0 <= i < |r| ==> r[i] == Source(cell.inlines[i], None)
  {
    if cell.anchors != [] then
      seq(|cell.anchors|, i requires 0 <= i < |cell.anchors| =>
        Source(cell.anchors[i].text, if cell.anchors[i].href != "" then Some(cell.anchors[i].href) else None))
    else seq(|cell.inlines|, i requires 0 <= i < |cell.inlines| => Source(cell.inlines[i], None))
  }

  /** The icon of one token: the network its lower-cased text names, linked to `href`. */
  function TokenIcon(part: string, href: Option<string>): (r: Option<Icon>)
    ensures r.Some? <==> IconFor(Lower(part)).Some?
    ensures r.Some? ==> r.value == Icon(IconFor(Lower(part)).value, href)
  {
    var network := IconFor(Lower(part));
    if network.Some? then Some(Icon(network.value, href)) else None
  }

  function TokenIconOf(href: Option<string>): string -> Option<Icon> {
    part => TokenIcon(part, href)
  }

  /** The icons for the tokens of one text, in order. */
  function TokenIcons(parts: seq<string>, href: Option<string>): seq<Icon> {
    FilterMap(parts, TokenIconOf(href))
  }

  /** The icons of one source: those of the tokens of its trimmed text. */
  function SourceTokenIcons(source: Source): seq<Icon> {
    TokenIcons(Tokens(Trim(source.text)), source.href)
  }

  /** The icons for all sources, in order. */
  function SourceIcons(sources: seq<Source>): seq<Icon> {
    FlatMap(sources, SourceTokenIcons)
  }

  /** A blank source gives no icons. */
  lemma BlankSource(source: Source)
    requires Trim(source.text) == ""
    ensures SourceTokenIcons(source) == []
  {
    assert Tokens(Trim(source.text)) == [];
  }

  /** The inner loop of `enhanceSocialIcons`: one icon per part that names a network. */
  method AddTokenIcons(tokens: seq<Icon>, parts: seq<string>, href: Option<string>) returns (r: seq<Icon>)
    ensures r == tokens + TokenIcons(parts, href)
  {
    r := tokens;
    var j := 0;
    while j < |parts|
      invariant 0 <= j <= |parts|
      invariant r == tokens + TokenIcons(parts[..j], href)
    {
      FilterMapSnoc(parts, j, TokenIconOf(href));
      assert TokenIconOf(href)(parts[j]) == TokenIcon(parts[j], href);
      var network := IconFor(Lower(parts[j]));
      if network.Some? {
        r := r + [Icon(network.value, href)];
      }
      j := j + 1;
    }
    assert parts[..|parts|] == parts;
  }

  /** The outer loop of `enhanceSocialIcons`, over the sources; blank texts are skipped. */
  method CollectIcons(sources: seq<Source>) returns (tokens: seq<Icon>)
    ensures tokens == SourceIcons(sources)
  {
    tokens := [];
    var i := 0;
    while i < |sources|
      invariant 0 <= i <= |sources|
      invariant tokens == SourceIcons(sources[..i])
    {
      FlatMapSnoc(sources, i, SourceTokenIcons);
      ghost var next := SourceIcons(sources[..i + 1]);
      assert next == tokens + SourceTokenIcons(sources[i]);
      var text := Trim(sources[i].text);
      if text != "" {
        tokens := AddTokenIcons(tokens, Tokens(text), sources[i].href);
      } else {
        BlankSource(sources[i]);
      }
      assert tokens == next;
      i := i + 1;
    }
    assert sources[..|sources|] == sources;
  }

  /**
   * `enhanceSocialIcons`: no matching token leaves the container as it is
   * (`None`); otherwise its content is replaced by one icon per matching
   * token.
   */
  method SocialIcons(container: Cell) returns (icons: Option<seq<Icon>>)
    ensures icons.None? <==> SourceIcons(Sources(container)) == []
    ensures icons.Some? ==> icons.value == SourceIcons(Sources(container))
  {
    var tokens := CollectIcons(Sources(container));
    if tokens == [] {
      return None;
    }
    icons := Some(tokens);
  }

  /** Every icon stands for a token that names a network: the three recognised spellings per network. */
  lemma TokenIconsSpec(parts: seq<string>, href: Option<string>)
    ensures forall ic :: ic in TokenIcons(parts, href) ==> ic.href == href
    ensures |TokenIcons(parts, href)| == |parts| <==> forall i :: 0 <= i < |parts| ==> IconFor(Lower(parts[i])).Some?
  {
    FilterMapSpec(parts, TokenIconOf(href));
    FilterMapAll(parts, TokenIconOf(href));
  }

  /** Example: "F T I" gives the three icons, in order. */
  lemma ThreeLetters()
    ensures TokenIcons(["F", "T", "I"], None) == [Icon(Facebook, None), Icon(Twitter, None), Icon(Instagram, None)]
  {
    var f := TokenIconOf(None);
    assert f("F") == Some(Icon(Facebook, None)) by { assert Lower("F") == "f"; }
    assert f("T") == Some(Icon(Twitter, None)) by { assert Lower("T") == "t"; }
    assert f("I") == Some(Icon(Instagram, None)) by { assert Lower("I") == "i"; }
    assert ["F", "T", "I"][..2] == ["F", "T"];
    assert ["F", "T"][..1] == ["F"];
    assert FilterMap(["F"], f) == [Icon(Facebook, None)];
    assert FilterMap(["F", "T"], f) == [Icon(Facebook, None), Icon(Twitter, None)];
  }

  // ---------------------------------------------------------------------------
  // Cards
  // ---------------------------------------------------------------------------

  /** What the social column shows: the moved content, or the icons that replaced it. */
  datatype Social = Content(cell: Cell) | Icons(icons: seq<Icon>)

  /**
   * A card: the image column's content when it holds an element, the name
   * and role texts when not blank, and the social column when something
   * remains in it.
   */
  datatype GridCard = GridCard(image: Option<Cell>, name: Option<string>, role: Option<string>, social: Option<Social>)

  datatype Columns = Columns(image: Option<nat>, name: Option<nat>, role: Option<nat>, social: Option<nat>)

  /** `cells[col]` for a column that exists in the header. */
  function At(cells: Row, col: Option<nat>): (r: Option<Cell>)
    ensures r.Some? <==> col.Some? && col.value < |cells|
  {
    if col.Some? && col.value < |cells| then Some(cells[col.value]) else None
  }

  function TextPart(c: Option<Cell>): Option<string> {
    if c.Some? && Trim(c.value.text) != "" then Some(c.value.text) else None
  }

  /** The social column after `enhanceSocialIcons`, kept when it has an element or non-blank text. */
  function SocialPart(c: Option<Cell>): Option<Social> {
    if c.None? then None
    else
      var icons := SourceIcons(Sources(c.value));
      if icons != [] then Some(Icons(icons))
      else if c.value.elementCount > 0 || Trim(c.value.text) != "" then Some(Content(c.value))
      else None
  }

  /** The card for one data row; `None` for a row without cells or a card with nothing to show. */
  function CardOf(cells: Row, cols: Columns): (r: Option<GridCard>)
    ensures r.Some? ==> cells != []
    ensures r.Some? ==> r.value.image.Some? || r.value.name.Some? || r.value.role.Some? || r.value.social.Some?
    ensures var img, nm, rl := At(cells, cols.image), At(cells, cols.name), At(cells, cols.role);
      r.Some? <==> (cells != [] &&
        ((img.Some? && img.value.elementCount > 0) || (nm.Some? && Trim(nm.value.text) != "") ||
         (rl.Some? && Trim(rl.value.text) != "") || SocialPart(At(cells, cols.social)).Some?))
    ensures var img := At(cells, cols.image);
      r.Some? ==> (r.value.image.Some? <==> img.Some? && img.value.elementCount > 0)
    ensures var nm := At(cells, cols.name);
      r.Some? ==> (r.value.name.Some? <==> nm.Some? && Trim(nm.value.text) != "")
    ensures var rl := At(cells, cols.role);
      r.Some? ==> (r.value.role.Some? <==> rl.Some? && Trim(rl.value.text) != "")
    ensures r.Some? ==> r.value.social == SocialPart(At(cells, cols.social))
    ensures cells != [] && cols.image.Some? && cols.image.value < |cells| && cells[cols.image.value].elementCount > 0 ==>
      r.Some? && r.value.image == Some(cells[cols.image.value])
    ensures cells != [] && cols.name.Some? && cols.name.value < |cells| && Trim(cells[cols.name.value].text) != "" ==>
      r.Some? && r.value.name == Some(cells[cols.name.value].text)
    ensures cells != [] && cols.role.Some? && cols.role.value < |cells| && Trim(cells[cols.role.value].text) != "" ==>
      r.Some? && r.value.role == Some(cells[cols.role.value].text)
    ensures var s := cols.social;
      cells != [] && s.Some? && s.value < |cells| && (cells[s.value].elementCount > 0 || Trim(cells[s.value].text) != "") ==>
      r.Some? && r.value.social.Some?
  {
    if cells == [] then None
    else
      var image := At(cells, cols.image);
      var card := GridCard(
        if image.Some? && image.value.elementCount > 0 then image else None,
        TextPart(At(cells, cols.name)),
        TextPart(At(cells, cols.role)),
        SocialPart(At(cells, cols.social)));
      if card.image.None? && card.name.None? && card.role.None? && card.social.None? then None
      else Some(card)
  }

  /** The cards of the data rows, in order. */
  function CardsOf(rows: seq<Row>, cols: Columns): seq<GridCard> {
    FilterMap(rows, cells => CardOf(cells, cols))
  }

  /** Every card comes from a row with cells and shows something; every such row gives its card. */
  lemma CardsOfSpec(rows: seq<Row>, cols: Columns)
    ensures forall c :: c in CardsOf(rows, cols) ==>
      exists i :: 0 <= i < |rows| && rows[i] != [] && CardOf(rows[i], cols) == Some(c)
    ensures forall i :: 0 <= i < |rows| && CardOf(rows[i], cols).Some? ==> CardOf(rows[i], cols).value in CardsOf(rows, cols)
  {
    FilterMapSpec(rows, cells => CardOf(cells, cols));
  }

  /** The loop over the data rows: each row's card, in order, rows without one skipped. */
  method BuildCards(dataRows: seq<Row>, cols: Columns) returns (cards: seq<GridCard>)
    ensures cards == CardsOf(dataRows, cols)
  {
    cards := [];
    var i := 0;
    while i < |dataRows|
      invariant 0 <= i <= |dataRows|
      invariant cards == CardsOf(dataRows[..i], cols)
    {
      FilterMapSnoc(dataRows, i, cells => CardOf(cells, cols));
      var cells := dataRows[i];
      if cells != [] {
        var card := CardOf(cells, cols);
        if card.Some? {
          cards := cards + [card.value];
        }
      }
      i := i + 1;
    }
    assert dataRows[..|dataRows|] == dataRows;
  }

  /**
   * `decorate`: nothing happens without rows or with an empty header row;
   * otherwise the block is replaced by the grid of the data rows' cards,
   * read through the header's columns.
   */
  method Decorate(block: Option<Block>) returns (grid: Option<seq<GridCard>>)
    ensures grid.None? <==> BlockRows(block) == [] || BlockRows(block)[0] == []
    ensures grid.Some? ==> grid.value == CardsOf(BlockRows(block)[1..], ColumnsOf(BlockRows(block)[0]))
  {
    var rows := BlockRows(block);
    if rows == [] || rows[0] == [] {
      return None;
    }
    var columns := ColumnMap(rows[0]);
    var cols := Columns(Column(columns, "image"), Column(columns, "name"), Column(columns, "role"), Column(columns, "social"));
    assert cols == ColumnsOf(rows[0]);
    var cards := BuildCards(rows[1..], cols);
    grid := Some(cards);
  }

  /** The index of the first key equal to `key`, if any. */
  function FirstIndex(keys: seq<string>, key: string): (r: Option<nat>)
    ensures r.Some? ==> r.value < |keys| && keys[r.value] == key
    ensures r.Some? ==> forall j :: 0 <= j < r.value ==> keys[j] != key
    ensures r.None? ==> forall j :: 0 <= j < |keys| ==> keys[j] != key
    decreases |keys|
  {
    if keys == [] then None
    else if keys[0] == key then Some(0)
    else
      var rest := FirstIndex(keys[1..], key);
      if rest.Some? then Some(rest.value + 1) else None
  }

  /** The four columns a card reads, each at the first header cell with that key. */
  function ColumnsOf(header: Row): Columns {
    var keys := HeaderKeys(header);
    Columns(FirstIndex(keys, "image"), FirstIndex(keys, "name"), FirstIndex(keys, "role"), FirstIndex(keys, "social"))
  }
}
