/**
 * The navigation configuration of the header block (blocks/header/header.js):
 * menu entries and a logo read from the nav fragment, either from a `nav`
 * block or from a table whose first cell is `nav`; the default menu when
 * nothing is authored; and the split of the menu into the home entry (the
 * brand link) and the remaining entries.
 */
module HeaderNav {
  import opened Common
  import opened JsString
  import opened Sequences
  import opened BlockUtils

  datatype NavEntry = NavEntry(text: string, href: string, style: string)

  datatype Logo = ImageLogo(src: string, alt: string) | TextLogo(value: string)

  datatype NavConfig = NavConfig(config: seq<NavEntry>, logo: Option<Logo>)

  const NoNav := NavConfig([], None)

  /** A table of the fragment: its rows of cells. */
  type Table = seq<Row>

  /** What the header reads of the loaded fragment: the `.nav` block, if any, and every table. */
  datatype Fragment = Fragment(navBlock: Option<Block>, tables: seq<Table>)

  /**
   * `buildLogoFromBlockRow` / `buildLogoFromTableRow`: the second cell's
   * image when it has a source, else its trimmed text when not empty.
   */
  function LogoOfRow(row: Row): (r: Option<Logo>)
    ensures |row| < 2 ==> r.None?
    ensures r.Some? && r.value.TextLogo? ==> r.value.value != "" && r.value.value == Trim(row[1].text)
    ensures r.Some? && r.value.ImageLogo? ==> r.value.src != ""
  {
    if |row| < 2 then None
    else if row[1].image.Some? && row[1].image.value.src != "" then
      Some(ImageLogo(row[1].image.value.src, row[1].image.value.alt))
    else if Trim(row[1].text) != "" then Some(TextLogo(Trim(row[1].text)))
    else None
  }

  predicate IsLogoKey(key: string) {
    key == "brand-logo" || key == "image-logo" || key == "text-logo"
  }

  /** A logo row replaces the logo when it yields one, and otherwise changes nothing. */
  function LogoStep(nav: NavConfig, key: string, row: Row): (r: NavConfig)
    requires IsLogoKey(key)
    ensures r.config == nav.config
  {
    if key == "text-logo" then
      var value := GetCellText(Some(row), 1);
      if value != "" then nav.(logo := Some(TextLogo(value))) else nav
    else
      var detected := LogoOfRow(row);
      if detected.Some? then nav.(logo := detected) else nav
  }

  /** One row of a `nav` block, as the `forEach` of `parseNavFromBlock` handles it. */
  function BlockRowStep(nav: NavConfig, row: Row): NavConfig {
    var key := Lower(GetCellText(Some(row), 0));
    if key == "" then nav
    else if IsLogoKey(key) then LogoStep(nav, key, row)
    else if key == "nav" && Lower(GetCellText(Some(row), 1)) == "label" then nav
    else
      var text := GetCellText(Some(row), 0);
      var href := GetCellText(Some(row), 1);
      var style := if GetCellText(Some(row), 2) != "" then GetCellText(Some(row), 2) else "primary";
      if text != "" && href != "" then nav.(config := nav.config + [NavEntry(text, href, style)]) else nav
  }

  /** The trimmed texts of a table row's cells. */
  function CellTexts(row: Row): (r: seq<string>)
    ensures |r| == |row| && forall i :: 0 <= i < |row| ==> r[i] == Trim(row[i].text)
  {
    seq(|row|, i requires 0 <= i < |row| => Trim(row[i].text))
  }

  /** One row of a nav table, as the `forEach` of `parseNavFromTable` handles it. */
  function TableRowStep(nav: NavConfig, row: Row): NavConfig {
    var cells := CellTexts(row);
    var first := Lower(if |cells| > 0 then cells[0] else "");
    var second := Lower(if |cells| > 1 then cells[1] else "");
    if IsLogoKey(first) then LogoStep(nav, first, row)
    else if first == "nav" && second == "label" then nav
    else if |cells| >= 2 then
      var text := cells[0];
      var href := cells[1];
      var style := if |cells| > 2 && cells[2] != "" then cells[2] else "primary";
      if text != "" && href != "" then nav.(config := nav.config + [NavEntry(text, href, style)]) else nav
    else nav
  }

  /** The two parsers treat every row alike. */
  lemma StepsAgree(nav: NavConfig, row: Row)
    ensures BlockRowStep(nav, row) == TableRowStep(nav, row)
  {
    var cells := CellTexts(row);
    if |row| > 0 && Lower(cells[0]) == "" {
      assert |cells[0]| == 0;
    }
  }

  function BlockNav(rows: seq<Row>): NavConfig
    decreases |rows|
  {
    if rows == [] then NoNav else BlockRowStep(BlockNav(rows[..|rows| - 1]), rows[|rows| - 1])
  }

  function TableNav(rows: seq<Row>): NavConfig
    decreases |rows|
  {
    if rows == [] then NoNav else TableRowStep(TableNav(rows[..|rows| - 1]), rows[|rows| - 1])
  }

  /** Both forms of the nav give the same entries and logo for the same rows. */
  lemma {:induction false} ParsersAgree(rows: seq<Row>)
    ensures BlockNav(rows) == TableNav(rows)
    decreases |rows|
  {
    if rows != [] {
      ParsersAgree(rows[..|rows| - 1]);
      StepsAgree(BlockNav(rows[..|rows| - 1]), rows[|rows| - 1]);
    }
  }

  /**
   * The entry one row of a nav contributes, read on its own: none for a logo
   * row, the `nav | label` header row, or a row without text or href;
   * otherwise its first three cells, the style defaulting to `primary`.
   */
  function EntryOfRow(row: Row): Option<NavEntry> {
    var key := Lower(GetCellText(Some(row), 0));
    if IsLogoKey(key) || (key == "nav" && Lower(GetCellText(Some(row), 1)) == "label") then None
    else if GetCellText(Some(row), 0) == "" || GetCellText(Some(row), 1) == "" then None
    else
      var style := GetCellText(Some(row), 2);
      Some(NavEntry(GetCellText(Some(row), 0), GetCellText(Some(row), 1), if style != "" then style else "primary"))
  }

  /** A row adds its own entry, if any, after the earlier ones. */
  lemma EntryStep(nav: NavConfig, row: Row)
    ensures BlockRowStep(nav, row).config == nav.config + (if EntryOfRow(row).Some? then [EntryOfRow(row).value] else [])
  {
    if Lower(GetCellText(Some(row), 0)) == "" {
      assert |GetCellText(Some(row), 0)| == 0;
    }
  }

  /** The entries are those of the rows, in row order, each row giving at most one. */
  lemma {:induction false} BlockNavEntries(rows: seq<Row>)
    ensures BlockNav(rows).config == FilterMap(rows, EntryOfRow)
    ensures |BlockNav(rows).config| <= |rows|
    decreases |rows|
  {
    if rows != [] {
      BlockNavEntries(rows[..|rows| - 1]);
      EntryStep(BlockNav(rows[..|rows| - 1]), rows[|rows| - 1]);
    }
  }

  /** The entry's text, href and style are the row's first three cells, the style `primary` when the third is blank. */
  predicate ReadsRow(e: NavEntry, row: Row) {
    && e.text == GetCellText(Some(row), 0)
    && e.href == GetCellText(Some(row), 1)
    && e.style == (if GetCellText(Some(row), 2) != "" then GetCellText(Some(row), 2) else "primary")
  }

  /**
   * Every entry comes from a row: its first two cells are a non-empty text
   * and href, and its style is the third cell, `primary` when that is
   * missing or blank. Every row with a text and an href that is neither a
   * logo row nor the header row gives its entry.
   */
  lemma NavEntriesFromRows(rows: seq<Row>)
    ensures forall e :: e in BlockNav(rows).config ==> e.text != "" && e.href != "" && e.style != ""
    ensures forall e :: e in BlockNav(rows).config ==> exists i :: 0 <= i < |rows| && ReadsRow(e, rows[i])
    ensures forall i :: 0 <= i < |rows| && EntryOfRow(rows[i]).Some? ==> EntryOfRow(rows[i]).value in BlockNav(rows).config
  {
    BlockNavEntries(rows);
    FilterMapSpec(rows, EntryOfRow);
    forall e | e in BlockNav(rows).config
      ensures e.text != "" && e.href != "" && e.style != ""
      ensures exists i :: 0 <= i < |rows| && ReadsRow(e, rows[i])
    {
      var i :| 0 <= i < |rows| && EntryOfRow(rows[i]) == Some(e);
    }
  }

  /** The logo one row would set on its own: a text logo from `text-logo`, else the detected logo. */
  function RowLogo(row: Row): Option<Logo> {
    var key := Lower(GetCellText(Some(row), 0));
    if !IsLogoKey(key) then None
    else if key == "text-logo" then
      (if GetCellText(Some(row), 1) != "" then Some(TextLogo(GetCellText(Some(row), 1))) else None)
    else LogoOfRow(row)
  }

  /** A row replaces the logo with its own when it has one, and otherwise keeps it. */
  lemma LogoStepEffect(nav: NavConfig, row: Row)
    ensures BlockRowStep(nav, row).logo == if RowLogo(row).Some? then RowLogo(row) else nav.logo
  {
  }

  /** The logo is the last one a row yields. */
  lemma {:induction false} BlockNavLogo(rows: seq<Row>)
    ensures BlockNav(rows).logo == LastSome(rows, RowLogo)
    decreases |rows|
  {
    if rows != [] {
      BlockNavLogo(rows[..|rows| - 1]);
      LogoStepEffect(BlockNav(rows[..|rows| - 1]), rows[|rows| - 1]);
    }
  }

  /**
   * When several rows set the logo, the last one that yields a logo wins: the
   * logo is absent exactly when no row yields one, and otherwise it is the
   * logo of a row after which no row yields one.
   */
  lemma LastLogoWins(rows: seq<Row>)
    ensures BlockNav(rows).logo.None? <==> forall k :: 0 <= k < |rows| ==> RowLogo(rows[k]).None?
    ensures BlockNav(rows).logo.Some? ==>
      exists j :: 0 <= j < |rows| && RowLogo(rows[j]) == BlockNav(rows).logo &&
        forall k :: j < k < |rows| ==> RowLogo(rows[k]).None?
  {
    BlockNavLogo(rows);
    LastSomeSpec(rows, RowLogo);
  }

  /** A logo row adds no entry; one that yields a logo makes it the logo, replacing any earlier one. */
  lemma LogoRowEffect(rows: seq<Row>, row: Row)
    requires IsLogoKey(Lower(GetCellText(Some(row), 0)))
    ensures BlockNav(rows + [row]).config == BlockNav(rows).config
    ensures Lower(GetCellText(Some(row), 0)) != "text-logo" && LogoOfRow(row).Some? ==>
      BlockNav(rows + [row]).logo == LogoOfRow(row)
    ensures Lower(GetCellText(Some(row), 0)) == "text-logo" && GetCellText(Some(row), 1) != "" ==>
      BlockNav(rows + [row]).logo == Some(TextLogo(GetCellText(Some(row), 1)))
  {
    assert (rows + [row])[..|rows + [row]| - 1] == rows;
  }

  /** The header row `nav | label` adds nothing. */
  lemma HeaderRowSkipped(rows: seq<Row>, row: Row)
    requires Lower(GetCellText(Some(row), 0)) == "nav" && Lower(GetCellText(Some(row), 1)) == "label"
    ensures BlockNav(rows + [row]) == BlockNav(rows)
  {
    assert (rows + [row])[..|rows + [row]| - 1] == rows;
  }

  /** `parseNavFromBlock`: a `forEach` that pushes entries and reassigns the logo. */
  method ParseNavFromBlock(navBlock: Option<Block>) returns (nav: NavConfig)
    ensures nav == BlockNav(BlockRows(navBlock))
  {
    var rows := BlockRows(navBlock);
    nav := NoNav;
    var i := 0;
    while i < |rows|
      invariant 0 <= i <= |rows|
      invariant nav == BlockNav(rows[..i])
    {
      assert rows[..i + 1][..i] == rows[..i];
      nav := BlockRowStep(nav, rows[i]);
      i := i + 1;
    }
    assert rows[..|rows|] == rows;
  }

  /** A table whose first row's first cell reads `nav`, in any case. */
  predicate IsNavTable(t: Table) {
    |t| > 0 && |t[0]| > 0 && Lower(Trim(t[0][0].text)) == "nav"
  }

  /** `tables.find(...)`: the index of the first nav table. */
  function FindNavTable(tables: seq<Table>): (r: Option<nat>)
    ensures r.Some? ==> r.value < |tables| && tables[r.value] != []
    decreases |tables|
  {
    if tables == [] then None
    else if IsNavTable(tables[0]) then Some(0)
    else
      var rest := FindNavTable(tables[1..]);
      if rest.Some? then Some(rest.value + 1) else None
  }

  /** There is none exactly when no table is a nav table; otherwise it is the first one. */
  lemma {:induction false} FindNavTableSpec(tables: seq<Table>)
    ensures FindNavTable(tables).None? <==> forall i :: 0 <= i < |tables| ==> !IsNavTable(tables[i])
    ensures FindNavTable(tables).Some? ==>
      && IsNavTable(tables[FindNavTable(tables).value])
      && forall i :: 0 <= i < FindNavTable(tables).value ==> !IsNavTable(tables[i])
    decreases |tables|
  {
    if tables != [] && !IsNavTable(tables[0]) {
      var tail := tables[1..];
      FindNavTableSpec(tail);
      forall i | 1 <= i < |tables|
        ensures tables[i] == tail[i - 1]
      {
      }
    }
  }

  /** The `forEach` over the nav table's rows after the first. */
  method ReadTableRows(rows: seq<Row>) returns (nav: NavConfig)
    ensures nav == TableNav(rows)
  {
    nav := NoNav;
    var i := 0;
    while i < |rows|
      invariant 0 <= i <= |rows|
      invariant nav == TableNav(rows[..i])
    {
      assert rows[..i + 1][..i] == rows[..i];
      nav := TableRowStep(nav, rows[i]);
      i := i + 1;
    }
    assert rows[..|rows|] == rows;
  }

  /** `parseNavFromTable`: the rows of the first nav table after its first row. */
  method ParseNavFromTable(tables: seq<Table>) returns (nav: NavConfig)
    ensures FindNavTable(tables).None? ==> nav == NoNav
    ensures FindNavTable(tables).Some? ==> nav == TableNav(tables[FindNavTable(tables).value][1..])
  {
    var found := FindNavTable(tables);
    if found.None? {
      return NoNav;
    }
    nav := ReadTableRows(tables[found.value][1..]);
  }

  /** A parse result counts when it has an entry or a logo. */
  predicate Found(nav: NavConfig) {
    nav.config != [] || nav.logo.Some?
  }

  /**
   * `getNavConfig`: nothing without a fragment; the block form when it
   * found something, else the table form.
   */
  method GetNavConfig(fragment: Option<Fragment>) returns (nav: NavConfig)
    ensures fragment.None? ==> nav == NoNav
    ensures fragment.Some? && Found(BlockNav(BlockRows(fragment.value.navBlock))) ==>
      nav == BlockNav(BlockRows(fragment.value.navBlock))
    ensures fragment.Some? && !Found(BlockNav(BlockRows(fragment.value.navBlock))) ==>
      nav == (if FindNavTable(fragment.value.tables).Some?
        then TableNav(fragment.value.tables[FindNavTable(fragment.value.tables).value][1..])
        else NoNav)
  {
    if fragment.None? {
      return NoNav;
    }
    var fromBlock := ParseNavFromBlock(fragment.value.navBlock);
    if Found(fromBlock) {
      return fromBlock;
    }
    nav := ParseNavFromTable(fragment.value.tables);
  }

  // ---------------------------------------------------------------------------
  // Default menu, home entry and the remaining entries
  // ---------------------------------------------------------------------------

  const DefaultConfig: seq<NavEntry> := [
    NavEntry("Home", "/us/en/home", "primary"),
    NavEntry("Magazine", "/us/en/magazine", "primary"),
    NavEntry("Adventures", "/us/en/adventures", "primary"),
    NavEntry("FAQs", "/us/en/faqs", "primary"),
    NavEntry("About Us", "/us/en/about-us", "primary")
  ]

  /** The parsed entries, or the default menu when there are none. */
  function EffectiveConfig(parsed: seq<NavEntry>): (r: seq<NavEntry>)
    ensures r != []
    ensures parsed != [] ==> r == parsed
  {
    if parsed != [] then parsed else DefaultConfig
  }

  predicate IsHome(e: NavEntry) {
    Lower(e.text) == "home"
  }

  /** `config.find(label is home) || config[0]`, as an index. */
  function HomeIndex(config: seq<NavEntry>): (h: nat)
    requires config != []
    ensures h < |config|
    ensures forall j :: 0 <= j < h ==> !IsHome(config[j])
    ensures IsHome(config[h]) || (h == 0 && forall j :: 0 <= j < |config| ==> !IsHome(config[j]))
    decreases |config|
  {
    if IsHome(config[0]) || |config| == 1 then 0
    else
      var rest := HomeIndex(config[1..]);
      if IsHome(config[1..][rest]) then rest + 1 else 0
  }

  /** `config.filter(i => i !== home)`: every entry but the home one, in order. */
  function Menu(config: seq<NavEntry>): seq<NavEntry>
    requires config != []
  {
    config[..HomeIndex(config)] + config[HomeIndex(config) + 1..]
  }

  /** The menu is the configuration with exactly the home entry taken out, order kept. */
  lemma MenuSpec(config: seq<NavEntry>)
    requires config != []
    ensures |Menu(config)| == |config| - 1
    ensures multiset(Menu(config)) + multiset{config[HomeIndex(config)]} == multiset(config)
    ensures IsSubsequence(Menu(config), config)
  {
    var h := HomeIndex(config);
    assert config == config[..h] + [config[h]] + config[h + 1..];
    SubsequenceDrop(config[..h], config[h], config[h + 1..]);
  }

  /** Without authored entries the brand links to the default home page and the menu holds the other four. */
  lemma DefaultMenu()
    ensures HomeIndex(DefaultConfig) == 0
    ensures DefaultConfig[HomeIndex(DefaultConfig)].href == "/us/en/home"
    ensures Menu(DefaultConfig) == DefaultConfig[1..]
  {
    assert IsHome(DefaultConfig[0]);
  }
}
