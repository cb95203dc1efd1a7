/**
 * The sidebar-list block (blocks/sidebar-list/sidebar-list.js): the header
 * row decides between a "related articles" list (title, date and path
 * columns) and a "facts" list (label and value columns); the data rows then
 * become list entries, rows without content being dropped.
 */
module SidebarList {
  import opened Common
  import opened JsString
  import opened BlockUtils
  import opened Sequences

  // ---------------------------------------------------------------------------
  // Header map and mode detection
  // ---------------------------------------------------------------------------

  /** The normalized key (`normalize`, the same slug as elsewhere) of every header cell. */
  function HeaderKeys(header: Row): (keys: seq<string>)
    ensures |keys| == |header|
    ensures forall j :: 0 <= j < |header| ==> keys[j] == Slug(header[j].text)
  {
    seq(|header|, j requires 0 <= j < |header| => Slug(header[j].text))
  }

  /** `keys[i]` is the last occurrence of a non-empty key, among the first `upTo` keys. */
  predicate LastOccurrences(keys: seq<string>, columns: map<string, nat>, upTo: nat)
    requires upTo <= |keys|
  {
    && (forall k :: k in columns ==>
          && k != "" && columns[k] < upTo && keys[columns[k]] == k
          && forall j :: columns[k] < j < upTo ==> keys[j] != k)
    && (forall j :: 0 <= j < upTo && keys[j] != "" ==> keys[j] in columns)
  }

  /** The index of the last key equal to `key`, if any. */
  function LastIndex(keys: seq<string>, key: string): (r: Option<nat>)
    ensures r.Some? ==> r.value < |keys| && keys[r.value] == key
    ensures r.Some? ==> forall j :: r.value < j < |keys| ==> keys[j] != key
    ensures r.None? ==> forall j :: 0 <= j < |keys| ==> keys[j] != key
    decreases |keys|
  {
    if keys == [] then None
    else if keys[|keys| - 1] == key then Some(|keys| - 1)
    else LastIndex(keys[..|keys| - 1], key)
  }

  /** Every non-empty key, mapped to the index of its last occurrence. */
  function LastMap(keys: seq<string>): (m: map<string, nat>)
    ensures forall k :: k in m <==> k != "" && k in keys
  {
    map k | k in keys && k != "" :: LastIndex(keys, k).value
  }

  /**
   * The header loop of `detectMode`, over the header cells' keys: every
   * non-empty key maps to the index of its LAST occurrence; empty keys are
   * skipped.
   */
  method LastOccurrenceMap(keys: seq<string>) returns (columns: map<string, nat>)
    ensures LastOccurrences(keys, columns, |keys|)
    ensures columns == LastMap(keys)
  {
    columns := map[];
    var index := 0;
    while index < |keys|
      invariant 0 <= index <= |keys|
      invariant LastOccurrences(keys, columns, index)
    {
      var key := keys[index];
      if key != "" {
        columns := columns[key := index];
      }
      index := index + 1;
    }
    LastOccurrencesMap(keys, columns);
  }

  /** The header map of `detectMode`: each key at its last header cell. */
  method HeaderMap(header: Row) returns (columns: map<string, nat>)
    ensures columns == LastMap(HeaderKeys(header))
  {
    columns := LastOccurrenceMap(HeaderKeys(header));
  }

  /** A map with the last-occurrence property is the last-occurrence map. */
  lemma LastOccurrencesMap(keys: seq<string>, columns: map<string, nat>)
    requires LastOccurrences(keys, columns, |keys|)
    ensures columns == LastMap(keys)
  {
    var last := LastMap(keys);
    forall k | k in columns
      ensures k in last && columns[k] == last[k]
    {
      assert keys[columns[k]] == k;
    }
    forall k | k in last
      ensures k in columns
    {
      var j := LastIndex(keys, k).value;
      assert keys[j] == k;
    }
  }

  /** The columns a related entry reads. */
  datatype RelatedColumns = RelatedColumns(title: nat, date: nat, path: nat)

  /** The columns a fact reads. */
  datatype FactColumns = FactColumns(caption: nat, value: nat)

  /** The variant the header selects, with its columns. */
  datatype Mode =
    | RelatedMode(related: RelatedColumns)
    | FactsMode(facts: FactColumns)

  /** `a ?? b ?? fallback` over the header map. */
  function Either(columns: map<string, nat>, a: string, b: string, fallback: nat): (r: nat)
    ensures a in columns ==> r == columns[a]
    ensures a !in columns && b in columns ==> r == columns[b]
    ensures a !in columns && b !in columns ==> r == fallback
  {
    if a in columns then columns[a] else if b in columns then columns[b] else fallback
  }

  /** `detectMode` after the header loop. */
  function DetectMode(columns: map<string, nat>): Mode {
    if "title" in columns || "name" in columns then
      RelatedMode(RelatedColumns(
        Either(columns, "title", "name", 0),
        if "date" in columns then columns["date"] else Either(columns, "published", "published-date", 1),
        Either(columns, "path", "link", 2)))
    else if ("label" in columns || "name" in columns) && ("value" in columns || "detail" in columns) then
      FactsMode(FactColumns(Either(columns, "label", "name", 0), Either(columns, "value", "detail", 1)))
    else FactsMode(FactColumns(0, 1))
  }

  /**
   * The related list is chosen exactly when a `title` or `name` column
   * exists, reading its date from `date`, `published` or `published-date`
   * (else column 1) and its path from `path` or `link` (else column 2); otherwise the facts list reads `label` (its `name` fallback can
   * no longer apply) and `value` or `detail`, and any other header falls
   * back to the first two columns.
   */
  lemma DetectModeSpec(columns: map<string, nat>)
    ensures DetectMode(columns).RelatedMode? <==> "title" in columns || "name" in columns
    ensures "title" in columns ==> DetectMode(columns).related.title == columns["title"]
    ensures "title" !in columns && "name" in columns ==> DetectMode(columns).related.title == columns["name"]
    ensures DetectMode(columns).RelatedMode? && "date" in columns ==> DetectMode(columns).related.date == columns["date"]
    ensures DetectMode(columns).RelatedMode? && "date" !in columns && "published" in columns ==>
      DetectMode(columns).related.date == columns["published"]
    ensures DetectMode(columns).RelatedMode? && "date" !in columns && "published" !in columns && "published-date" in columns ==>
      DetectMode(columns).related.date == columns["published-date"]
    ensures DetectMode(columns).RelatedMode? && "date" !in columns && "published" !in columns && "published-date" !in columns ==>
      DetectMode(columns).related.date == 1
    ensures DetectMode(columns).RelatedMode? && "path" in columns ==> DetectMode(columns).related.path == columns["path"]
    ensures DetectMode(columns).RelatedMode? && "path" !in columns && "link" in columns ==>
      DetectMode(columns).related.path == columns["link"]
    ensures DetectMode(columns).RelatedMode? && "path" !in columns && "link" !in columns ==> DetectMode(columns).related.path == 2
    ensures DetectMode(columns).FactsMode? ==>
      DetectMode(columns).facts ==
        if "label" in columns && ("value" in columns || "detail" in columns)
        then FactColumns(columns["label"], Either(columns, "value", "detail", 1))
        else FactColumns(0, 1)
  {
  }

  // ---------------------------------------------------------------------------
  // Entries
  // ---------------------------------------------------------------------------

  /** The title link of a related entry: its text is the title and it points at the path, or `#`. */
  function TitleLink(title: string, path: string): (r: ElView)
    ensures r.tag == "a" && r.text == title
    ensures r.href.Some? && r.href.value != ""
    ensures path != "" ==> r.href == Some(path)
    ensures path == "" ==> r.href == Some("#")
  {
    ElView("a", "sidebar-list__title-link", title, Some(if path != "" then path else "#"))
  }

  /**
   * The title link as built by the code: `el` receives the options object
   * `{ href, text }` as its text argument.
   */
  function TitleLinkAsWritten(title: string, path: string): ElView {
    El("a", "sidebar-list__title-link", Options(if path != "" then path else "#", title))
  }

  /**
   * Whatever the row holds, the link as written reads "[object Object]" and
   * has no `href`, so neither the title nor the path reaches the page; the
   * corrected link shows both.
   */
  lemma TitleLinkAsWrittenLosesTitle(title: string, path: string)
    requires title != ""
    ensures TitleLinkAsWritten(title, path).text == "[object Object]"
    ensures TitleLinkAsWritten(title, path).href.None?
    ensures TitleLink(title, path).href.Some?
    ensures TitleLinkAsWritten("Trail guide", path) != TitleLink("Trail guide", path)
  {
  }

  datatype RelatedEntry = RelatedEntry(link: ElView, date: Option<string>)

  datatype Fact = Fact(caption: string, value: string)

  /** The related entry of one data row; rows with an empty title give none. */
  function RelatedOf(row: Row, cols: RelatedColumns): (r: Option<RelatedEntry>)
    ensures r.Some? <==> GetCellText(Some(row), cols.title) != ""
    ensures r.Some? ==> r.value.link == TitleLink(GetCellText(Some(row), cols.title), GetCellText(Some(row), cols.path))
    ensures r.Some? ==> (r.value.date.Some? <==> GetCellText(Some(row), cols.date) != "")
    ensures r.Some? && r.value.date.Some? ==> r.value.date.value == GetCellText(Some(row), cols.date)
  {
    var title := GetCellText(Some(row), cols.title);
    var date := GetCellText(Some(row), cols.date);
    var path := GetCellText(Some(row), cols.path);
    if title == "" then None
    else Some(RelatedEntry(TitleLink(title, path), if date != "" then Some(date) else None))
  }

  /** The fact of one data row; dropped only when both its label and its value are empty. */
  function FactOf(row: Row, cols: FactColumns): (r: Option<Fact>)
    ensures r.Some? <==> GetCellText(Some(row), cols.caption) != "" || GetCellText(Some(row), cols.value) != ""
    ensures r.Some? ==> r.value == Fact(GetCellText(Some(row), cols.caption), GetCellText(Some(row), cols.value))
  {
    var caption := GetCellText(Some(row), cols.caption);
    var value := GetCellText(Some(row), cols.value);
    if caption == "" && value == "" then None else Some(Fact(caption, value))
  }

  function RelatedEntries(rows: seq<Row>, cols: RelatedColumns): seq<RelatedEntry> {
    FilterMap(rows, row => RelatedOf(row, cols))
  }

  function FactEntries(rows: seq<Row>, cols: FactColumns): seq<Fact> {
    FilterMap(rows, row => FactOf(row, cols))
  }

  /** The related list holds an entry for every row with a title, and only those. */
  lemma RelatedEntriesSpec(rows: seq<Row>, cols: RelatedColumns)
    ensures forall e :: e in RelatedEntries(rows, cols) ==> exists i :: 0 <= i < |rows| && RelatedOf(rows[i], cols) == Some(e)
    ensures forall i :: 0 <= i < |rows| && GetCellText(Some(rows[i]), cols.title) != "" ==>
      RelatedOf(rows[i], cols).value in RelatedEntries(rows, cols)
  {
    FilterMapSpec(rows, row => RelatedOf(row, cols));
  }

  /** The facts list holds a fact for every row with a label or a value, and only those. */
  lemma FactsSpec(rows: seq<Row>, cols: FactColumns)
    ensures forall f :: f in FactEntries(rows, cols) ==> exists i :: 0 <= i < |rows| && FactOf(rows[i], cols) == Some(f)
    ensures forall i :: 0 <= i < |rows| && FactOf(rows[i], cols).Some? ==> FactOf(rows[i], cols).value in FactEntries(rows, cols)
  {
    FilterMapSpec(rows, row => FactOf(row, cols));
  }

  // ---------------------------------------------------------------------------
  // decorate
  // ---------------------------------------------------------------------------

  /** What replaces the table: the block's variant class and its list. */
  datatype Sidebar =
    | RelatedList(entries: seq<RelatedEntry>)
    | FactList(facts: seq<Fact>)

  /** The `forEach` over the data rows in related mode. */
  method BuildRelated(dataRows: seq<Row>, cols: RelatedColumns) returns (entries: seq<RelatedEntry>)
    ensures entries == RelatedEntries(dataRows, cols)
  {
    entries := [];
    var i := 0;
    while i < |dataRows|
      invariant 0 <= i <= |dataRows|
      invariant entries == RelatedEntries(dataRows[..i], cols)
    {
      FilterMapSnoc(dataRows, i, row => RelatedOf(row, cols));
      var e := RelatedOf(dataRows[i], cols);
      if e.Some? {
        entries := entries + [e.value];
      }
      i := i + 1;
    }
    assert dataRows[..|dataRows|] == dataRows;
  }

  /** The `forEach` over the data rows in facts mode. */
  method BuildFacts(dataRows: seq<Row>, cols: FactColumns) returns (facts: seq<Fact>)
    ensures facts == FactEntries(dataRows, cols)
  {
    facts := [];
    var i := 0;
    while i < |dataRows|
      invariant 0 <= i <= |dataRows|
      invariant facts == FactEntries(dataRows[..i], cols)
    {
      FilterMapSnoc(dataRows, i, row => FactOf(row, cols));
      var f := FactOf(dataRows[i], cols);
      if f.Some? {
        facts := facts + [f.value];
      }
      i := i + 1;
    }
    assert dataRows[..|dataRows|] == dataRows;
  }

  /** The mode of a header row: its last-occurrence map read by `detectMode`. */
  function ModeOf(header: Row): Mode {
    var keys := HeaderKeys(header);
    DetectMode(LastMap(keys))
  }

  /**
   * `decorate`: a block with no data row below its header is left as it is;
   * otherwise the table is replaced by the list of the mode the header
   * selects.
   */
  method Decorate(block: Option<Block>) returns (sidebar: Option<Sidebar>)
    ensures sidebar.None? <==> |BlockRows(block)| <= 1
    ensures sidebar.Some? ==>
      var rows := BlockRows(block);
      var mode := ModeOf(rows[0]);
      && (sidebar.value.RelatedList? <==> mode.RelatedMode?)
      && (mode.RelatedMode? ==> sidebar.value.entries == RelatedEntries(rows[1..], mode.related))
      && (mode.FactsMode? ==> sidebar.value.facts == FactEntries(rows[1..], mode.facts))
  {
    var rows := BlockRows(block);
    if |rows| <= 1 {
      return None;
    }
    var columns := HeaderMap(rows[0]);
    var mode := DetectMode(columns);
    if mode.RelatedMode? {
      var entries := BuildRelated(rows[1..], mode.related);
      sidebar := Some(RelatedList(entries));
    } else {
      var facts := BuildFacts(rows[1..], mode.facts);
      sidebar := Some(FactList(facts));
    }
  }
}
