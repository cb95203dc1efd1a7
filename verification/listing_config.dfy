/**
 * `parseConfig` of the content-listing block: authored rows become a flat
 * map from slugged keys to trimmed values.
 *
 * The specification of the map is a sequence of writes, replayed in order:
 * first the header+value pair (row 0 gives the keys, row 1 the values) when
 * both rows have the same, non-zero number of cells; then every later row
 * with at least two cells (cell 0 the key, cell 1 the value). Writes with an
 * empty key are never made, and a later write to a key replaces an earlier one.
 */
module ListingConfig {
  import opened Common
  import opened JsString
  import opened BlockUtils

  type Config = map<string, string>

  type Write = (string, string)

  /** `cfg[k]`; a missing key reads as `""`, which every reader treats like `undefined`. */
  function Cfg(cfg: Config, k: string): string {
    if k in cfg then cfg[k] else ""
  }

  /** Rows 0 and 1 are read as a header+value pair. */
  predicate HasHeaderPair(rows: seq<Row>) {
    |rows| >= 2 && |rows[0]| == |rows[1]| && |rows[0]| > 0
  }

  /** The write of one header column: its slugged header as key, if non-empty. */
  function ColumnWrite(headerCell: Cell, valueCell: Cell): (w: seq<Write>)
    ensures |w| <= 1
  {
    var key := Slug(headerCell.text);
    if key == "" then [] else [(key, Trim(valueCell.text))]
  }

  /** The writes of the header cells, each paired with the value cell at its index. */
  function HeaderWrites(header: Row, values: Row): (w: seq<Write>)
    requires |header| <= |values|
  {
    if header == [] then []
    else HeaderWrites(header[..|header| - 1], values) + ColumnWrite(header[|header| - 1], values[|header| - 1])
  }

  /** The write of one key/value row, if any. */
  function RowWrite(row: Row): (w: seq<Write>)
    ensures |w| <= 1
  {
    if |row| < 2 then []
    else
      var key := Slug(row[0].text);
      if key == "" then [] else [(key, Trim(row[1].text))]
  }

  function RowWrites(rows: seq<Row>): (w: seq<Write>)
  {
    if rows == [] then [] else RowWrites(rows[..|rows| - 1]) + RowWrite(rows[|rows| - 1])
  }

  /** Every write has a non-empty slug as its key. */
  predicate SlugKeyed(w: seq<Write>) {
    w == [] || (SlugKeyed(w[..|w| - 1]) && w[|w| - 1].0 != "" && IsSlug(w[|w| - 1].0))
  }

  lemma {:induction false} SlugKeyedAt(w: seq<Write>, i: nat)
    requires SlugKeyed(w) && i < |w|
    ensures w[i].0 != "" && IsSlug(w[i].0)
  {
    if i < |w| - 1 {
      SlugKeyedAt(w[..|w| - 1], i);
    }
  }

  lemma {:induction false} SlugKeyedAppend(a: seq<Write>, b: seq<Write>)
    requires SlugKeyed(a) && SlugKeyed(b)
    ensures SlugKeyed(a + b)
    decreases |b|
  {
    if b == [] {
      assert a + b == a;
    } else {
      assert (a + b)[..|a + b| - 1] == a + b[..|b| - 1];
      SlugKeyedAppend(a, b[..|b| - 1]);
    }
  }

  /** A write list of at most one write, keyed by a non-empty slug. */
  lemma SingleSlugKeyed(w: seq<Write>)
    requires |w| <= 1 && (w != [] ==> w[0].0 != "" && IsSlug(w[0].0))
    ensures SlugKeyed(w)
  {
    if w != [] {
      assert w[..0] == [];
    }
  }

  lemma {:induction false} HeaderWritesSlugKeyed(header: Row, values: Row)
    requires |header| <= |values|
    ensures SlugKeyed(HeaderWrites(header, values))
  {
    if header != [] {
      var n := |header| - 1;
      HeaderWritesSlugKeyed(header[..n], values);
      SlugIsSlug(header[n].text);
      SingleSlugKeyed(ColumnWrite(header[n], values[n]));
      SlugKeyedAppend(HeaderWrites(header[..n], values), ColumnWrite(header[n], values[n]));
    }
  }

  lemma {:induction false} RowWritesSlugKeyed(rows: seq<Row>)
    ensures SlugKeyed(RowWrites(rows))
  {
    if rows != [] {
      var last := rows[|rows| - 1];
      RowWritesSlugKeyed(rows[..|rows| - 1]);
      if |last| >= 2 {
        SlugIsSlug(last[0].text);
      }
      SingleSlugKeyed(RowWrite(last));
      SlugKeyedAppend(RowWrites(rows[..|rows| - 1]), RowWrite(last));
    }
  }

  /** The writes of rows 0 and 1, when they form a header+value pair. */
  function HeaderPairWrites(rows: seq<Row>): seq<Write> {
    if HasHeaderPair(rows) then HeaderWrites(rows[0], rows[1]) else []
  }

  /** The writes of the key/value rows, from index 2 on. */
  function KeyValueWrites(rows: seq<Row>): seq<Write> {
    if |rows| > 2 then RowWrites(rows[2..]) else []
  }

  function ConfigWrites(rows: seq<Row>): seq<Write> {
    HeaderPairWrites(rows) + KeyValueWrites(rows)
  }

  /** Replays writes over a map, the last write to a key winning. */
  function Apply(m: Config, w: seq<Write>): Config {
    if w == [] then m else Apply(m, w[..|w| - 1])[w[|w| - 1].0 := w[|w| - 1].1]
  }

  /** The configuration the rows describe. */
  function ConfigOf(rows: seq<Row>): Config {
    Apply(map[], ConfigWrites(rows))
  }

  lemma {:induction false} ApplyAppend(m: Config, a: seq<Write>, b: seq<Write>)
    ensures Apply(m, a + b) == Apply(Apply(m, a), b)
    decreases |b|
  {
    if b == [] {
      assert a + b == a;
    } else {
      assert (a + b)[..|a + b| - 1] == a + b[..|b| - 1];
      ApplyAppend(m, a, b[..|b| - 1]);
    }
  }

  /** The keys of the replayed map are the map's keys plus the written keys. */
  lemma {:induction false} ApplyKeys(m: Config, w: seq<Write>, k: string)
    ensures k in Apply(m, w) <==> k in m || exists i :: 0 <= i < |w| && w[i].0 == k
  {
    if w != [] {
      var p := w[..|w| - 1];
      ApplyKeys(m, p, k);
      assert forall i :: 0 <= i < |p| ==> p[i] == w[i];
    }
  }

  /** Last write wins: a key ends with the value of its last write. */
  lemma {:induction false} ApplyLastWrite(m: Config, w: seq<Write>, i: nat)
    requires i < |w|
    requires forall j :: i < j < |w| ==> w[j].0 != w[i].0
    ensures w[i].0 in Apply(m, w) && Apply(m, w)[w[i].0] == w[i].1
  {
    if i < |w| - 1 {
      ApplyLastWrite(m, w[..|w| - 1], i);
    }
  }

  /** A key that is never written keeps its value. */
  lemma {:induction false} ApplyUntouched(m: Config, w: seq<Write>, k: string)
    requires forall j :: 0 <= j < |w| ==> w[j].0 != k
    ensures k in Apply(m, w) <==> k in m
    ensures k in m ==> Apply(m, w)[k] == m[k]
  {
    if w != [] {
      ApplyUntouched(m, w[..|w| - 1], k);
    }
  }

  /** Every key of a parsed configuration is a non-empty slug. */
  lemma ConfigKeysAreSlugs(rows: seq<Row>, k: string)
    requires k in ConfigOf(rows)
    ensures k != "" && IsSlug(k)
  {
    var h := HeaderPairWrites(rows);
    var t := KeyValueWrites(rows);
    if HasHeaderPair(rows) {
      HeaderWritesSlugKeyed(rows[0], rows[1]);
    }
    if |rows| > 2 {
      RowWritesSlugKeyed(rows[2..]);
    }
    var w := h + t;
    assert ConfigOf(rows) == Apply(map[], w);
    SlugKeyedAppend(h, t);
    ApplyKeys(map[], w, k);
    var i :| 0 <= i < |w| && w[i].0 == k;
    SlugKeyedAt(w, i);
  }

  lemma AllConfigKeysAreSlugs(rows: seq<Row>)
    ensures forall k :: k in ConfigOf(rows) ==> k != "" && IsSlug(k)
  {
    forall k | k in ConfigOf(rows) ensures k != "" && IsSlug(k) {
      ConfigKeysAreSlugs(rows, k);
    }
  }

  /**
   * A key/value row from index 2 on overwrites its key: appending a row with
   * at least two cells and a non-empty slugged key sets that key to the
   * row's trimmed value and leaves every other key as it was; any other row
   * changes nothing.
   */
  lemma LaterRowOverwrites(rows: seq<Row>, row: Row)
    requires |rows| >= 2
    ensures |row| >= 2 && Slug(row[0].text) != "" ==>
      ConfigOf(rows + [row]) == ConfigOf(rows)[Slug(row[0].text) := Trim(row[1].text)]
    ensures !(|row| >= 2 && Slug(row[0].text) != "") ==> ConfigOf(rows + [row]) == ConfigOf(rows)
  {
    ConfigWritesSnoc(rows, row);
    ApplyAppend(map[], ConfigWrites(rows), RowWrite(row));
    ApplyOne(ConfigOf(rows), RowWrite(row));
  }

  /** A later row appends its write, if any, after all earlier writes. */
  lemma ConfigWritesSnoc(rows: seq<Row>, row: Row)
    requires |rows| >= 2
    ensures ConfigWrites(rows + [row]) == ConfigWrites(rows) + RowWrite(row)
  {
    HeaderPairSnoc(rows, row);
    KeyValueSnoc(rows, row);
  }

  lemma HeaderPairSnoc(rows: seq<Row>, row: Row)
    requires |rows| >= 2
    ensures HeaderPairWrites(rows + [row]) == HeaderPairWrites(rows)
  {
    assert (rows + [row])[0] == rows[0] && (rows + [row])[1] == rows[1];
  }

  lemma KeyValueSnoc(rows: seq<Row>, row: Row)
    requires |rows| >= 2
    ensures KeyValueWrites(rows + [row]) == KeyValueWrites(rows) + RowWrite(row)
  {
    assert (rows + [row])[2..] == rows[2..] + [row];
    RowWritesSnoc(rows[2..], row);
  }

  lemma RowWritesSnoc(rows: seq<Row>, row: Row)
    ensures RowWrites(rows + [row]) == RowWrites(rows) + RowWrite(row)
  {
    assert (rows + [row])[..|rows|] == rows;
  }

  /** Replaying at most one write. */
  lemma ApplyOne(m: Config, w: seq<Write>)
    requires |w| <= 1
    ensures Apply(m, w) == if w == [] then m else m[w[0].0 := w[0].1]
  {
    if w != [] {
      assert w[..0] == [];
    }
  }

  /**
   * The header+value pair: a column whose slugged header is non-empty, and
   * not repeated by a later column, maps to the trimmed value at the same
   * index.
   */
  lemma {:induction false} HeaderColumnValue(header: Row, values: Row, i: nat)
    requires |header| <= |values| && i < |header|
    requires Slug(header[i].text) != ""
    requires forall j :: i < j < |header| ==> Slug(header[j].text) != Slug(header[i].text)
    ensures Slug(header[i].text) in Apply(map[], HeaderWrites(header, values))
    ensures Apply(map[], HeaderWrites(header, values))[Slug(header[i].text)] == Trim(values[i].text)
  {
    var n := |header| - 1;
    var prev := HeaderWrites(header[..n], values);
    ApplyAppend(map[], prev, ColumnWrite(header[n], values[n]));
    if i < n {
      HeaderColumnValue(header[..n], values, i);
    }
  }

  /** The header+value pair is read only when both rows have the same, non-zero cell count. */
  lemma HeaderPairShape(rows: seq<Row>)
    requires |rows| == 2
    ensures !HasHeaderPair(rows) ==> ConfigOf(rows) == map[]
    ensures HasHeaderPair(rows) ==> forall i :: 0 <= i < |rows[0]| && Slug(rows[0][i].text) != "" ==>
      Slug(rows[0][i].text) in ConfigOf(rows)
  {
    if HasHeaderPair(rows) {
      var w := HeaderWrites(rows[0], rows[1]);
      assert ConfigWrites(rows) == w + [];
      assert w + [] == w;
      forall i | 0 <= i < |rows[0]| && Slug(rows[0][i].text) != ""
        ensures Slug(rows[0][i].text) in ConfigOf(rows)
      {
        LastColumnWithKey(rows[0], rows[1], i);
      }
    } else {
      assert ConfigWrites(rows) == [];
    }
  }

  /** Some column at or after `i` is the last one with `i`'s slug; its write sets the key. */
  lemma LastColumnWithKey(header: Row, values: Row, i: nat)
    requires |header| <= |values| && i < |header| && Slug(header[i].text) != ""
    ensures Slug(header[i].text) in Apply(map[], HeaderWrites(header, values))
    decreases |header| - i
  {
    var k := Slug(header[i].text);
    if exists j :: i < j < |header| && Slug(header[j].text) == k {
      var j :| i < j < |header| && Slug(header[j].text) == k;
      LastColumnWithKey(header, values, j);
    } else {
      HeaderColumnValue(header, values, i);
    }
  }

  /** One more header column: its write, if its slugged header is non-empty. */
  lemma HeaderStep(header: Row, values: Row, i: nat)
    requires i < |header| <= |values|
    ensures Apply(map[], HeaderWrites(header[..i + 1], values)) ==
      Apply(Apply(map[], HeaderWrites(header[..i], values)), ColumnWrite(header[i], values[i]))
  {
    assert header[..i + 1][..i] == header[..i];
    ApplyAppend(map[], HeaderWrites(header[..i], values), ColumnWrite(header[i], values[i]));
  }

  /** One more key/value row: its write, if it has one. */
  lemma RowStep(m: Config, rows: seq<Row>, j: nat)
    requires j < |rows|
    ensures Apply(m, RowWrites(rows[..j + 1])) ==
      var row := rows[j];
      var before := Apply(m, RowWrites(rows[..j]));
      if |row| >= 2 && Slug(row[0].text) != "" then before[Slug(row[0].text) := Trim(row[1].text)] else before
  {
    assert rows[..j + 1][..j] == rows[..j];
    ApplyAppend(m, RowWrites(rows[..j]), RowWrite(rows[j]));
  }

  /** The header writes come first, then the row writes. */
  lemma ConfigOfSplit(rows: seq<Row>)
    ensures ConfigOf(rows) ==
      Apply(Apply(map[], HeaderPairWrites(rows)), KeyValueWrites(rows))
  {
    ApplyAppend(map[], HeaderPairWrites(rows), KeyValueWrites(rows));
  }

  /** Phase 1 of `parseConfig`: the header+value pair, column by column. */
  method ReadHeaderPair(header: Row, values: Row) returns (cfg: Config)
    requires |header| == |values|
    ensures cfg == Apply(map[], HeaderWrites(header, values))
  {
    cfg := map[];
    var i := 0;
    while i < |header|
      invariant 0 <= i <= |header|
      invariant cfg == Apply(map[], HeaderWrites(header[..i], values))
    {
      HeaderStep(header, values, i);
      var headerText := Slug(header[i].text);
      var valueText := Trim(values[i].text);
      if headerText != "" {
        cfg := cfg[headerText := valueText];
      }
      i := i + 1;
    }
    assert header[..|header|] == header;
  }

  /** Phase 2 of `parseConfig`: every later row with two cells, in order. */
  method ReadKeyValueRows(start: Config, rest: seq<Row>) returns (cfg: Config)
    ensures cfg == Apply(start, RowWrites(rest))
  {
    cfg := start;
    var j := 0;
    while j < |rest|
      invariant 0 <= j <= |rest|
      invariant cfg == Apply(start, RowWrites(rest[..j]))
    {
      var row := rest[j];
      RowStep(start, rest, j);
      if |row| >= 2 {
        var key := Slug(row[0].text);
        var value := Trim(row[1].text);
        if key != "" {
          cfg := cfg[key := value];
        }
      }
      j := j + 1;
    }
    assert rest[..|rest|] == rest;
  }

  /**
   * `parseConfig`: fills the map from the header+value pair, then from the
   * key/value rows, exactly as the writes above describe; every key is a
   * non-empty slug.
   */
  method ParseConfig(block: Option<Block>) returns (cfg: Config)
    ensures cfg == ConfigOf(BlockRows(block))
    ensures forall k :: k in cfg ==> k != "" && IsSlug(k)
  {
    var rows := BlockRows(block);
    ConfigOfSplit(rows);
    cfg := map[];
    if |rows| == 0 {
      return;
    }
    if HasHeaderPair(rows) {
      cfg := ReadHeaderPair(rows[0], rows[1]);
    }
    if |rows| > 2 {
      cfg := ReadKeyValueRows(cfg, rows[2..]);
    }
    AllConfigKeysAreSlugs(rows);
  }
}
