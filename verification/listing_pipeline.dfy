/**
 * `normalizePathFilter` and `sortAndFilter` of the content-listing block:
 * the index items are narrowed by a path prefix, then by a fixed
 * field/value pair, then stably sorted (`newest` or by title), then cut to
 * a `parseInt` limit.
 *
 * `sortAndFilter` works on a copy (`items.slice()`), so the caller's list
 * is never changed; here every stage takes and returns a value.
 */
module ListingPipeline {
  import opened Common
  import opened JsString
  import opened Sequences
  import opened IndexItem
  import opened ListingConfig
  import StableSort

  // ---------------------------------------------------------------------------
  // Path prefix
  // ---------------------------------------------------------------------------

  /**
   * `normalizePathFilter`: `None` (null) for a missing or blank filter,
   * otherwise the trimmed filter without one trailing `*`.
   */
  function NormalizePathFilter(filter: string): (r: Option<string>)
    ensures r.None? <==> Trim(filter) == ""
    ensures r.Some? ==>
      r.value + "*" == Trim(filter) || (r.value == Trim(filter) && !EndsWith(Trim(filter), '*'))
  {
    if filter == "" then None
    else
      var trimmed := Trim(filter);
      if trimmed == "" then None
      else if EndsWith(trimmed, '*') then
        assert trimmed[..|trimmed| - 1] + "*" == trimmed;
        Some(trimmed[..|trimmed| - 1])
      else Some(trimmed)
  }

  /** A filter written `p*` selects the same items as `p`. */
  lemma StarFilterIsPrefixFilter(p: string)
    requires p != "" && IsTrimmed(p) && !EndsWith(p, '*')
    ensures NormalizePathFilter(p + "*") == NormalizePathFilter(p) == Some(p)
  {
    TrimOfTrimmed(p);
    assert IsTrimmed(p + "*");
    TrimOfTrimmed(p + "*");
    assert (p + "*")[..|p + "*"| - 1] == p;
  }

  /** `cfg['path-prefix'] || cfg['path-filter']`, normalized. */
  function PathPrefix(cfg: Config): Option<string> {
    NormalizePathFilter(if Cfg(cfg, "path-prefix") != "" then Cfg(cfg, "path-prefix") else Cfg(cfg, "path-filter"))
  }

  /** `if (pathPrefix)`: a prefix that normalizes to `""` (the filter `"*"`) filters nothing. */
  predicate PathFilterActive(cfg: Config) {
    PathPrefix(cfg).Some? && PathPrefix(cfg).value != ""
  }

  /** `item.path || ''`; a list has no `startsWith`, so the call throws. */
  function PathText(item: Item): Result<string> {
    if "path" !in item then Ok("")
    else
      match item["path"]
      case Str(s) => Ok(s)
      case Strs(_) => Thrown("TypeError: startsWith is not a function")
  }

  predicate PathMatches(item: Item, prefix: string) {
    PathText(item).Ok? && StartsWith(PathText(item).value, prefix)
  }

  /** The path filter; it throws as soon as it meets a list-valued `path`. */
  function FilterByPath(items: seq<Item>, prefix: string): (r: Result<seq<Item>>)
    ensures r.Thrown? <==> exists i :: 0 <= i < |items| && PathText(items[i]).Thrown?
    ensures r.Ok? ==> IsSubsequence(r.value, items)
    ensures r.Ok? ==> forall x :: x in r.value ==> PathMatches(x, prefix)
    ensures r.Ok? ==> forall x :: x in items && PathMatches(x, prefix) ==> x in r.value
  {
    if items == [] then Ok([])
    else
      var init := items[..|items| - 1];
      var last := items[|items| - 1];
      assert items == init + [last];
      var rest :- FilterByPath(init, prefix);
      var path :- PathText(last);
      if StartsWith(path, prefix) then
        SubsequenceSnoc(rest, init, last);
        Ok(rest + [last])
      else
        SubsequenceSnoc(rest, init, last);
        Ok(rest)
  }

  /** The path filter keeps every matching item as often as the input holds it, and nothing else. */
  lemma {:induction false} FilterByPathCounts(items: seq<Item>, prefix: string)
    ensures FilterByPath(items, prefix).Ok? ==>
      forall x :: multiset(FilterByPath(items, prefix).value)[x] == if PathMatches(x, prefix) then multiset(items)[x] else 0
    decreases |items|
  {
    if items != [] && FilterByPath(items, prefix).Ok? {
      var init := items[..|items| - 1];
      var last := items[|items| - 1];
      InitLast(items);
      FilterByPathCounts(init, prefix);
      CountSnoc(init, last);
      CountSnoc(FilterByPath(init, prefix).value, last);
    }
  }

  // ---------------------------------------------------------------------------
  // Fixed filter
  // ---------------------------------------------------------------------------

  /** `filter-field` and the lower-cased `filter-value`, when both are set. */
  function FixedFilter(cfg: Config): Option<(string, string)> {
    if Cfg(cfg, "filter-field") != "" && Cfg(cfg, "filter-value") != "" then
      Some((Cfg(cfg, "filter-field"), Lower(Cfg(cfg, "filter-value"))))
    else None
  }

  /** The field is truthy and equals `wanted` ignoring case; for a list, some element does. */
  predicate FieldMatches(item: Item, field: string, wanted: string) {
    field in item && Truthy(item[field]) &&
    match item[field]
    case Str(s) => Lower(s) == wanted
    case Strs(xs) => exists v :: v in xs && Lower(v) == wanted
  }

  function FilterByField(items: seq<Item>, field: string, wanted: string): (r: seq<Item>)
    ensures IsSubsequence(r, items)
    ensures forall x :: x in r ==> FieldMatches(x, field, wanted)
    ensures forall x :: x in items && FieldMatches(x, field, wanted) ==> x in r
    ensures forall x :: multiset(r)[x] == if FieldMatches(x, field, wanted) then multiset(items)[x] else 0
  {
    if items == [] then []
    else
      var init := items[..|items| - 1];
      var last := items[|items| - 1];
      assert items == init + [last];
      var rest := FilterByField(init, field, wanted);
      SubsequenceSnoc(rest, init, last);
      CountSnoc(init, last);
      CountSnoc(rest, last);
      if FieldMatches(last, field, wanted) then rest + [last] else rest
  }

  /** The case of the configured value does not matter. */
  lemma FixedFilterIgnoresCase(cfg: Config, cfg': Config)
    requires Cfg(cfg, "filter-field") == Cfg(cfg', "filter-field")
    requires Lower(Cfg(cfg, "filter-value")) == Lower(Cfg(cfg', "filter-value"))
    ensures FixedFilter(cfg) == FixedFilter(cfg')
  {
    if Cfg(cfg, "filter-value") == "" {
      assert |Lower(Cfg(cfg', "filter-value"))| == 0;
    }
    if Cfg(cfg', "filter-value") == "" {
      assert |Lower(Cfg(cfg, "filter-value"))| == 0;
    }
  }

  // ---------------------------------------------------------------------------
  // Sorting
  // ---------------------------------------------------------------------------

  datatype SortMode = Newest | ByTitle | Unsorted

  /** `(cfg.sort || cfg['sort-by'] || '').toLowerCase()`. */
  function SortModeOf(cfg: Config): SortMode {
    var s := Lower(if Cfg(cfg, "sort") != "" then Cfg(cfg, "sort") else Cfg(cfg, "sort-by"));
    if s == "newest" then Newest
    else if s == "title" || s == "name" || s == "alpha" then ByTitle
    else Unsorted
  }

  /** `a.lastModified || a['last-modified'] || a.date || ''`, compared as a string. */
  function DateKey(item: Item): string {
    if "lastModified" in item && Truthy(item["lastModified"]) then ToJsString(item["lastModified"])
    else if "last-modified" in item && Truthy(item["last-modified"]) then ToJsString(item["last-modified"])
    else if "date" in item && Truthy(item["date"]) then ToJsString(item["date"])
    else ""
  }

  /** `(a.title || '').toLowerCase()` for a title that is not a list. */
  function TitleKey(item: Item): string {
    Lower(if "title" in item && item["title"].Str? then item["title"].s else "")
  }

  predicate HasListTitle(item: Item) {
    "title" in item && item["title"].Strs?
  }

  function SortKey(item: Item, mode: SortMode): string {
    if mode == Newest then DateKey(item) else TitleKey(item)
  }

  /** The key the comparator compares, as a function of the item. */
  function KeyFn(mode: SortMode): Item -> string {
    x => SortKey(x, mode)
  }

  /** `newest` compares `b` with `a`: the larger date goes first. */
  function Descending(mode: SortMode): bool {
    mode == Newest
  }

  /** Ordered as the comparator demands; without a sort mode every order is. */
  predicate Ordered(s: seq<Item>, mode: SortMode) {
    mode == Unsorted || StableSort.Sorted(s, KeyFn(mode), Descending(mode))
  }

  /**
   * `result.sort(...)`: no sort for an unknown mode; by title, `toLowerCase`
   * on a list-valued title throws once the comparator runs, that is, when
   * at least two items are sorted.
   */
  function SortItems(items: seq<Item>, mode: SortMode): (r: Result<seq<Item>>)
    ensures r.Thrown? <==> mode == ByTitle && |items| >= 2 && exists i :: 0 <= i < |items| && HasListTitle(items[i])
    ensures r.Ok? ==> multiset(r.value) == multiset(items)
    ensures mode == Unsorted ==> r == Ok(items)
  {
    if mode == Unsorted then Ok(items)
    else if mode == ByTitle && |items| >= 2 && exists i :: 0 <= i < |items| && HasListTitle(items[i]) then
      Thrown("TypeError: toLowerCase is not a function")
    else Ok(StableSort.InsertionSort(items, KeyFn(mode), Descending(mode)))
  }

  /** A successful sort is ordered, and items with equal keys keep their order. */
  lemma SortItemsOrdered(items: seq<Item>, mode: SortMode, k: string)
    requires SortItems(items, mode).Ok?
    ensures Ordered(SortItems(items, mode).value, mode)
    ensures mode != Unsorted ==>
      StableSort.WithKey(SortItems(items, mode).value, KeyFn(mode), k) == StableSort.WithKey(items, KeyFn(mode), k)
  {
    if mode != Unsorted {
      StableSort.InsertionSortSorted(items, KeyFn(mode), Descending(mode));
      StableSort.InsertionSortStable(items, KeyFn(mode), Descending(mode), k);
    }
  }

  // ---------------------------------------------------------------------------
  // Limit
  // ---------------------------------------------------------------------------

  /** `parseInt(cfg.limit, 10)` when it is a number above zero. */
  function LimitOf(cfg: Config): (r: Option<nat>)
    ensures r.Some? ==> r.value > 0 && ParseInt(Cfg(cfg, "limit")) == Some(r.value as int)
    ensures r.None? ==> ParseInt(Cfg(cfg, "limit")).None? || ParseInt(Cfg(cfg, "limit")).value <= 0
  {
    match ParseInt(Cfg(cfg, "limit"))
    case Some(n) => if n > 0 then Some(n as nat) else None
    case None => None
  }

  /** `result.slice(0, limit)`. */
  function TakeLimit(s: seq<Item>, limit: Option<nat>): (r: seq<Item>)
    ensures limit.None? ==> r == s
    ensures limit.Some? ==> |r| == if limit.value < |s| then limit.value else |s|
    ensures r <= s
  {
    if limit.Some? && limit.value < |s| then s[..limit.value] else s
  }

  /**
   * The limit keeps the top of the sorted list: no dropped item goes
   * strictly before a kept one.
   */
  lemma LimitKeepsTop(s: seq<Item>, limit: Option<nat>, mode: SortMode)
    requires mode != Unsorted && Ordered(s, mode)
    ensures Ordered(TakeLimit(s, limit), mode)
    ensures forall i, j :: 0 <= i < |TakeLimit(s, limit)| <= j < |s| ==>
      !StableSort.KeyBefore(SortKey(s[j], mode), SortKey(s[i], mode), Descending(mode))
  {
  }

  // ---------------------------------------------------------------------------
  // sortAndFilter
  // ---------------------------------------------------------------------------

  /**
   * What `sortAndFilter` reads from the configuration: the path prefix
   * (`""` when the path filter is off), the fixed filter, the sort mode and
   * the limit.
   */
  datatype Plan = Plan(prefix: string, fixed: Option<(string, string)>, mode: SortMode, limit: Option<nat>)

  function PlanOf(cfg: Config): (p: Plan)
    ensures p.prefix != "" <==> PathFilterActive(cfg)
    ensures p.prefix != "" ==> p.prefix == PathPrefix(cfg).value
    ensures p.fixed == FixedFilter(cfg) && p.mode == SortModeOf(cfg) && p.limit == LimitOf(cfg)
  {
    Plan(if PathFilterActive(cfg) then PathPrefix(cfg).value else "", FixedFilter(cfg), SortModeOf(cfg), LimitOf(cfg))
  }

  /** Path filter, then fixed filter. */
  function Selected(items: seq<Item>, plan: Plan): Result<seq<Item>> {
    var afterPath :- if plan.prefix != "" then FilterByPath(items, plan.prefix) else Ok(items);
    Ok(if plan.fixed.Some? then FilterByField(afterPath, plan.fixed.value.0, plan.fixed.value.1) else afterPath)
  }

  /** An item passes every filter the plan turns on. */
  predicate PassesFilters(x: Item, plan: Plan) {
    && (plan.prefix != "" ==> PathMatches(x, plan.prefix))
    && (plan.fixed.Some? ==> FieldMatches(x, plan.fixed.value.0, plan.fixed.value.1))
  }

  /** The filters throw exactly when the path filter is on and meets a list-valued path. */
  lemma SelectedThrows(items: seq<Item>, plan: Plan)
    ensures Selected(items, plan).Thrown? <==>
      plan.prefix != "" && exists i :: 0 <= i < |items| && PathText(items[i]).Thrown?
  {
  }

  /**
   * The filters keep exactly the items that pass them, in their order, each
   * as often as the input has it.
   */
  lemma SelectedSpec(items: seq<Item>, plan: Plan)
    ensures Selected(items, plan).Ok? ==>
      && IsSubsequence(Selected(items, plan).value, items)
      && (forall x :: x in Selected(items, plan).value ==> PassesFilters(x, plan))
      && (forall x :: x in items && PassesFilters(x, plan) ==> x in Selected(items, plan).value)
      && (forall x :: multiset(Selected(items, plan).value)[x] == if PassesFilters(x, plan) then multiset(items)[x] else 0)
  {
    var path := if plan.prefix != "" then FilterByPath(items, plan.prefix) else Ok(items);
    if path.Ok? {
      var afterPath := path.value;
      var out := if plan.fixed.Some? then FilterByField(afterPath, plan.fixed.value.0, plan.fixed.value.1) else afterPath;
      assert Selected(items, plan) == Ok(out);
      if plan.prefix == "" {
        SubsequenceRefl(items);
      } else {
        FilterByPathCounts(items, plan.prefix);
      }
      if plan.fixed.Some? {
        SubsequenceTrans(out, afterPath, items);
        SubsequenceMultiset(out, afterPath);
        forall x | x in out
          ensures x in afterPath
        {
          assert x in multiset(out);
        }
      }
    }
  }

  /** The filtered, sorted and limited list, or what the first failing stage throws. */
  function Run(items: seq<Item>, plan: Plan): Result<seq<Item>> {
    var selected :- Selected(items, plan);
    var sorted :- SortItems(selected, plan.mode);
    Ok(TakeLimit(sorted, plan.limit))
  }

  /** What `sortAndFilter` returns or throws; anything but a list of items counts as empty. */
  function SortAndFilter(items: Option<seq<Item>>, cfg: Config): Result<seq<Item>> {
    Run(if items.Some? then items.value else [], PlanOf(cfg))
  }

  lemma SortAndFilterOfMissing(cfg: Config)
    ensures SortAndFilter(None, cfg) == Ok([])
  {
    assert Selected([], PlanOf(cfg)) == Ok([]);
  }

  /** The listing is drawn from the input and passes every active filter. */
  lemma RunSelects(items: seq<Item>, plan: Plan)
    ensures Run(items, plan).Ok? ==> multiset(Run(items, plan).value) <= multiset(items)
    ensures Run(items, plan).Ok? ==> forall x :: x in Run(items, plan).value ==> PassesFilters(x, plan)
  {
    SelectedSpec(items, plan);
    if Run(items, plan).Ok? {
      var selected := Selected(items, plan).value;
      var sorted := SortItems(selected, plan.mode).value;
      var r := Run(items, plan).value;
      SubsequenceMultiset(selected, items);
      PrefixIsSubsequence(sorted, |r|);
      assert sorted[..|r|] == r;
      SubsequenceMultiset(r, sorted);
      forall x | x in r ensures PassesFilters(x, plan) {
        assert x in multiset(sorted);
      }
    }
  }

  /**
   * The listing is in the configured order and no longer than the limit;
   * without a sort it keeps the input order, and without a limit it keeps
   * every item that passes the filters.
   */
  lemma RunOrderAndLimit(items: seq<Item>, plan: Plan)
    ensures Run(items, plan).Ok? ==> Ordered(Run(items, plan).value, plan.mode)
    ensures Run(items, plan).Ok? && plan.limit.Some? ==> |Run(items, plan).value| <= plan.limit.value
    ensures Run(items, plan).Ok? && plan.mode == Unsorted ==> IsSubsequence(Run(items, plan).value, items)
    ensures Run(items, plan).Ok? && plan.limit.None? ==>
      forall x :: x in items && PassesFilters(x, plan) ==> x in Run(items, plan).value
  {
    SelectedSpec(items, plan);
    if Run(items, plan).Ok? {
      var selected := Selected(items, plan).value;
      var sorted := SortItems(selected, plan.mode).value;
      var r := Run(items, plan).value;
      SortItemsOrdered(selected, plan.mode, "");
      if plan.mode != Unsorted {
        LimitKeepsTop(sorted, plan.limit, plan.mode);
      }
      PrefixIsSubsequence(sorted, |r|);
      assert sorted[..|r|] == r;
      if plan.mode == Unsorted {
        SubsequenceTrans(r, sorted, items);
      }
      if plan.limit.None? {
        forall x | x in items && PassesFilters(x, plan) ensures x in r {
          assert x in multiset(selected);
        }
      }
    }
  }

  /**
   * The listing throws only on list-valued paths or titles: with the path
   * filter on, any list-valued path throws.
   */
  lemma RunThrows(items: seq<Item>, plan: Plan)
    ensures Run(items, plan).Thrown? ==>
      exists i :: 0 <= i < |items| && (PathText(items[i]).Thrown? || HasListTitle(items[i]))
    ensures plan.prefix != "" && (exists i :: 0 <= i < |items| && PathText(items[i]).Thrown?) ==>
      Run(items, plan).Thrown?
  {
    SelectedThrows(items, plan);
    SelectedSpec(items, plan);
    if Selected(items, plan).Ok? {
      var selected := Selected(items, plan).value;
      if SortItems(selected, plan.mode).Thrown? {
        var i :| 0 <= i < |selected| && HasListTitle(selected[i]);
        SubsequenceMultiset(selected, items);
        assert selected[i] in multiset(items);
      }
    }
  }
}
